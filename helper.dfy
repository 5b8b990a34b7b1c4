/** The support code of the component: the kebab-to-camel rewrite with its
    memo cache, and the two DOM child-list edits. */
module Helper {
  import opened Seqs

  // ---------------------------------------------------------------------------
  // camelize: `str.replace(/-(\w)/g, (_, c) => c.toUpperCase())`
  // ---------------------------------------------------------------------------

  /** The regular-expression class `\w` (no Unicode flag): `[A-Za-z0-9_]`. */
  predicate IsWordChar(c: char) {
    'a' <= c <= 'z' || 'A' <= c <= 'Z' || '0' <= c <= '9' || c == '_'
  }

  predicate IsLower(c: char) { 'a' <= c <= 'z' }

  predicate IsUpper(c: char) { 'A' <= c <= 'Z' }

  /** `String.prototype.toUpperCase` on one word character. */
  function ToUpper(c: char): char {
    if IsLower(c) then (c as int - 32) as char else c
  }

  function ToLower(c: char): char {
    if IsUpper(c) then (c as int + 32) as char else c
  }

  /** A global replace scans left to right: at a "-" followed by a word
      character both are replaced by that character upper-cased and the scan
      resumes after them; anything else is copied and the scan moves on by one. */
  function Camelize(s: string): (r: string)
    ensures |r| <= |s|
  {
    if |s| == 0 then ""
    else if s[0] == '-' && |s| >= 2 && IsWordChar(s[1]) then [ToUpper(s[1])] + Camelize(s[2..])
    else [s[0]] + Camelize(s[1..])
  }

  /** The number of "-<word char>" pairs the scan replaces. */
  function Pairs(s: string): nat {
    if |s| == 0 then 0
    else if s[0] == '-' && |s| >= 2 && IsWordChar(s[1]) then 1 + Pairs(s[2..])
    else Pairs(s[1..])
  }

  lemma {:induction false} CamelizeLength(s: string)
    ensures |Camelize(s)| == |s| - Pairs(s)
    ensures 2 * Pairs(s) <= |s|
  {
    if |s| == 0 {
    } else if s[0] == '-' && |s| >= 2 && IsWordChar(s[1]) {
      CamelizeLength(s[2..]);
    } else {
      CamelizeLength(s[1..]);
    }
  }

  /** A string without "-" comes back unchanged. */
  lemma {:induction false} CamelizeWithoutDash(s: string)
    requires '-' !in s
    ensures Camelize(s) == s
  {
    if |s| > 0 {
      assert '-' !in s[1..] by { assert forall k :: 0 <= k < |s| - 1 ==> s[1..][k] == s[k + 1]; }
      CamelizeWithoutDash(s[1..]);
    }
  }

  /** A trailing "-" is never consumed. */
  lemma {:induction false} CamelizeKeepsTrailingDash(s: string)
    ensures Camelize(s + "-") == Camelize(s) + "-"
  {
    if |s| == 0 {
    } else if s[0] == '-' && |s| >= 2 && IsWordChar(s[1]) {
      assert (s + "-")[2..] == s[2..] + "-";
      CamelizeKeepsTrailingDash(s[2..]);
    } else {
      assert (s + "-")[1..] == s[1..] + "-";
      CamelizeKeepsTrailingDash(s[1..]);
    }
  }

  /** A "-" followed by a non-word character (another "-" included) is kept. */
  lemma CamelizeKeepsDashBeforeNonWord(c: char, rest: string)
    requires !IsWordChar(c)
    ensures Camelize("-" + [c] + rest) == "-" + Camelize([c] + rest)
  {
    assert ("-" + [c] + rest)[1..] == [c] + rest;
  }

  /** Dropping every "-" and folding case, a string and its camelized form agree:
      camelize only deletes dashes and upper-cases the character after them. */
  function Folded(s: string): string {
    if |s| == 0 then ""
    else if s[0] == '-' then Folded(s[1..])
    else [ToLower(s[0])] + Folded(s[1..])
  }

  lemma {:induction false} CamelizeFolded(s: string)
    ensures Folded(Camelize(s)) == Folded(s)
  {
    if |s| == 0 {
    } else if s[0] == '-' && |s| >= 2 && IsWordChar(s[1]) {
      CamelizeFolded(s[2..]);
      var c := Camelize(s);
      assert c == [ToUpper(s[1])] + Camelize(s[2..]);
      assert c[1..] == Camelize(s[2..]);
      assert s[1..][1..] == s[2..];
      assert ToLower(ToUpper(s[1])) == ToLower(s[1]);
    } else {
      CamelizeFolded(s[1..]);
      var c := Camelize(s);
      assert c[1..] == Camelize(s[1..]);
    }
  }

  /** Kebab-casing as a template writes attribute names: every upper-case letter
      becomes "-" and its lower-case form. */
  function Kebab(s: string): string {
    if |s| == 0 then ""
    else if IsUpper(s[0]) then ['-', ToLower(s[0])] + Kebab(s[1..])
    else [s[0]] + Kebab(s[1..])
  }

  /** No "-" of the camel-case name is followed by a word character that is not
      upper-case (such a pair would itself be rewritten). */
  ghost predicate KebabSafe(s: string) {
    forall i :: 0 <= i < |s| - 1 && s[i] == '-' ==> !IsWordChar(s[i + 1]) || IsUpper(s[i + 1])
  }

  /** Round trip: camelize undoes kebab-casing, e.g. "ghostClass" -> "ghost-class" -> "ghostClass". */
  lemma {:induction false} CamelizeKebab(s: string)
    requires KebabSafe(s)
    ensures Camelize(Kebab(s)) == s
  {
    if |s| > 0 {
      var rest := s[1..];
      assert KebabSafe(rest) by {
        forall i | 0 <= i < |rest| - 1 && rest[i] == '-'
          ensures !IsWordChar(rest[i + 1]) || IsUpper(rest[i + 1])
        {
          assert s[i + 1] == '-' && s[i + 2] == rest[i + 1];
        }
      }
      CamelizeKebab(rest);
      var k := Kebab(s);
      if IsUpper(s[0]) {
        assert k == ['-', ToLower(s[0])] + Kebab(rest);
        assert k[2..] == Kebab(rest);
        assert ToUpper(ToLower(s[0])) == s[0];
      } else if s[0] == '-' {
        assert k == ['-'] + Kebab(rest);
        assert k[1..] == Kebab(rest);
        if |rest| > 0 {
          assert !IsWordChar(rest[0]) || IsUpper(rest[0]);
          assert Kebab(rest)[0] == if IsUpper(rest[0]) then '-' else rest[0];
        }
      } else {
        assert k == [s[0]] + Kebab(rest);
        assert k[1..] == Kebab(rest);
      }
    }
  }

  /** A prefix without "-" is copied as it is. */
  lemma {:induction false} CamelizeDashFreePrefix(a: string, b: string)
    requires '-' !in a
    ensures Camelize(a + b) == a + Camelize(b)
  {
    if |a| > 0 {
      var ab := a + b;
      assert ab[0] == a[0] && a[0] != '-';
      assert ab[1..] == a[1..] + b;
      assert '-' !in a[1..] by { assert forall k :: 0 <= k < |a| - 1 ==> a[1..][k] == a[k + 1]; }
      CamelizeDashFreePrefix(a[1..], b);
      calc {
        Camelize(ab);
        [ab[0]] + Camelize(ab[1..]);
        [a[0]] + (a[1..] + Camelize(b));
        { assert a == [a[0]] + a[1..]; }
        a + Camelize(b);
      }
    } else {
      assert a + b == b;
    }
  }

  lemma CamelizeDashClass()
    ensures Camelize("-class") == "Class"
  {
    assert "-class"[2..] == "lass";
    CamelizeWithoutDash("lass");
  }

  lemma CamelizeGhostClass()
    ensures Camelize("ghost-class") == "ghostClass"
  {
    CamelizeDashClass();
    CamelizeDashFreePrefix("ghost", "-class");
    assert "ghost" + "-class" == "ghost-class";
    assert "ghost" + "Class" == "ghostClass";
  }

  lemma CamelizeDashMove()
    ensures Camelize("-move") == "Move"
  {
    assert "-move"[2..] == "ove";
    CamelizeWithoutDash("ove");
  }

  lemma CamelizeOnMove()
    ensures Camelize("on-move") == "onMove"
  {
    CamelizeDashMove();
    CamelizeDashFreePrefix("on", "-move");
    assert "on" + "-move" == "on-move";
    assert "on" + "Move" == "onMove";
  }

  /** camelize is not idempotent: "a--b" keeps its first "-", which the second pass consumes. */
  lemma CamelizeNotIdempotent()
    ensures Camelize("a--b") == "a-B"
    ensures Camelize(Camelize("a--b")) == "aB"
  {
    assert Camelize("b") == "b";
    assert Camelize("-b") == "B";
    assert Camelize("--b") == "-B";
    assert Camelize("B") == "B";
    assert Camelize("-B") == "B";
  }

  // ---------------------------------------------------------------------------
  // cached(fn): a memo table in front of a string function
  // ---------------------------------------------------------------------------

  /** `cached(fn)` returns a closure over a prototype-less `cache` object; the
      closure is this object's `Call`. */
  class Cached {
    const fn: string -> string
    var cache: map<string, string>

    /** The cache only ever holds `fn(k)` under key `k`. */
    ghost predicate Valid()
      reads this
    {
      forall k :: k in cache ==> cache[k] == fn(k)
    }

    constructor (fn: string -> string)
      ensures Valid() && this.fn == fn && cache == map[]
    {
      this.fn := fn;
      cache := map[];
    }

    /** `hit || (cache[str] = fn(str))`: an empty string is falsy, so a cached
        "" is recomputed and stored again. */
    method Call(str: string) returns (r: string)
      requires Valid()
      modifies this
      ensures Valid()
      ensures r == fn(str)
      ensures if str in old(cache) && old(cache)[str] != "" then cache == old(cache)
              else cache == old(cache)[str := fn(str)]
    {
      var hit := if str in cache then cache[str] else "";
      if hit != "" {
        r := hit;
      } else {
        r := fn(str);
        cache := cache[str := r];
      }
    }
  }

  // ---------------------------------------------------------------------------
  // insertNodeAt / removeNode on an element's child list
  // ---------------------------------------------------------------------------

  /** A DOM node, by identity. */
  type NodeId = nat

  /** A container element; `children` is its element-child list, in order. */
  class Element {
    var children: seq<NodeId>

    ghost predicate Valid()
      reads this
    {
      NoDuplicates(children)
    }

    constructor (children: seq<NodeId>)
      requires NoDuplicates(children)
      ensures Valid() && this.children == children
    {
      this.children := children;
    }

    /** `insertNodeAt(this, node, position)`: the reference node is the first
        child when `position` is 0 and otherwise the sibling after child
        `position - 1`; `insertBefore` appends when there is none. A position
        past the end has no child `position - 1` and throws, hence the bound. */
    method InsertNodeAt(node: NodeId, position: int)
      requires Valid()
      requires 0 <= position <= |children|
      requires node !in children
      modifies this
      ensures Valid()
      ensures children == InsertedAt(old(children), node, position)
    {
      var refIndex: int;
      if position == 0 {
        refIndex := if |children| > 0 then 0 else -1;
      } else {
        refIndex := if position < |children| then position else -1;
      }
      InsertedAtNoDuplicates(children, node, position);
      if refIndex == -1 {
        assert children + [node] == InsertedAt(children, node, position);
        children := children + [node];
      } else {
        children := children[..refIndex] + [node] + children[refIndex..];
      }
    }

    /** `removeNode(node)` where this element is the node's parent: a node that
        is not among the children is detached and nothing happens. */
    method RemoveNode(node: NodeId)
      requires Valid()
      modifies this
      ensures Valid()
      ensures children == Without(old(children), node)
      ensures node in old(children) ==> |children| == |old(children)| - 1
    {
      WithoutNoDuplicates(children, node);
      if node in children {
        var i := IndexOf(children, node);
        children := children[..i] + children[i + 1..];
      }
    }
  }
}
