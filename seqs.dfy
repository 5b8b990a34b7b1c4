/** The JavaScript `undefined`/`null` alternative, as an optional value. */
module Wrappers {

  datatype Option<+T> = None | Some(value: T)
}

/** Sequence helpers shared by the model: `Array.prototype.indexOf` and the
    child-list edits that `insertBefore`/`removeChild` perform. */
module Seqs {

  function Min(a: int, b: int): int { if a <= b then a else b }

  function Max(a: int, b: int): int { if a <= b then b else a }

  /** `s.indexOf(x)`: the first position of `x` in `s`, or -1 when `x` is absent. */
  function IndexOf<T(==)>(s: seq<T>, x: T): (r: int)
    ensures -1 <= r < |s|
    ensures r == -1 <==> x !in s
    ensures 0 <= r ==> s[r] == x && x !in s[..r]
  {
    if |s| == 0 then -1
    else if s[0] == x then 0
    else
      var k := IndexOf(s[1..], x);
      assert s[1..][..if k < 0 then 0 else k] == s[1..if k < 0 then 1 else k + 1];
      if k == -1 then -1 else k + 1
  }

  ghost predicate NoDuplicates<T>(s: seq<T>) {
    forall i, j :: 0 <= i < j < |s| ==> s[i] != s[j]
  }

  /** In a sequence without duplicates, `indexOf` finds every element at its own position. */
  lemma IndexOfDistinct<T>(s: seq<T>, i: int)
    requires NoDuplicates(s) && 0 <= i < |s|
    ensures IndexOf(s, s[i]) == i
  {
  }

  /** The sequence with `x` placed at position `p`. */
  function InsertedAt<T>(s: seq<T>, x: T, p: nat): seq<T>
    requires p <= |s|
  {
    s[..p] + [x] + s[p..]
  }

  /** The sequence with the first occurrence of `x` taken out (unchanged when `x` is absent). */
  function Without<T(==)>(s: seq<T>, x: T): seq<T> {
    var i := IndexOf(s, x);
    if i == -1 then s else s[..i] + s[i + 1..]
  }

  lemma {:induction false} InsertedAtShape<T>(s: seq<T>, x: T, p: nat)
    requires p <= |s|
    ensures |InsertedAt(s, x, p)| == |s| + 1
    ensures InsertedAt(s, x, p)[p] == x
    ensures forall k :: 0 <= k < p ==> InsertedAt(s, x, p)[k] == s[k]
    ensures forall k :: p < k <= |s| ==> InsertedAt(s, x, p)[k] == s[k - 1]
    ensures multiset(InsertedAt(s, x, p)) == multiset(s) + multiset{x}
  {
    var r := InsertedAt(s, x, p);
    assert s == s[..p] + s[p..];
    calc {
      multiset(r);
      multiset(s[..p]) + multiset([x]) + multiset(s[p..]);
      multiset(s[..p]) + multiset(s[p..]) + multiset{x};
      { assert multiset(s) == multiset(s[..p] + s[p..]); }
      multiset(s) + multiset{x};
    }
  }

  lemma InsertedAtNoDuplicates<T>(s: seq<T>, x: T, p: nat)
    requires p <= |s| && NoDuplicates(s) && x !in s
    ensures NoDuplicates(InsertedAt(s, x, p))
  {
    var r := InsertedAt(s, x, p);
    InsertedAtShape(s, x, p);
    forall i, j | 0 <= i < j < |r| ensures r[i] != r[j] {
      if i == p {
        assert r[j] == s[j - 1];
      } else if j == p {
        assert r[i] == s[i];
      } else {
        var i' := if i < p then i else i - 1;
        var j' := if j < p then j else j - 1;
        assert r[i] == s[i'] && r[j] == s[j'] && i' < j';
      }
    }
  }

  lemma WithoutNoDuplicates<T>(s: seq<T>, x: T)
    requires NoDuplicates(s)
    ensures NoDuplicates(Without(s, x))
    ensures x !in Without(s, x)
    ensures forall y :: y in Without(s, x) <==> y in s && y != x
  {
    var i := IndexOf(s, x);
    if i != -1 {
      var left, right := s[..i], s[i + 1..];
      assert s == left + [x] + right;
      assert x !in right by {
        forall k | 0 <= k < |right| ensures right[k] != x {
          assert right[k] == s[i + 1 + k];
        }
      }
      var r := left + right;
      assert forall k :: 0 <= k < |r| ==> r[k] == if k < i then s[k] else s[k + 1];
    }
  }

  /** Taking out a node that was just put in gives the original child list back. */
  lemma {:induction false} WithoutInsertedAt<T>(s: seq<T>, x: T, p: nat)
    requires p <= |s| && x !in s
    ensures Without(InsertedAt(s, x, p), x) == s
  {
    var r := InsertedAt(s, x, p);
    assert r[p] == x;
    assert r[..p] == s[..p];
    assert x !in r[..p];
    assert IndexOf(r, x) == p;
    assert r[p + 1..] == s[p..];
    assert s == s[..p] + s[p..];
  }

  /** Putting a node back where it was taken out gives the original child list back. */
  lemma {:induction false} InsertedAtWithout<T>(s: seq<T>, i: nat)
    requires i < |s| && NoDuplicates(s)
    ensures InsertedAt(Without(s, s[i]), s[i], i) == s
  {
    IndexOfDistinct(s, i);
    var w := Without(s, s[i]);
    assert w == s[..i] + s[i + 1..];
    assert w[..i] == s[..i];
    assert w[i..] == s[i + 1..];
    assert s == s[..i] + [s[i]] + s[i + 1..];
  }
}
