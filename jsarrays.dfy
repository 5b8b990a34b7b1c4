/** JavaScript arrays as the component edits them: `Array.prototype.splice`
    with its argument clamping, and the two edits built from it. */
module JsArrays {
  import opened Seqs

  /** The actual start of `splice(start, …)` on an array of length `len`:
      a negative start counts from the end, and both ends are clamped. */
  function SpliceStart(len: nat, start: int): (r: nat)
    ensures r <= len
    ensures 0 <= start <= len ==> r == start
    ensures start > len ==> r == len
    ensures -(len as int) <= start < 0 ==> r == len + start
    ensures start < -(len as int) ==> r == 0
  {
    if start < 0 then Max(len + start, 0) else Min(start, len)
  }

  /** The actual number of elements `splice` deletes from `from`. */
  function SpliceDeleteCount(len: nat, from: nat, deleteCount: int): (r: nat)
    requires from <= len
    ensures from + r <= len
    ensures 0 <= deleteCount && from + deleteCount <= len ==> r == deleteCount
  {
    Min(Max(deleteCount, 0), len - from)
  }

  /** The array after `a.splice(start, deleteCount, ...items)`: it loses the
      deleted elements and gains `items` (see `SpliceRestores` for where). */
  function Spliced<T>(a: seq<T>, start: int, deleteCount: int, items: seq<T>): (r: seq<T>)
    ensures |r| == |a| - |SpliceRemoved(a, start, deleteCount)| + |items|
  {
    var from := SpliceStart(|a|, start);
    var n := SpliceDeleteCount(|a|, from, deleteCount);
    a[..from] + items + a[from + n..]
  }

  /** The value `a.splice(start, deleteCount, ...)` returns: the deleted
      elements, as many as the clamped count, taken from `a`. */
  function SpliceRemoved<T>(a: seq<T>, start: int, deleteCount: int): (r: seq<T>)
    ensures |r| == SpliceDeleteCount(|a|, SpliceStart(|a|, start), deleteCount)
    ensures 0 <= start && 0 <= deleteCount && start + deleteCount <= |a| ==> r == a[start..start + deleteCount]
  {
    var from := SpliceStart(|a|, start);
    var n := SpliceDeleteCount(|a|, from, deleteCount);
    a[from..from + n]
  }

  /** The closure of `updatePosition`:
      `list.splice(newIndex, 0, list.splice(oldIndex, 1)[0])`.
      The inner splice must remove an element, otherwise `[0]` is undefined. */
  function UpdatedPosition<T>(a: seq<T>, oldIndex: int, newIndex: int): (r: seq<T>)
    requires -|a| <= oldIndex < |a|
    ensures |r| == |a|
  {
    var removed := SpliceRemoved(a, oldIndex, 1);
    Spliced(Spliced(a, oldIndex, 1, []), newIndex, 0, [removed[0]])
  }

  /** One call of `spliceList(start, deleteCount, ...items)` or of
      `updatePosition(oldIndex, newIndex)`. */
  datatype Edit<T> =
    | SpliceEdit(start: int, deleteCount: int, items: seq<T>)
    | MoveEdit(oldIndex: int, newIndex: int)

  predicate Applicable<T>(a: seq<T>, e: Edit<T>) {
    e.MoveEdit? ==> -|a| <= e.oldIndex < |a|
  }

  function Applied<T>(a: seq<T>, e: Edit<T>): seq<T>
    requires Applicable(a, e)
  {
    match e
    case SpliceEdit(start, deleteCount, items) => Spliced(a, start, deleteCount, items)
    case MoveEdit(oldIndex, newIndex) => UpdatedPosition(a, oldIndex, newIndex)
  }

  /** `items` sit at the clamped start, and putting the deleted elements back
      in their place gives the original array. */
  lemma SpliceRestores<T>(a: seq<T>, start: int, deleteCount: int, items: seq<T>)
    ensures var r, from := Spliced(a, start, deleteCount, items), SpliceStart(|a|, start);
            from + |items| <= |r| && r[from..from + |items|] == items
            && a == r[..from] + SpliceRemoved(a, start, deleteCount) + r[from + |items|..]
  {
    var r, from := Spliced(a, start, deleteCount, items), SpliceStart(|a|, start);
    var n := SpliceDeleteCount(|a|, from, deleteCount);
    assert r[..from] == a[..from] && r[from + |items|..] == a[from + n..];
    assert a == a[..from] + a[from..from + n] + a[from + n..];
  }

  // ---------------------------------------------------------------------------
  // splice in range
  // ---------------------------------------------------------------------------

  /** Inserting one element at a position inside the array. */
  lemma {:induction false} InsertShape<T>(a: seq<T>, i: int, x: T)
    requires 0 <= i <= |a|
    ensures Spliced(a, i, 0, [x]) == a[..i] + [x] + a[i..]
    ensures |Spliced(a, i, 0, [x])| == |a| + 1 && Spliced(a, i, 0, [x])[i] == x
    ensures multiset(Spliced(a, i, 0, [x])) == multiset(a) + multiset{x}
  {
    assert a == a[..i] + a[i..];
    assert multiset(a) == multiset(a[..i]) + multiset(a[i..]);
  }

  /** Deleting the element at an index inside the array. */
  lemma {:induction false} DeleteShape<T>(a: seq<T>, i: int)
    requires 0 <= i < |a|
    ensures Spliced(a, i, 1, []) == a[..i] + a[i + 1..]
    ensures SpliceRemoved(a, i, 1) == [a[i]]
    ensures multiset(Spliced(a, i, 1, [])) + multiset{a[i]} == multiset(a)
  {
    assert a == a[..i] + [a[i]] + a[i + 1..];
    assert multiset(a) == multiset(a[..i]) + multiset{a[i]} + multiset(a[i + 1..]);
  }

  /** Removing what was just inserted restores the array. */
  lemma {:induction false} DeleteAfterInsert<T>(a: seq<T>, i: int, x: T)
    requires 0 <= i <= |a|
    ensures Spliced(Spliced(a, i, 0, [x]), i, 1, []) == a
  {
    InsertShape(a, i, x);
    var b := Spliced(a, i, 0, [x]);
    DeleteShape(b, i);
    assert b[..i] == a[..i] && b[i + 1..] == a[i..];
    assert a == a[..i] + a[i..];
  }

  /** Inserting one element lengthens the array by one, wherever `start` points. */
  lemma SplicedInsertLength<T>(a: seq<T>, start: int, x: T)
    ensures |Spliced(a, start, 0, [x])| == |a| + 1
  {
  }

  /** A start past the end appends; a start before the beginning prepends. */
  lemma SpliceClamps<T>(a: seq<T>, start: int, x: T)
    ensures start >= |a| ==> Spliced(a, start, 0, [x]) == a + [x]
    ensures start <= -|a| ==> Spliced(a, start, 0, [x]) == [x] + a
  {
  }

  // ---------------------------------------------------------------------------
  // updatePosition
  // ---------------------------------------------------------------------------

  /** For in-range indexes the move is a delete followed by an insert. */
  lemma {:induction false} UpdatedPositionShape<T>(a: seq<T>, i: int, j: int)
    requires 0 <= i < |a| && 0 <= j < |a|
    ensures UpdatedPosition(a, i, j) == (a[..i] + a[i + 1..])[..j] + [a[i]] + (a[..i] + a[i + 1..])[j..]
  {
    DeleteShape(a, i);
    InsertShape(a[..i] + a[i + 1..], j, a[i]);
  }

  /** `updatePosition` permutes the list: the length is kept, no element is
      lost or duplicated, and the element that was at `i` ends up at the
      clamped new index. */
  lemma {:induction false} UpdatedPositionPermutes<T>(a: seq<T>, i: int, j: int)
    requires 0 <= i < |a|
    ensures |UpdatedPosition(a, i, j)| == |a|
    ensures multiset(UpdatedPosition(a, i, j)) == multiset(a)
    ensures UpdatedPosition(a, i, j)[SpliceStart(|a| - 1, j)] == a[i]
  {
    DeleteShape(a, i);
    var b := Spliced(a, i, 1, []);
    var k := SpliceStart(|b|, j);
    assert Spliced(b, j, 0, [a[i]]) == Spliced(b, k, 0, [a[i]]);
    InsertShape(b, k, a[i]);
  }

  /** Moving back from the new index to the old one undoes a move (both in range). */
  lemma {:induction false} UpdatedPositionInverse<T>(a: seq<T>, i: int, j: int)
    requires 0 <= i < |a| && 0 <= j < |a|
    ensures UpdatedPosition(UpdatedPosition(a, i, j), j, i) == a
  {
    var rest := a[..i] + a[i + 1..];
    var m := UpdatedPosition(a, i, j);
    UpdatedPositionShape(a, i, j);
    assert m == rest[..j] + [a[i]] + rest[j..];
    assert |m| == |a|;
    assert m[j] == a[i];
    assert m[..j] + m[j + 1..] == rest by {
      assert m[..j] == rest[..j];
      assert m[j + 1..] == rest[j..];
      assert rest == rest[..j] + rest[j..];
    }
    UpdatedPositionShape(m, j, i);
    assert UpdatedPosition(m, j, i) == rest[..i] + [a[i]] + rest[i..];
    assert rest[..i] == a[..i];
    assert rest[i..] == a[i + 1..];
    assert a == a[..i] + [a[i]] + a[i + 1..];
  }

  lemma UpdatedPositionExample()
    ensures UpdatedPosition(['A', 'B', 'C'], 0, 2) == ['B', 'C', 'A']
    ensures UpdatedPosition(['A', 'B', 'C'], 2, 0) == ['C', 'A', 'B']
  {
    var a := ['A', 'B', 'C'];
    UpdatedPositionShape(a, 0, 2);
    assert a[..0] + a[1..] == ['B', 'C'];
    UpdatedPositionShape(a, 2, 0);
    assert a[..2] + a[3..] == ['A', 'B'];
  }

  // ---------------------------------------------------------------------------
  // The array object
  // ---------------------------------------------------------------------------

  /** A JavaScript array object; several owners may hold the same one. */
  class JsArray<T> {
    var items: seq<T>

    /** `[...items]`: a fresh array with the same elements. */
    constructor (items: seq<T>)
      ensures this.items == items
    {
      this.items := items;
    }

    method Splice(start: int, deleteCount: int, insert: seq<T>) returns (removed: seq<T>)
      modifies this
      ensures items == Spliced(old(items), start, deleteCount, insert)
      ensures removed == SpliceRemoved(old(items), start, deleteCount)
      ensures |items| == |old(items)| - |removed| + |insert|
    {
      removed := SpliceRemoved(items, start, deleteCount);
      items := Spliced(items, start, deleteCount, insert);
    }
  }

  /** Runs one edit on the array in place, as the closures handed to
      `alterList` do. */
  method ApplyEdit<T>(list: JsArray<T>, edit: Edit<T>)
    requires Applicable(list.items, edit)
    modifies list
    ensures list.items == Applied(old(list.items), edit)
  {
    match edit
    case SpliceEdit(start, deleteCount, items) =>
      var _ := list.Splice(start, deleteCount, items);
    case MoveEdit(oldIndex, newIndex) =>
      var removed := list.Splice(oldIndex, 1, []);
      var _ := list.Splice(newIndex, 0, [removed[0]]);
  }
}
