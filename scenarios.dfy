/** Whole drag gestures composed from the component model's methods and
    verified, with Sortable's own DOM moves written out as the steps between
    the handlers. */
module Scenarios {
  import opened Wrappers
  import opened Seqs
  import opened Helper
  import opened JsArrays
  import opened Indexes
  import opened VueDraggableNext

  /** A component over the `list` [10, 20, 30] rendered as nodes 1, 2, 3 is
      mounted, the first tick builds its table, and a drag starts on node 1. */
  method StartDragOnFirst(doc: Document<int>, el: Element, list: JsArray<int>) returns (c: Draggable<int>)
    requires el.Valid() && el.children == [1, 2, 3] && list.items == [10, 20, 30]
    requires doc.stamps == map[] && doc.draggingElement == None
    modifies doc, el
    ensures fresh(c) && c.el == el && c.doc == doc && c.list == list && c.modelValue == null
    ensures c.Valid() && el.children == [1, 2, 3] && list.items == [10, 20, 30]
    ensures c.visibleIndexes == Identity(3) && c.context == Some(VmContext(0, Some(10), None))
    ensures c.queue == [Recompute] && c.emitted == [] && c.footerOffset == 0
    ensures doc.draggingElement == Some(1) && doc.Stamp(1) == Some(10)
  {
    c := new Draggable(el, doc, list, null, x => x, false);
    c.Mount();
    c.Flush([1, 2, 3]);
    c.OnDragStart(SortableEvent(1, 1, 0, 0, false));
  }

  /** The list and DOM edits of `DropAtEnd`. */
  lemma DropAtEndEdit()
    ensures Applied([10, 20, 30], MoveEdit(0, 2)) == [20, 30, 10]
    ensures InsertedAt(Without([2, 3, 1], 1), 1, 0) == [1, 2, 3]
  {
    UpdatedPositionShape([10, 20, 30], 0, 2);
    assert [10, 20, 30][..0] + [10, 20, 30][1..] == [20, 30];
    assert [20, 30][..2] + [10] + [20, 30][2..] == [20, 30, 10];
    WithoutInsertedAt([2, 3], 1, 2);
    assert InsertedAt([2, 3], 1, 2) == [2, 3, 1];
  }

  /** Sortable moves node 1 behind node 3 and reports an update from index 0
      to 2: the handler puts the node back and moves the list entry. */
  method DropAtEnd(c: Draggable<int>)
    requires c.Valid() && c.list != null && c.modelValue == null
    requires c.el.children == [1, 2, 3] && c.list.items == [10, 20, 30]
    requires c.visibleIndexes == Identity(3) && c.context == Some(VmContext(0, Some(10), None))
    requires c.queue == [Recompute] && c.emitted == []
    modifies c.el, c.list, c
    ensures c.Valid() && c.list == old(c.list) && c.el.children == [1, 2, 3]
    ensures c.list.items == [20, 30, 10]
    ensures c.queue == [Recompute, Emit(ChangeEmitted(Moved(Some(10), 0, 2)))] && c.emitted == []
  {
    c.el.children := [2, 3, 1];
    DropAtEndEdit();
    var threw := c.OnDragUpdate(SortableEvent(1, 1, 0, 2, false));
  }

  /** Dragging the first of three entries of a `list` prop to the end: the
      array is edited in place, nothing is emitted synchronously, and the
      next tick delivers one `moved` change. */
  method MoveWithinList() returns (items: seq<int>, emitted: seq<Emission<int>>, children: seq<NodeId>,
                                   table: seq<int>)
    ensures items == [20, 30, 10]
    ensures emitted == [ChangeEmitted(Moved(Some(10), 0, 2))]
    ensures children == [2, 3, 1]
    ensures table == Identity(3)
  {
    var doc := new Document<int>({});
    var el := new Element([1, 2, 3]);
    var list := new JsArray([10, 20, 30]);
    var c := StartDragOnFirst(doc, el, list);
    DropAtEnd(c);
    // The re-render follows the list.
    assert Recompute in c.queue;
    c.Flush([2, 3, 1]);
    assert [Recompute, Emit(ChangeEmitted(Moved(Some(10), 0, 2)))][..1] == [Recompute];
    items, emitted, children, table := list.items, c.emitted, el.children, c.visibleIndexes;
  }

  /** A `modelValue` component over `items`, rendered as `el`'s children and
      mounted, after the first tick. */
  method MountOver(doc: Document<int>, el: Element, items: seq<int>) returns (c: Draggable<int>)
    requires el.Valid()
    modifies doc`registry, el
    ensures fresh(c) && fresh(c.modelValue) && c.el == el && c.doc == doc && c.list == null
    ensures c.Valid() && el.children == old(el.children) && c.modelValue.items == items
    ensures c.visibleIndexes == Identity(|el.children|) && c.context == None
    ensures c.queue == [] && c.emitted == [] && forall x :: c.clone(x) == x
  {
    var model := new JsArray(items);
    c := new Draggable(el, doc, null, model, x => x, false);
    c.Mount();
    c.Flush(el.children);
  }

  /** The list and DOM edits of the destination in `MoveAcrossLists`. */
  lemma AddBehindEdit()
    ensures Applied([30], SpliceEdit(1, 0, [10])) == [30, 10]
    ensures Without([3, 1], 1) == [3]
  {
    InsertShape([30], 1, 10);
    assert [30][..1] + [10] + [30][1..] == [30, 10];
    assert IndexOf([3, 1], 1) == 1;
  }

  /** The list and DOM edits of the source in `MoveAcrossLists`. */
  lemma RemoveFirstEdit()
    ensures Applied([10, 20], SpliceEdit(0, 1, [])) == [20]
    ensures InsertedAt([2], 1, 0) == [1, 2]
  {
    DeleteShape([10, 20], 0);
    assert [10, 20][..0] + [10, 20][1..] == [20];
  }

  /** The destination [30] receives the element stamped on node 1, which
      Sortable has put behind node 3. */
  method AddBehindOnly(b: Draggable<int>)
    requires b.Valid() && b.list == null && b.modelValue != null && b.modelValue.items == [30]
    requires b.el.children == [3, 1] && b.visibleIndexes == Identity(1) && b.emitted == []
    requires b.doc.Stamp(1) == Some(10)
    modifies b.el, b`queue, b`emitted
    ensures b.el.children == [3] && b.modelValue.items == [30]
    ensures b.emitted == [UpdateModelValue([30, 10])]
  {
    AddBehindEdit();
    b.OnDragAdd(SortableEvent(1, 1, 0, 1, false));
  }

  /** The source [10, 20] loses the entry it started the drag on; node 1,
      detached by the destination, is put back first. */
  method RemoveFirst(a: Draggable<int>)
    requires a.Valid() && a.list == null && a.modelValue != null && a.modelValue.items == [10, 20]
    requires a.el.children == [2] && a.context == Some(VmContext(0, Some(10), None)) && a.emitted == []
    modifies a.el, a`queue, a`emitted
    ensures a.el.children == [1, 2] && a.modelValue.items == [10, 20]
    ensures a.emitted == [UpdateModelValue([20])]
  {
    RemoveFirstEdit();
    a.OnDragRemove(SortableEvent(1, 1, 0, 1, false));
  }

  /** Two mounted `v-model` components over [10, 20] and [30]; a drag has
      started on the first entry of the first one, and Sortable has moved its
      node 1 behind node 3 in the second root. */
  method StartAcross(doc: Document<int>) returns (a: Draggable<int>, b: Draggable<int>)
    requires doc.stamps == map[] && doc.draggingElement == None
    modifies doc
    ensures fresh(a) && fresh(b) && fresh(a.el) && fresh(b.el) && a != b && a.el != b.el
    ensures a.doc == doc && b.doc == doc
    ensures a.Valid() && a.list == null && a.modelValue != null && a.modelValue.items == [10, 20]
    ensures a.el.children == [2] && a.context == Some(VmContext(0, Some(10), None)) && a.emitted == []
    ensures b.Valid() && b.list == null && b.modelValue != null && b.modelValue.items == [30]
    ensures b.el.children == [3, 1] && b.visibleIndexes == Identity(1) && b.emitted == []
    ensures doc.Stamp(1) == Some(10)
  {
    a, b := MountBoth(doc);
    a.OnDragStart(SortableEvent(1, 1, 0, 1, false));
    a.el.children := [2];
    b.el.children := [3, 1];
  }

  /** The two components of `MoveAcrossLists`, over nodes 1, 2 and node 3. */
  method MountBoth(doc: Document<int>) returns (a: Draggable<int>, b: Draggable<int>)
    modifies doc`registry
    ensures fresh(a) && fresh(b) && fresh(a.el) && fresh(b.el) && a != b && a.el != b.el
    ensures a.doc == doc && b.doc == doc && fresh(a.modelValue) && fresh(b.modelValue)
    ensures a.Valid() && a.list == null && a.modelValue.items == [10, 20] && a.el.children == [1, 2]
    ensures a.visibleIndexes == Identity(2) && a.context == None && a.queue == [] && a.emitted == []
    ensures forall x :: a.clone(x) == x
    ensures b.Valid() && b.list == null && b.modelValue.items == [30]
    ensures b.visibleIndexes == Identity(1) && b.emitted == []
  {
    var elA := new Element([1, 2]);
    var elB := new Element([3]);
    a := MountOver(doc, elA, [10, 20]);
    b := MountOver(doc, elB, [30]);
  }

  /** Dragging the first entry of [10, 20] behind the only entry of [30] in a
      second component bound with `v-model`: each side emits one
      `update:modelValue` with its edited copy, and the source's own
      `modelValue` array is left as it was. */
  method MoveAcrossLists() returns (source: seq<Emission<int>>, dest: seq<Emission<int>>, sourceModel: seq<int>)
    ensures source == [UpdateModelValue([20])]
    ensures dest == [UpdateModelValue([30, 10])]
    ensures sourceModel == [10, 20]
  {
    var doc := new Document<int>({});
    var a, b := StartAcross(doc);
    AddBehindOnly(b);
    RemoveFirst(a);
    source, dest, sourceModel := a.emitted, b.emitted, a.modelValue.items;
  }
}
