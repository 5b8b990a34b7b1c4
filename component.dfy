/** The draggable list component: it keeps a list (the one-way `list` prop or
    the two-way `modelValue`) in step with what a Sortable instance does to the
    DOM children of its root element.

    Framework services become explicit state: `$emit` appends to `emitted`,
    `$nextTick(cb)` appends a task to `queue`, and `Flush` stands for the
    framework re-rendering the root's children and then running the queue. */
module VueDraggableNext {
  import opened Wrappers
  import opened Seqs
  import opened Helper
  import opened JsArrays
  import opened Indexes
  import Types

  // ---------------------------------------------------------------------------
  // Events and payloads
  // ---------------------------------------------------------------------------

  /** The Sortable events the component subscribes to. */
  datatype Hook = Start | Add | Remove | Update | End | Choose | Unchoose | Sort | Filter | Clone {
    function Name(): string {
      match this
      case Start => "Start"
      case Add => "Add"
      case Remove => "Remove"
      case Update => "Update"
      case End => "End"
      case Choose => "Choose"
      case Unchoose => "Unchoose"
      case Sort => "Sort"
      case Filter => "Filter"
      case Clone => "Clone"
    }

    /** The events with an `onDrag…` handler; the others are only re-emitted. */
    predicate Listened() {
      Start? || Add? || Remove? || Update? || End?
    }

    /** The name the event is re-emitted under: `evtName.toLowerCase()`. */
    function EventName(): string {
      Lowered(Name())
    }
  }

  function Lowered(s: string): string {
    seq(|s|, i requires 0 <= i < |s| => ToLower(s[i]))
  }

  /** `eventsListened` followed by `eventsToEmit`. */
  const Hooks: seq<Hook> := [Start, Add, Remove, Update, End, Choose, Unchoose, Sort, Filter, Clone]

  /** `readonlyProperties`, the option keys `updateOptions` never forwards:
      "on" before "Move" and before the name of every subscribed event. */
  function ReadonlyProperties(): seq<string> {
    var names := ["Move"] + seq(|Hooks|, i requires 0 <= i < |Hooks| => Hooks[i].Name());
    seq(|names|, i requires 0 <= i < |names| => "on" + names[i])
  }

  /** Every hook name prefixed with "on" is read-only, and so is "onMove". */
  lemma ReadonlyPropertiesAreHookNames(h: Hook)
    ensures "on" + h.Name() in ReadonlyProperties()
    ensures "on" + "Move" in ReadonlyProperties()
  {
    var ro := ReadonlyProperties();
    assert ro[0] == "on" + "Move";
    var k := match h
      case Start => 0 case Add => 1 case Remove => 2 case Update => 3 case End => 4
      case Choose => 5 case Unchoose => 6 case Sort => 7 case Filter => 8 case Clone => 9;
    assert Hooks[k] == h;
    assert ro[k + 1] == "on" + h.Name();
  }

  /** Conversely, nothing else is read-only: every entry is "on" followed by
      "Move" or by the name of a subscribed event. */
  lemma ReadonlyPropertiesOnlyHookNames(p: string)
    requires p in ReadonlyProperties()
    ensures p == "on" + "Move" || exists h: Hook :: p == "on" + h.Name()
  {
    var ro := ReadonlyProperties();
    var i :| 0 <= i < |ro| && ro[i] == p;
    if i > 0 {
      assert p == "on" + Hooks[i - 1].Name();
    }
  }

  /** `{ index, element }` as `getUnderlyingVm` builds it; `onDragMove` later
      adds `futureIndex` to the same object. `element` is `undefined` when the
      DOM position is past the end of the list. */
  datatype VmContext<T> = VmContext(index: nat, element: Option<T>, futureIndex: Option<JsNumber>)

  /** The payload of a `change` event. */
  datatype Change<T> =
    | Added(element: Option<T>, newIndex: int)
    | Removed(element: Option<T>, oldIndex: nat)
    | Moved(element: Option<T>, oldIndex: nat, newIndex: int)

  /** The fields of a Sortable event the handlers read; `pullClone` is
      `pullMode === 'clone'`. */
  datatype SortableEvent = SortableEvent(item: NodeId, clone: NodeId, oldIndex: int, newIndex: int,
                                         pullClone: bool)

  /** What the component has emitted, in order. */
  datatype Emission<T> =
    | UpdateModelValue(value: seq<T>)
    | ChangeEmitted(change: Change<T>)
    | Forwarded(name: string, evt: SortableEvent)

  /** A `$nextTick` callback: recompute the visible indexes, or emit. */
  datatype Task<T> = Recompute | Emit(emission: Emission<T>)

  /** The emissions a run of the queue delivers, in order. */
  function Emissions<T>(tasks: seq<Task<T>>): seq<Emission<T>> {
    if tasks == [] then []
    else Emissions(tasks[..|tasks| - 1])
         + (if tasks[|tasks| - 1].Emit? then [tasks[|tasks| - 1].emission] else [])
  }

  /** The fields of a Sortable move event the handler reads. */
  datatype MoveEvent = MoveEvent(to: Element, related: Target, willInsertAfter: bool)

  /** `getRelatedContextFromMoveEvent`: `{ component }` with no component on
      `to`; otherwise `{ list, component }`, merged into the related element's
      `{ index, element }` when that one is found. */
  datatype Related<T> =
    | NoComponent
    | InComponent(component: Draggable<T>, list: JsArray?<T>, destination: Option<VmContext<T>>)

  /** The event handed to the user's `move` callback. */
  datatype SendEvent<T> = SendEvent(evt: MoveEvent, relatedContext: Related<T>, draggedContext: VmContext<T>)

  /** `onDragMove` either answers `true` itself, throws, or returns what the
      user's `move` callback returns for `sendEvt`. */
  datatype MoveOutcome<T> = Accepted | MoveThrew | Consult(sendEvt: SendEvent<T>)

  /** `clone(undefined)` is taken to be `undefined`. */
  function CloneOf<T>(clone: T -> T, element: Option<T>): Option<T> {
    match element
    case None => None
    case Some(e) => Some(clone(e))
  }

  // ---------------------------------------------------------------------------
  // Shared state outside the component
  // ---------------------------------------------------------------------------

  /** The module variable `draggingElement` and the DOM facts the handlers
      consult: the `_underlying_vm_` stamp on nodes, the nodes hidden with
      `display: none`, and the `__draggable_component__` back-pointer of each
      mounted root element. */
  class Document<T> {
    var draggingElement: Option<NodeId>
    var stamps: map<NodeId, Option<T>>
    var hidden: set<NodeId>
    var registry: map<Element, Draggable<T>>

    constructor (hidden: set<NodeId>)
      ensures draggingElement == None && stamps == map[] && this.hidden == hidden && registry == map[]
    {
      draggingElement := None;
      stamps := map[];
      this.hidden := hidden;
      registry := map[];
    }

    /** `node._underlying_vm_`, `undefined` when never stamped. */
    function Stamp(node: NodeId): Option<T>
      reads this
    {
      if node in stamps then stamps[node] else None
    }
  }

  // ---------------------------------------------------------------------------
  // The component
  // ---------------------------------------------------------------------------

  class Draggable<T> {
    const el: Element
    const doc: Document<T>
    var list: JsArray?<T>
    var modelValue: JsArray?<T>
    const clone: T -> T
    const hasMove: bool
    var transitionMode: bool
    const footerOffset: int
    var visibleIndexes: seq<int>
    var context: Option<VmContext<T>>
    var queue: seq<Task<T>>
    var emitted: seq<Emission<T>>

    ghost predicate Valid()
      reads this, el
    {
      el.Valid()
    }

    /** `data()`: no transition, no footer, no indexes and no context yet. */
    constructor (el: Element, doc: Document<T>, list: JsArray?<T>, modelValue: JsArray?<T>,
                 clone: T -> T, hasMove: bool)
      requires el.Valid()
      ensures Valid()
      ensures this.el == el && this.doc == doc && this.list == list && this.modelValue == modelValue
      ensures this.clone == clone && this.hasMove == hasMove
      ensures transitionMode == false && footerOffset == 0 && visibleIndexes == []
      ensures context == None && queue == [] && emitted == []
    {
      this.el := el;
      this.doc := doc;
      this.list := list;
      this.modelValue := modelValue;
      this.clone := clone;
      this.hasMove := hasMove;
      transitionMode := false;
      footerOffset := 0;
      visibleIndexes := [];
      context := None;
      queue := [];
      emitted := [];
    }

    /** The computed `realList`: `list` when given (an array is truthy even
        when empty), else `modelValue`. */
    function RealList(): (r: JsArray?<T>)
      reads this`list, this`modelValue
      ensures r == list || r == modelValue
      ensures list != null ==> r == list
      ensures r == null <==> list == null && modelValue == null
    {
      if list != null then list else modelValue
    }

    function RealItems(): seq<T>
      reads this`list, this`modelValue, list, modelValue
      requires RealList() != null
    {
      RealList().items
    }

    /** The list and the emission log after `alterList(edit)`, starting from
        the list `before` and the log `log`: the `list` array is edited in
        place, or `modelValue` is left alone and the edited copy is emitted. */
    ghost predicate AlteredFrom(before: seq<T>, log: seq<Emission<T>>, edit: Edit<T>)
      reads this`list, this`modelValue, this`emitted, list, modelValue
      requires Applicable(before, edit)
    {
      if list != null then list.items == Applied(before, edit) && emitted == log
      else modelValue != null && modelValue.items == before
           && emitted == log + [UpdateModelValue(Applied(before, edit))]
    }

    /** Neither the list nor the emission log has changed from `before` and `log`. */
    ghost predicate UnalteredFrom(before: seq<T>, log: seq<Emission<T>>)
      reads this`list, this`modelValue, this`emitted, list, modelValue
    {
      RealList() != null && RealItems() == before && emitted == log
    }

    // -- index bookkeeping ----------------------------------------------------

    /** `computeIndexes()`: the table is rebuilt on the next tick. */
    method ComputeIndexes()
      modifies this`queue
      ensures queue == old(queue) + [Recompute]
    {
      queue := queue + [Recompute];
    }

    /** `getUnderlyingVm(htmlElt)`: the element's position among the root's
        children and the list entry there, or null when it is not a child. */
    function GetUnderlyingVm(htmlElt: NodeId): (r: Option<VmContext<T>>)
      reads this`list, this`modelValue, el, list, modelValue
      requires RealList() != null
      ensures r.None? <==> htmlElt !in el.children
      ensures r.Some? ==> (r.value.index < |el.children| && el.children[r.value.index] == htmlElt
                           && htmlElt !in el.children[..r.value.index])
      ensures r.Some? ==> (r.value.futureIndex.None?
                           && r.value.element == (if r.value.index < |RealItems()|
                                                  then Some(RealItems()[r.value.index]) else None))
    {
      var index := ComputeVmIndex(el.children, htmlElt);
      if index == -1 then None
      else
        var element := if index < |RealItems()| then Some(RealItems()[index]) else None;
        Some(VmContext(index, element, None))
    }

    /** `getVmIndex(domIndex)` on the current table. */
    function VmIndex(domIndex: int): (r: Option<int>)
      reads this`visibleIndexes
      ensures r.None? <==> domIndex < 0
      ensures domIndex >= |visibleIndexes| ==> r == Some(|visibleIndexes|)
      ensures 0 <= domIndex < |visibleIndexes| ==> r == Some(visibleIndexes[domIndex])
    {
      GetVmIndex(visibleIndexes, domIndex)
    }

    // -- list edits -----------------------------------------------------------

    /** `alterList(onList)` for the edit `onList` performs. Spreading a null
        `modelValue` throws, and the handlers only get here with a list. */
    method AlterList(edit: Edit<T>)
      requires RealList() != null
      requires Applicable(RealItems(), edit)
      modifies list, this`emitted
      ensures AlteredFrom(old(RealItems()), old(emitted), edit)
      ensures modelValue != null && modelValue != list ==> modelValue.items == old(modelValue.items)
    {
      if list != null {
        ApplyEdit(list, edit);
        return;
      }
      var newList := new JsArray(modelValue.items);
      ApplyEdit(newList, edit);
      emitted := emitted + [UpdateModelValue(newList.items)];
    }

    /** `spliceList(start, deleteCount, ...items)`. */
    method SpliceList(start: int, deleteCount: int, items: seq<T>)
      requires RealList() != null
      modifies list, this`emitted
      ensures AlteredFrom(old(RealItems()), old(emitted), SpliceEdit(start, deleteCount, items))
    {
      AlterList(SpliceEdit(start, deleteCount, items));
    }

    /** `updatePosition(oldIndex, newIndex)`. The inner splice has to remove an
        element: with `oldIndex` outside the list it would insert `undefined`. */
    method UpdatePosition(oldIndex: int, newIndex: int)
      requires RealList() != null
      requires -|RealItems()| <= oldIndex < |RealItems()|
      modifies list, this`emitted
      ensures AlteredFrom(old(RealItems()), old(emitted), MoveEdit(oldIndex, newIndex))
    {
      AlterList(MoveEdit(oldIndex, newIndex));
    }

    /** `emitChanges(evt)`: `change` is emitted on the next tick. */
    method EmitChanges(change: Change<T>)
      modifies this`queue
      ensures queue == old(queue) + [Emit(ChangeEmitted(change))]
    {
      queue := queue + [Emit(ChangeEmitted(change))];
    }

    // -- drag handlers --------------------------------------------------------

    /** `onDragStart`: remember which list entry is dragged, stamp the dragged
        node with a clone of it, and record the node as the one in flight. */
    method OnDragStart(evt: SortableEvent)
      requires RealList() != null
      modifies this`queue, this`context, doc`stamps, doc`draggingElement
      ensures queue == old(queue) + [Recompute]
      ensures context == old(GetUnderlyingVm(evt.item))
      ensures context.None? <==> evt.item !in el.children
      ensures context.None? ==> doc.stamps == old(doc.stamps) && doc.draggingElement == old(doc.draggingElement)
      ensures context.Some? ==>
                doc.stamps == old(doc.stamps)[evt.item := CloneOf(clone, context.value.element)]
                && doc.draggingElement == Some(evt.item)
    {
      ComputeIndexes();
      context := GetUnderlyingVm(evt.item);
      if context.None? {
        return;
      }
      doc.stamps := doc.stamps[evt.item := CloneOf(clone, context.value.element)];
      doc.draggingElement := Some(evt.item);
    }

    /** `onDragAdd`: an element stamped by the source component arrives. The
        node Sortable moved in is taken out again (the re-render puts it
        back), and the element is spliced in at the list position of
        `evt.newIndex`. Sortable's indexes are never negative. */
    method OnDragAdd(evt: SortableEvent)
      requires Valid() && RealList() != null && evt.newIndex >= 0
      modifies this`queue, this`emitted, el, list
      ensures Valid()
      ensures old(doc.Stamp(evt.item)).None? ==>
                el.children == old(el.children) && queue == old(queue)
                && UnalteredFrom(old(RealItems()), old(emitted))
      ensures old(doc.Stamp(evt.item)).Some? ==>
                var element := old(doc.Stamp(evt.item)).value;
                var newIndex := VmIndex(evt.newIndex).value;
                el.children == Without(old(el.children), evt.item)
                && AlteredFrom(old(RealItems()), old(emitted), SpliceEdit(newIndex, 0, [element]))
                && |Applied(old(RealItems()), SpliceEdit(newIndex, 0, [element]))| == |old(RealItems())| + 1
                && queue == old(queue) + [Recompute, Emit(ChangeEmitted(Added(Some(element), newIndex)))]
    {
      var element := doc.Stamp(evt.item);
      if element.None? {
        return;
      }
      el.RemoveNode(evt.item);
      var newIndex := VmIndex(evt.newIndex).value;
      SpliceList(newIndex, 0, [element.value]);
      SplicedInsertLength(old(RealItems()), newIndex, element.value);
      ComputeIndexes();
      EmitChanges(Added(element, newIndex));
    }

    /** `onDragRemove`: the dragged node is put back where it was (the
        re-render removes it). A clone drag removes Sortable's clone node and
        keeps the list; otherwise the dragged entry is spliced out. */
    method OnDragRemove(evt: SortableEvent)
      requires Valid() && RealList() != null
      requires evt.item !in el.children && 0 <= evt.oldIndex <= |el.children|
      modifies this`queue, this`emitted, el, list
      ensures Valid()
      ensures evt.pullClone ==>
                el.children == Without(InsertedAt(old(el.children), evt.item, evt.oldIndex), evt.clone)
                && queue == old(queue) && UnalteredFrom(old(RealItems()), old(emitted))
      ensures !evt.pullClone ==> el.children == InsertedAt(old(el.children), evt.item, evt.oldIndex)
      ensures !evt.pullClone && context.None? ==>
                queue == old(queue) && UnalteredFrom(old(RealItems()), old(emitted))
      ensures !evt.pullClone && context.Some? ==>
                AlteredFrom(old(RealItems()), old(emitted), SpliceEdit(context.value.index, 1, []))
                && queue == old(queue) + [Emit(ChangeEmitted(Removed(context.value.element, context.value.index)))]
    {
      el.InsertNodeAt(evt.item, evt.oldIndex);
      if evt.pullClone {
        el.RemoveNode(evt.clone);
        return;
      }
      if context.None? {
        return;
      }
      var oldIndex := context.value.index;
      SpliceList(oldIndex, 1, []);
      EmitChanges(Removed(context.value.element, oldIndex));
    }

    /** `onDragUpdate`: a move inside this list. Sortable's DOM move is undone
        and the list entry is moved instead. Reading `context.index` of a null
        context throws, after the DOM has been restored. */
    method OnDragUpdate(evt: SortableEvent) returns (threw: bool)
      requires Valid() && RealList() != null && evt.newIndex >= 0
      requires 0 <= evt.oldIndex <= |Without(el.children, evt.item)|
      requires context.Some? ==> context.value.index < |RealItems()|
      modifies this`queue, this`emitted, el, list
      ensures Valid()
      ensures el.children == InsertedAt(Without(old(el.children), evt.item), evt.item, evt.oldIndex)
      ensures 0 <= evt.oldIndex < |old(el.children)| && old(el.children)[evt.oldIndex] == evt.item ==>
                el.children == old(el.children)
      ensures threw <==> context.None?
      ensures threw ==> queue == old(queue) && UnalteredFrom(old(RealItems()), old(emitted))
      ensures !threw ==>
                var newIndex := VmIndex(evt.newIndex).value;
                AlteredFrom(old(RealItems()), old(emitted), MoveEdit(context.value.index, newIndex))
                && queue == old(queue)
                   + [Emit(ChangeEmitted(Moved(context.value.element, context.value.index, newIndex)))]
    {
      RestoreNode(evt.item, evt.oldIndex);
      if context.None? {
        return true;
      }
      MoveEntry(context.value, VmIndex(evt.newIndex).value);
      return false;
    }

    /** The first two lines of `onDragUpdate`: the node Sortable moved goes
        back to `position`. */
    method RestoreNode(node: NodeId, position: int)
      requires el.Valid() && 0 <= position <= |Without(el.children, node)|
      modifies el
      ensures el.Valid()
      ensures el.children == InsertedAt(Without(old(el.children), node), node, position)
      ensures 0 <= position < |old(el.children)| && old(el.children)[position] == node ==>
                el.children == old(el.children)
    {
      ghost var before := el.children;
      el.RemoveNode(node);
      el.InsertNodeAt(node, position);
      if 0 <= position < |before| && before[position] == node {
        InsertedAtWithout(before, position);
      }
    }

    /** The rest of `onDragUpdate` once the context is known. */
    method MoveEntry(ctx: VmContext<T>, newIndex: int)
      requires RealList() != null && ctx.index < |RealItems()|
      modifies this`queue, this`emitted, list
      ensures AlteredFrom(old(RealItems()), old(emitted), MoveEdit(ctx.index, newIndex))
      ensures queue == old(queue) + [Emit(ChangeEmitted(Moved(ctx.element, ctx.index, newIndex)))]
    {
      UpdatePosition(ctx.index, newIndex);
      EmitChanges(Moved(ctx.element, ctx.index, newIndex));
    }

    /** `onDragEnd`. */
    method OnDragEnd()
      modifies this`queue, doc`draggingElement
      ensures queue == old(queue) + [Recompute]
      ensures doc.draggingElement == None
    {
      ComputeIndexes();
      doc.draggingElement := None;
    }

    /** `getRelatedContextFromMoveEvent(evt)`: the component registered on the
        target element, its list, and the list entry of the node the pointer is
        over; nothing when no component is registered there. */
    function GetRelatedContext(evt: MoveEvent): (r: Related<T>)
      reads doc
      reads if evt.to in doc.registry then {doc.registry[evt.to]} else {}
      reads if evt.to in doc.registry then {doc.registry[evt.to].el} else {}
      reads if evt.to in doc.registry then {doc.registry[evt.to].list, doc.registry[evt.to].modelValue} else {}
      ensures r.NoComponent? <==> evt.to !in doc.registry
      ensures r.InComponent? ==>
                var component := doc.registry[evt.to];
                r.component == component && r.list == component.RealList()
                && (if evt.related.Node? && component.RealList() != null
                    then r.destination == component.GetUnderlyingVm(evt.related.id)
                    else r.destination == None)
    {
      if evt.to !in doc.registry then NoComponent
      else
        var component := doc.registry[evt.to];
        var list := component.RealList();
        if evt.related.Node? && list != null then InComponent(component, list, component.GetUnderlyingVm(evt.related.id))
        else InComponent(component, list, None)
    }

    /** `computeFutureIndex(relatedContext, evt)`. */
    function ComputeFutureIndex(relatedContext: Related<T>, evt: MoveEvent): (r: Outcome<JsNumber>)
      reads doc, evt.to, if relatedContext.InComponent? then {relatedContext.component} else {}
      ensures |Visible(evt.to.children, doc.hidden)| == 0 ==> r == Returned(Num(0))
      ensures r.Threw? <==> |Visible(evt.to.children, doc.hidden)| > 0 && relatedContext.NoComponent?
    {
      var table := if relatedContext.InComponent? then Some(relatedContext.component.visibleIndexes) else None;
      FutureIndex(evt.to.children, doc.hidden, evt.related, doc.draggingElement, evt.willInsertAfter, table)
    }

    /** `onDragMove(evt, originalEvent)`: without a `move` callback or a list
        the move is allowed; otherwise the dragged context gets its
        `futureIndex` and the callback is consulted. Both a missing component
        on the target and a null dragged context throw. */
    method OnDragMove(evt: MoveEvent) returns (outcome: MoveOutcome<T>)
      modifies this`context
      ensures !hasMove || RealList() == null ==> outcome == Accepted && context == old(context)
      ensures outcome.Consult? ==>
                hasMove && RealList() != null && old(context).Some?
                && context == Some(outcome.sendEvt.draggedContext)
                && outcome.sendEvt.draggedContext == old(context).value.(futureIndex := context.value.futureIndex)
                && outcome.sendEvt.evt == evt
                && context.value.futureIndex.Some?
                && Returned(context.value.futureIndex.value)
                   == ComputeFutureIndex(outcome.sendEvt.relatedContext, evt)
      ensures outcome.Consult? ==> outcome.sendEvt.relatedContext == old(GetRelatedContext(evt))
      ensures outcome.MoveThrew? ==> context == old(context)
      ensures hasMove && RealList() != null ==> !outcome.Accepted?
      ensures hasMove && RealList() != null ==>
                (outcome.MoveThrew? <==>
                   old(context).None? || old(ComputeFutureIndex(GetRelatedContext(evt), evt)).Threw?)
      ensures hasMove && RealList() != null && old(context).Some?
              && |Visible(evt.to.children, doc.hidden)| == 0 ==>
                outcome.Consult? && context.value.futureIndex == Some(Num(0))
    {
      if !hasMove || RealList() == null {
        return Accepted;
      }
      var relatedContext := GetRelatedContext(evt);
      var draggedContext := context;
      var futureIndex := ComputeFutureIndex(relatedContext, evt);
      if futureIndex.Threw? || draggedContext.None? {
        return MoveThrew;
      }
      context := Some(draggedContext.value.(futureIndex := Some(futureIndex.value)));
      return Consult(SendEvent(evt, relatedContext, context.value));
    }

    // -- event wiring ---------------------------------------------------------

    /** What each handler needs of its event when it runs. */
    ghost predicate HandlerReady(hook: Hook, evt: SortableEvent)
      reads this, el, list, modelValue
      requires RealList() != null
    {
      match hook
      case Add => evt.newIndex >= 0
      case Remove => evt.item !in el.children && 0 <= evt.oldIndex <= |el.children|
      case Update =>
        evt.newIndex >= 0 && 0 <= evt.oldIndex <= |Without(el.children, evt.item)|
        && (context.Some? ==> context.value.index < |RealItems()|)
      case _ => true
    }

    /** `delegateAndEmit(evtName)(evtData)`: the handler runs only when there is
        a list, and the event is re-emitted on the next tick after whatever the
        handler queued, unless the handler threw. */
    method Dispatch(hook: Hook, evt: SortableEvent) returns (threw: bool)
      requires hook.Listened() && Valid()
      requires RealList() != null ==> HandlerReady(hook, evt)
      modifies this`queue, this`emitted, this`context, el, list, doc`stamps, doc`draggingElement
      ensures Valid()
      ensures threw <==> old(RealList()) != null && hook == Update && old(context).None?
      ensures old(RealList()) == null ==>
                queue == old(queue) + [Emit(Forwarded(hook.EventName(), evt))]
                && emitted == old(emitted) && el.children == old(el.children) && context == old(context)
      ensures !threw ==> |queue| > |old(queue)| && queue[..|old(queue)|] == old(queue)
                         && queue[|queue| - 1] == Emit(Forwarded(hook.EventName(), evt))
    {
      threw := false;
      if RealList() != null {
        match hook
        case Start => OnDragStart(evt);
        case Add => OnDragAdd(evt);
        case Remove => OnDragRemove(evt);
        case Update => threw := OnDragUpdate(evt);
        case End => OnDragEnd();
      }
      if !threw {
        ghost var mid := queue;
        queue := queue + [Emit(Forwarded(hook.EventName(), evt))];
        assert queue[..|old(queue)|] == mid[..|old(queue)|];
      }
    }

    /** `emit.bind(this, evtName)` for the events that are only re-emitted. */
    method EmitEvent(hook: Hook, evt: SortableEvent)
      requires !hook.Listened()
      modifies this`queue
      ensures queue == old(queue) + [Emit(Forwarded(hook.EventName(), evt))]
    {
      queue := queue + [Emit(Forwarded(hook.EventName(), evt))];
    }

    /** The two lines of `mounted` that matter here: the back-pointer from the
        root element and the first index computation. */
    method Mount()
      modifies doc`registry, this`queue
      ensures doc.registry == old(doc.registry)[el := this]
      ensures queue == old(queue) + [Recompute]
    {
      doc.registry := doc.registry[el := this];
      ComputeIndexes();
    }

    /** New props from the parent; the `realList` watcher recomputes the
        indexes when the computed list changes identity. */
    method ReceiveProps(newList: JsArray?<T>, newModelValue: JsArray?<T>)
      modifies this`list, this`modelValue, this`queue
      ensures list == newList && modelValue == newModelValue
      ensures queue == old(queue) + (if RealList() != old(RealList()) then [Recompute] else [])
    {
      var was := RealList();
      list, modelValue := newList, newModelValue;
      if RealList() != was {
        ComputeIndexes();
      }
    }

    /** The framework re-renders the root's children as `rendered` and then
        runs the pending `$nextTick` callbacks in order. */
    method Flush(rendered: seq<NodeId>)
      requires Valid() && NoDuplicates(rendered)
      modifies el, this`queue, this`emitted, this`visibleIndexes
      ensures Valid() && el.children == rendered && queue == []
      ensures emitted == old(emitted) + Emissions(old(queue))
      ensures Recompute in old(queue) ==>
                visibleIndexes == Indexes.ComputeIndexes(Some(rendered), rendered, transitionMode, footerOffset)
                && (footerOffset == 0 ==> visibleIndexes == Identity(|rendered|))
      ensures Recompute !in old(queue) ==> visibleIndexes == old(visibleIndexes)
    {
      el.children := rendered;
      var tasks := queue;
      queue := [];
      var i := 0;
      while i < |tasks|
        invariant 0 <= i <= |tasks|
        invariant el.children == rendered && queue == []
        invariant emitted == old(emitted) + Emissions(tasks[..i])
        invariant Recompute in tasks[..i] ==>
                    visibleIndexes == Indexes.ComputeIndexes(Some(rendered), rendered, transitionMode, footerOffset)
        invariant Recompute !in tasks[..i] ==> visibleIndexes == old(visibleIndexes)
      {
        assert tasks[..i + 1][..i] == tasks[..i];
        assert tasks[..i + 1] == tasks[..i] + [tasks[i]];
        match tasks[i] {
          case Recompute =>
            assert Recompute in tasks[..i + 1];
            visibleIndexes := Indexes.ComputeIndexes(Some(el.children), el.children, transitionMode, footerOffset);
          case Emit(e) =>
            assert Emissions(tasks[..i + 1]) == Emissions(tasks[..i]) + [e];
            emitted := emitted + [e];
        }
        i := i + 1;
      }
      assert tasks[..i] == tasks;
      if footerOffset == 0 {
        CallSiteWithoutFooter(rendered, transitionMode);
      }
    }

    /** `updateOptions(newOptionValue)`: the `option(key, value)` calls made on
        the Sortable instance, in the order of the attribute keys. */
    method UpdateOptions(newOptionValue: seq<(string, Types.JsValue)>, camelize: Cached)
      returns (sent: seq<(string, Types.JsValue)>)
      requires camelize.Valid() && forall s :: camelize.fn(s) == Camelize(s)
      modifies camelize
      ensures camelize.Valid()
      ensures sent == ForwardedOptions(newOptionValue)
    {
      sent := [];
      var i := 0;
      while i < |newOptionValue|
        invariant 0 <= i <= |newOptionValue|
        invariant camelize.Valid()
        invariant sent == ForwardedOptions(newOptionValue[..i])
      {
        var (property, v) := newOptionValue[i];
        var value := camelize.Call(property);
        assert newOptionValue[..i + 1][..i] == newOptionValue[..i];
        if IndexOf(ReadonlyProperties(), value) == -1 {
          sent := sent + [(value, v)];
        }
        i := i + 1;
      }
      assert newOptionValue[..i] == newOptionValue;
    }
  }

  // ---------------------------------------------------------------------------
  // Options forwarding
  // ---------------------------------------------------------------------------

  /** The camelized attributes that are not read-only, with their values, in order. */
  function ForwardedOptions(attrs: seq<(string, Types.JsValue)>): seq<(string, Types.JsValue)> {
    if attrs == [] then []
    else
      var last := attrs[|attrs| - 1];
      ForwardedOptions(attrs[..|attrs| - 1])
      + (if Camelize(last.0) !in ReadonlyProperties() then [(Camelize(last.0), last.1)] else [])
  }

  /** Exactly the attributes whose camelized name is not read-only are forwarded. */
  lemma {:induction false} ForwardedOptionsExact(attrs: seq<(string, Types.JsValue)>)
    ensures forall p :: p in ForwardedOptions(attrs) ==> p.0 !in ReadonlyProperties()
    ensures forall p :: p in ForwardedOptions(attrs) ==> exists a :: a in attrs && p == (Camelize(a.0), a.1)
    ensures forall a :: a in attrs && Camelize(a.0) !in ReadonlyProperties() ==>
              (Camelize(a.0), a.1) in ForwardedOptions(attrs)
  {
    if attrs != [] {
      var init := attrs[..|attrs| - 1];
      ForwardedOptionsExact(init);
      assert attrs == init + [attrs[|attrs| - 1]];
    }
  }

  /** At most one option is sent per attribute. */
  lemma {:induction false} ForwardedOptionsLength(attrs: seq<(string, Types.JsValue)>)
    ensures |ForwardedOptions(attrs)| <= |attrs|
  {
    if attrs != [] {
      ForwardedOptionsLength(attrs[..|attrs| - 1]);
    }
  }

  lemma ForwardedOptionsSnoc(attrs: seq<(string, Types.JsValue)>, a: (string, Types.JsValue))
    ensures ForwardedOptions(attrs + [a])
            == ForwardedOptions(attrs) + (if Camelize(a.0) !in ReadonlyProperties() then [(Camelize(a.0), a.1)] else [])
  {
    assert (attrs + [a])[..|attrs|] == attrs;
  }

  /** "on-move" camelizes to the read-only "onMove" and is not forwarded. */
  lemma ForwardedOptionsDropOnMove(v: Types.JsValue)
    ensures ForwardedOptions([("on-move", v)]) == []
  {
    CamelizeOnMove();
    assert "onMove" in ReadonlyProperties() by { assert ReadonlyProperties()[0] == "onMove"; }
    ForwardedOptionsSnoc([], ("on-move", v));
    assert [] + [("on-move", v)] == [("on-move", v)];
  }

  /** "ghost-class" is forwarded as "ghostClass". */
  lemma ForwardedOptionsKeepGhostClass(attrs: seq<(string, Types.JsValue)>, w: Types.JsValue)
    ensures ForwardedOptions(attrs + [("ghost-class", w)]) == ForwardedOptions(attrs) + [("ghostClass", w)]
  {
    CamelizeGhostClass();
    assert "ghostClass" !in ReadonlyProperties() by {
      var ro := ReadonlyProperties();
      forall i | 0 <= i < |ro| ensures ro[i][0] == 'o' {
      }
    }
    ForwardedOptionsSnoc(attrs, ("ghost-class", w));
  }

  lemma ForwardedOptionsExample(v: Types.JsValue, w: Types.JsValue)
    ensures ForwardedOptions([("on-move", v), ("ghost-class", w)]) == [("ghostClass", w)]
  {
    ForwardedOptionsDropOnMove(v);
    ForwardedOptionsKeepGhostClass([("on-move", v)], w);
    assert [("on-move", v)] + [("ghost-class", w)] == [("on-move", v), ("ghost-class", w)];
  }
}
