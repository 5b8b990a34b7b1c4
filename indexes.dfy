/** The pure helpers of the component: the table from DOM child positions to
    list positions, its lookup, the future index reported to a `move`
    callback, and the small render-time predicates. */
module Indexes {
  import opened Wrappers
  import opened Seqs
  import opened Helper

  // ---------------------------------------------------------------------------
  // computeVmIndex / computeIndexes
  // ---------------------------------------------------------------------------

  /** `Object.values(vnodes).indexOf(element)`. */
  function ComputeVmIndex(vnodes: seq<NodeId>, element: NodeId): (r: int)
    ensures -1 <= r < |vnodes|
    ensures r == -1 <==> element !in vnodes
    ensures r >= 0 ==> vnodes[r] == element && element !in vnodes[..r]
  {
    IndexOf(vnodes, element)
  }

  /** The visible-indexes table: one entry per child, "one past the end" of
      `slots` for the footer children, and otherwise the child's position among
      `slots` (-1 when it is not one of them). A missing `slots` gives `[]`.
      `isTransition` is accepted and not used. */
  function ComputeIndexes(slots: Option<seq<NodeId>>, children: seq<NodeId>, isTransition: bool,
                          footerOffset: int): (r: seq<int>)
    ensures slots.None? ==> r == []
    ensures slots.Some? ==> |r| == |children|
    ensures slots.Some? ==> forall i :: 0 <= i < |children| && i >= |children| - footerOffset ==> r[i] == |slots.value|
    ensures slots.Some? ==> forall i :: 0 <= i < |children| && i < |children| - footerOffset ==>
                              -1 <= r[i] < |slots.value|
                              && (r[i] == -1 <==> children[i] !in slots.value)
                              && (r[i] >= 0 ==>
                                    slots.value[r[i]] == children[i] && children[i] !in slots.value[..r[i]])
  {
    match slots
    case None => []
    case Some(elmFromNodes) =>
      var footerIndex := |children| - footerOffset;
      seq(|children|, idx requires 0 <= idx < |children| =>
        if idx >= footerIndex then |elmFromNodes| else IndexOf(elmFromNodes, children[idx]))
  }

  /** The table the component actually builds passes the element's children as
      both arguments: it is the identity below the footer. */
  lemma CallSiteIndexes(children: seq<NodeId>, isTransition: bool, footerOffset: int)
    requires NoDuplicates(children)
    ensures |ComputeIndexes(Some(children), children, isTransition, footerOffset)| == |children|
    ensures forall i :: 0 <= i < |children| ==>
              ComputeIndexes(Some(children), children, isTransition, footerOffset)[i]
              == if i >= |children| - footerOffset then |children| else i
  {
    var r := ComputeIndexes(Some(children), children, isTransition, footerOffset);
    forall i | 0 <= i < |children| && i < |children| - footerOffset ensures r[i] == i {
      IndexOfDistinct(children, i);
    }
  }

  /** The call-site table without a footer. */
  function Identity(n: nat): (r: seq<int>)
    ensures |r| == n && forall i :: 0 <= i < n ==> r[i] == i
  {
    seq(n, i => i)
  }

  lemma CallSiteWithoutFooter(children: seq<NodeId>, isTransition: bool)
    requires NoDuplicates(children)
    ensures ComputeIndexes(Some(children), children, isTransition, 0) == Identity(|children|)
  {
    CallSiteIndexes(children, isTransition, 0);
  }

  // ---------------------------------------------------------------------------
  // getVmIndex
  // ---------------------------------------------------------------------------

  /** `indexes[domIndex]`, clamped to `indexes.length` past the end; a negative
      index reads `undefined` (`None`). */
  function GetVmIndex(indexes: seq<int>, domIndex: int): (r: Option<int>)
    ensures r.None? <==> domIndex < 0
    ensures domIndex >= |indexes| ==> r == Some(|indexes|)
    ensures 0 <= domIndex < |indexes| ==> r == Some(indexes[domIndex])
  {
    if domIndex > |indexes| - 1 then Some(|indexes|)
    else if domIndex >= 0 then Some(indexes[domIndex])
    else None
  }

  /** With the call-site table, a DOM position resolves to the same list
      position, clamped to the list length: always a valid insertion index. */
  lemma VmIndexAtCallSite(children: seq<NodeId>, isTransition: bool, domIndex: int)
    requires NoDuplicates(children) && domIndex >= 0
    ensures GetVmIndex(ComputeIndexes(Some(children), children, isTransition, 0), domIndex)
            == Some(Min(domIndex, |children|))
  {
    CallSiteWithoutFooter(children, isTransition);
  }

  // ---------------------------------------------------------------------------
  // computeFutureIndex
  // ---------------------------------------------------------------------------

  /** The children whose `style.display` is not "none", in order. */
  function Visible(children: seq<NodeId>, hidden: set<NodeId>): (r: seq<NodeId>)
    ensures |r| <= |children|
    ensures forall x :: x in r <==> x in children && x !in hidden
  {
    if |children| == 0 then []
    else if children[0] in hidden then Visible(children[1..], hidden)
    else [children[0]] + Visible(children[1..], hidden)
  }

  lemma {:induction false} VisibleAll(children: seq<NodeId>)
    ensures Visible(children, {}) == children
  {
    if |children| > 0 {
      VisibleAll(children[1..]);
    }
  }

  /** A JavaScript number as far as the future index goes: `undefined` is what
      `getVmIndex(-1)` returns and `undefined + 1` is NaN. */
  datatype JsNumber = Num(n: int) | Undefined | NaN

  function PlusOne(x: JsNumber): (r: JsNumber)
    ensures x.Num? <==> r.Num?
    ensures x.Num? ==> r.n == x.n + 1
  {
    match x
    case Num(n) => Num(n + 1)
    case _ => NaN
  }

  function AsNumber(x: Option<int>): JsNumber {
    match x
    case Some(n) => Num(n)
    case None => Undefined
  }

  /** A thrown TypeError, or a value. */
  datatype Outcome<R> = Returned(value: R) | Threw

  /** What `evt.related` is: the destination container itself, or one of its children. */
  datatype Target = Container | Node(id: NodeId)

  /** `domChildren.indexOf(evt.related)`: the container is never its own child. */
  function DomIndex(dom: seq<NodeId>, related: Target): (r: int)
    ensures -1 <= r < |dom|
    ensures r >= 0 ==> related.Node? && dom[r] == related.id && related.id !in dom[..r]
    ensures related.Node? && related.id in dom ==> r >= 0
  {
    match related
    case Container => -1
    case Node(id) => IndexOf(dom, id)
  }

  /** `computeFutureIndex`: `component` is the visible-indexes table of the
      component registered on `evt.to`, if any; reading `getVmIndex` of a
      missing component throws. */
  function FutureIndex(toChildren: seq<NodeId>, hidden: set<NodeId>, related: Target,
                       dragging: Option<NodeId>, willInsertAfter: bool,
                       component: Option<seq<int>>): (r: Outcome<JsNumber>)
    ensures |Visible(toChildren, hidden)| == 0 ==> r == Returned(Num(0))
    ensures r.Threw? <==> |Visible(toChildren, hidden)| > 0 && component.None?
  {
    var domChildren := Visible(toChildren, hidden);
    if |domChildren| == 0 then Returned(Num(0))
    else if component.None? then Threw
    else
      var currentIndex := AsNumber(GetVmIndex(component.value, DomIndex(domChildren, related)));
      var draggedInList := dragging.Some? && IndexOf(domChildren, dragging.value) != -1;
      if draggedInList || !willInsertAfter then Returned(currentIndex) else Returned(PlusOne(currentIndex))
  }

  /** Hidden children play no part: the same answer comes from the visible ones alone. */
  lemma FutureIndexIgnoresHidden(toChildren: seq<NodeId>, hidden: set<NodeId>, related: Target,
                                 dragging: Option<NodeId>, willInsertAfter: bool,
                                 component: Option<seq<int>>)
    ensures FutureIndex(toChildren, hidden, related, dragging, willInsertAfter, component)
            == FutureIndex(Visible(toChildren, hidden), {}, related, dragging, willInsertAfter, component)
  {
    VisibleAll(Visible(toChildren, hidden));
  }

  /** `willInsertAfter` adds one exactly when the dragged element is not among
      the visible children; otherwise it changes nothing. */
  lemma FutureIndexAfter(toChildren: seq<NodeId>, hidden: set<NodeId>, related: Target,
                         dragging: Option<NodeId>, table: seq<int>)
    requires |Visible(toChildren, hidden)| > 0
    ensures var before := FutureIndex(toChildren, hidden, related, dragging, false, Some(table));
            var after := FutureIndex(toChildren, hidden, related, dragging, true, Some(table));
            before.Returned? && after.Returned?
            && (if dragging.Some? && dragging.value in toChildren && dragging.value !in hidden
                then after == before
                else after.value == PlusOne(before.value))
  {
  }

  /** Against the call-site table of the destination, a visible related child
      at visible position `d` gives `d` (clamped), or `d + 1` when inserting
      after it an element that comes from elsewhere. */
  lemma FutureIndexAtCallSite(dom: seq<NodeId>, d: nat, dragging: Option<NodeId>,
                              willInsertAfter: bool, isTransition: bool)
    requires NoDuplicates(dom) && d < |dom|
    requires dragging.None? || dragging.value !in dom
    ensures FutureIndex(dom, {}, Node(dom[d]), dragging, willInsertAfter,
                        Some(ComputeIndexes(Some(dom), dom, isTransition, 0)))
            == Returned(Num(if willInsertAfter then d + 1 else d))
  {
    VisibleAll(dom);
    IndexOfDistinct(dom, d);
    VmIndexAtCallSite(dom, isTransition, d);
  }

  // ---------------------------------------------------------------------------
  // isTransition / getComponentAttributes
  // ---------------------------------------------------------------------------

  /** The `type` of a slot vnode: falsy, a component object with an optional
      `name`, or anything else (a tag string, a symbol) which has no `name`. */
  datatype VNodeType = NoType | ComponentType(name: Option<string>) | OtherType
  datatype VNode = VNode(nodeType: VNodeType)

  /** `['transition-group', 'TransitionGroup'].includes(name)`. */
  predicate IsTransitionName(name: Option<string>)
    ensures IsTransitionName(name) <==> name.Some? && name.value in ["transition-group", "TransitionGroup"]
  {
    name == Some("transition-group") || name == Some("TransitionGroup")
  }

  /** The default slot is a single transition group. */
  function IsTransition(slots: Option<seq<VNode>>): (r: bool)
    ensures r ==> slots.Some? && |slots.value| == 1
    ensures r <==> slots.Some? && |slots.value| == 1 && slots.value[0].nodeType.ComponentType?
                   && slots.value[0].nodeType.name.Some?
                   && slots.value[0].nodeType.name.value in ["transition-group", "TransitionGroup"]
  {
    if slots.None? || |slots.value| != 1 then false
    else
      match slots.value[0].nodeType
      case NoType => false
      case ComponentType(name) => IsTransitionName(name)
      case OtherType => false
  }

  /** `componentData` as the attribute source of the root element: its
      missing `props` or `attrs` are empty maps. */
  datatype ComponentData<V> = ComponentData(props: map<string, V>, attrs: map<string, V>)

  /** Without `componentData` the fall-through attributes are used; with it,
      `{...props, ...attrs}`, where an attribute overrides a prop of the same name. */
  function GetComponentAttributes<V>(attrs: map<string, V>, componentData: Option<ComponentData<V>>)
    : (r: map<string, V>)
    ensures componentData.None? ==> r == attrs
    ensures componentData.Some? ==>
              r.Keys == componentData.value.props.Keys + componentData.value.attrs.Keys
    ensures componentData.Some? ==>
              forall k :: k in componentData.value.attrs ==> r[k] == componentData.value.attrs[k]
    ensures componentData.Some? ==>
              forall k :: k in componentData.value.props && k !in componentData.value.attrs
                ==> r[k] == componentData.value.props[k]
  {
    match componentData
    case None => attrs
    case Some(data) => data.props + data.attrs
  }
}
