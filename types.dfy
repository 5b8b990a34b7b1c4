/** The run-time helpers exported next to the type declarations: three type
    guards over arbitrary JavaScript values, the default props and the props
    validator. */
module Types {
  import opened Wrappers

  // ---------------------------------------------------------------------------
  // JavaScript values, as far as the guards look at them
  // ---------------------------------------------------------------------------

  /** `keys` is every property name the `in` operator finds (own or inherited).
      Arrays are objects; NaN is left out of the numbers. */
  datatype JsValue =
    | Undefined
    | Null
    | Bool(b: bool)
    | Number(n: int)
    | Str(s: string)
    | Object(keys: set<string>)
    | Function(fkeys: set<string>)

  predicate Truthy(v: JsValue) {
    match v
    case Undefined => false
    case Null => false
    case Bool(b) => b
    case Number(n) => n != 0
    case Str(s) => s != ""
    case Object(_) => true
    case Function(_) => true
  }

  /** The `typeof` operator; `typeof null` is "object". */
  function TypeOf(v: JsValue): string {
    match v
    case Undefined => "undefined"
    case Null => "object"
    case Bool(_) => "boolean"
    case Number(_) => "number"
    case Str(_) => "string"
    case Object(_) => "object"
    case Function(_) => "function"
  }

  /** `key in v`: throws a TypeError on anything but an object or a function,
      so it may only be evaluated on those. */
  predicate HasKey(v: JsValue, key: string)
    requires v.Object? || v.Function?
  {
    if v.Object? then key in v.keys else key in v.fkeys
  }

  /** `event && typeof event === 'object' && 'item' in event` */
  predicate IsDraggableEvent(event: JsValue)
    ensures IsDraggableEvent(event) <==> event.Object? && "item" in event.keys
  {
    Truthy(event) && TypeOf(event) == "object" && HasKey(event, "item")
  }

  /** `event && typeof event === 'object' && ('added' in event || 'removed' in event || 'moved' in event)` */
  predicate IsChangeEvent(event: JsValue)
    ensures IsChangeEvent(event) <==>
              event.Object? && ("added" in event.keys || "removed" in event.keys || "moved" in event.keys)
  {
    Truthy(event) && TypeOf(event) == "object"
    && (HasKey(event, "added") || HasKey(event, "removed") || HasKey(event, "moved"))
  }

  /** `event && typeof event === 'object' && 'draggedContext' in event && 'relatedContext' in event` */
  predicate IsMoveEvent(event: JsValue)
    ensures IsMoveEvent(event) <==>
              event.Object? && "draggedContext" in event.keys && "relatedContext" in event.keys
  {
    Truthy(event) && TypeOf(event) == "object"
    && HasKey(event, "draggedContext") && HasKey(event, "relatedContext")
  }

  /** `null` passes `typeof === 'object'` but is rejected by the truthiness
      test, and a function fails `typeof === 'object'` whatever keys it has. */
  lemma GuardsRejectNull(keys: set<string>)
    ensures !IsDraggableEvent(Null) && !IsChangeEvent(Null) && !IsMoveEvent(Null)
    ensures !IsDraggableEvent(Function(keys)) && !IsChangeEvent(Function(keys)) && !IsMoveEvent(Function(keys))
  {
  }

  // ---------------------------------------------------------------------------
  // Props and their validation
  // ---------------------------------------------------------------------------

  /** The props the validator and the defaults speak about; `None` is an
      absent (undefined) prop. Numeric props are integers here. */
  datatype Props<T> = Props(
    list: Option<seq<T>>,
    modelValue: Option<seq<T>>,
    tag: Option<string>,
    sort: Option<bool>,
    disabled: Option<bool>,
    animation: Option<int>,
    ghostClass: Option<string>,
    chosenClass: Option<string>,
    dragClass: Option<string>,
    delay: Option<int>,
    delayOnTouchStart: Option<bool>,
    touchStartThreshold: Option<int>,
    forceFallback: Option<bool>,
    fallbackTolerance: Option<int>,
    scroll: Option<bool>,
    scrollSensitivity: Option<int>,
    scrollSpeed: Option<int>,
    bubbleScroll: Option<bool>)

  function DefaultProps<T>(): (r: Props<T>)
    ensures r.list.None? && r.modelValue.None?
    ensures r.tag.Some? && r.sort.Some? && r.disabled.Some? && r.animation.Some?
            && r.ghostClass.Some? && r.chosenClass.Some? && r.dragClass.Some? && r.delay.Some?
            && r.delayOnTouchStart.Some? && r.touchStartThreshold.Some? && r.forceFallback.Some?
            && r.fallbackTolerance.Some? && r.scroll.Some? && r.scrollSensitivity.Some?
            && r.scrollSpeed.Some? && r.bubbleScroll.Some?
  {
    Props(
      list := None,
      modelValue := None,
      tag := Some("div"),
      sort := Some(true),
      disabled := Some(false),
      animation := Some(0),
      ghostClass := Some(""),
      chosenClass := Some(""),
      dragClass := Some(""),
      delay := Some(0),
      delayOnTouchStart := Some(false),
      touchStartThreshold := Some(5),
      forceFallback := Some(false),
      fallbackTolerance := Some(0),
      scroll := Some(true),
      scrollSensitivity := Some(30),
      scrollSpeed := Some(10),
      bubbleScroll := Some(true))
  }

  /** An array prop is truthy whenever it is present, even when empty. */
  predicate ArrayTruthy<T>(a: Option<seq<T>>) { a.Some? }

  predicate NumberTruthy(n: Option<int>) { n.Some? && n.value != 0 }

  /** The validator's three messages. */
  const BothListSourcesMessage: string := "Cannot use both \"list\" and \"modelValue\" props simultaneously"
  const AnimationMessage: string := "Animation duration should be between 0 and 3000ms"
  const DelayMessage: string := "Delay must be a positive number"

  /** The three problems the validator reports, in the order it checks them. */
  datatype Diagnostic = BothListSources | AnimationOutOfRange | NegativeDelay {
    function Message(): string {
      match this
      case BothListSources => BothListSourcesMessage
      case AnimationOutOfRange => AnimationMessage
      case NegativeDelay => DelayMessage
    }

    function Rank(): nat {
      match this
      case BothListSources => 0
      case AnimationOutOfRange => 1
      case NegativeDelay => 2
    }
  }

  /** What the validator finds wrong with `p`, each check independent of the others. */
  function Diagnostics<T>(p: Props<T>): (r: seq<Diagnostic>)
    ensures BothListSources in r <==> p.list.Some? && p.modelValue.Some?
    ensures AnimationOutOfRange in r <==> p.animation.Some? && !(0 <= p.animation.value <= 3000)
    ensures NegativeDelay in r <==> p.delay.Some? && p.delay.value < 0
    ensures |r| <= 3
    ensures forall i, j :: 0 <= i < j < |r| ==> r[i].Rank() < r[j].Rank()
  {
    (if ArrayTruthy(p.list) && ArrayTruthy(p.modelValue) then [BothListSources] else [])
    + (if NumberTruthy(p.animation) && (p.animation.value < 0 || p.animation.value > 3000)
       then [AnimationOutOfRange] else [])
    + (if NumberTruthy(p.delay) && p.delay.value < 0 then [NegativeDelay] else [])
  }

  function Messages(ds: seq<Diagnostic>): (r: seq<string>)
    ensures |r| == |ds| && forall i :: 0 <= i < |ds| ==> r[i] == ds[i].Message()
  {
    if ds == [] then [] else [ds[0].Message()] + Messages(ds[1..])
  }

  lemma MessagesAppend(ds: seq<Diagnostic>, d: Diagnostic)
    ensures Messages(ds + [d]) == Messages(ds) + [d.Message()]
  {
  }

  /** One `errors.push(message)` for the problem `d` just found. */
  method Push(errors: seq<string>, ghost found: seq<Diagnostic>, d: Diagnostic)
    returns (errors': seq<string>, ghost found': seq<Diagnostic>)
    requires errors == Messages(found)
    ensures found' == found + [d] && errors' == Messages(found')
  {
    MessagesAppend(found, d);
    errors', found' := errors + [d.Message()], found + [d];
  }

  /** `validateProps` builds its error list with one `push` per failed check. */
  method ValidateProps<T>(props: Props<T>) returns (errors: seq<string>)
    ensures errors == Messages(Diagnostics(props))
    ensures |errors| <= 3
  {
    errors := [];
    ghost var found: seq<Diagnostic> := [];
    if ArrayTruthy(props.list) && ArrayTruthy(props.modelValue) {
      errors, found := Push(errors, found, BothListSources);
    }
    if NumberTruthy(props.animation) && (props.animation.value < 0 || props.animation.value > 3000) {
      errors, found := Push(errors, found, AnimationOutOfRange);
    }
    if NumberTruthy(props.delay) && props.delay.value < 0 {
      errors, found := Push(errors, found, NegativeDelay);
    }
    assert found == Diagnostics(props);
  }

  /** The defaults pass validation. */
  lemma DefaultPropsAreValid<T>()
    ensures Diagnostics(DefaultProps<T>()) == []
  {
  }

  /** The animation bounds are inclusive; the delay check is on the sign only. */
  lemma ValidationBoundaries<T>(p: Props<T>)
    ensures AnimationOutOfRange !in Diagnostics(p.(animation := Some(0)))
    ensures AnimationOutOfRange !in Diagnostics(p.(animation := Some(3000)))
    ensures AnimationOutOfRange in Diagnostics(p.(animation := Some(3001)))
    ensures AnimationOutOfRange in Diagnostics(p.(animation := Some(-1)))
    ensures NegativeDelay !in Diagnostics(p.(delay := Some(0)))
    ensures NegativeDelay in Diagnostics(p.(delay := Some(-1)))
    ensures BothListSources in Diagnostics(p.(list := Some([]), modelValue := Some([])))
  {
  }
}
