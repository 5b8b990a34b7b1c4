# vue-draggable-next, list synchronisation core, in Dafny

vue-draggable-next is a Vue 3 component that wraps a SortableJS instance. It
keeps a list in step with what Sortable does to the DOM children of the
component's root element. The list is either the one-way `list` prop, which is
edited in place, or the two-way `modelValue` prop, for which an edited copy is
emitted as `update:modelValue`. This project models that component and proves
properties of the model:

- the table from DOM child positions to list positions (`visibleIndexes`) and
  its lookup;
- the drag handlers (`onDragStart`, `onDragAdd`, `onDragRemove`,
  `onDragUpdate`, `onDragEnd`, `onDragMove`);
- the list edits built on `Array.prototype.splice` (`alterList`,
  `spliceList`, `updatePosition`);
- the event wiring (`delegateAndEmit`, `emit`);
- the option forwarding (`updateOptions`);
- the helpers `camelize`, `cached`, `insertNodeAt` and `removeNode`;
- the type guards, default props and props validator exported next to the
  types.

Files:

- `seqs.dfy`: the `Option` type, and `indexOf` with the two child-list edits.
- `helper.dfy`: `camelize`, the memo cache, and DOM elements with their
  child-list edits.
- `types.dfy`: JavaScript values, the three type guards, the default props
  and `validateProps`.
- `jsarrays.dfy`: `splice` with its argument clamping, the array object, and
  the two list edits.
- `indexes.dfy`: the pure functions of the component module —
  `computeVmIndex`, `computeIndexes`, `getVmIndex`, `computeFutureIndex`,
  `isTransition` and `getComponentAttributes`.
- `component.dfy`: the component as a class (`Draggable`) and the shared
  document state (`Document`).
- `scenarios.dfy`: whole drag gestures composed from the model's methods and
  verified.

Framework and DOM services are explicit state:

- `$emit` appends to the component's `emitted` log.
- `$nextTick(cb)` appends a task to its `queue`.
- `Flush(rendered)` stands for Vue re-rendering the root's children and then
  running the queued callbacks in order.
- The module variable `draggingElement`, the `_underlying_vm_` stamps on DOM
  nodes, the nodes hidden with `display: none`, and the
  `__draggable_component__` back-pointers live in one `Document` object.
- A JavaScript `TypeError` becomes an explicit outcome (`threw`, `Threw`,
  `MoveThrew`).

One might expect every notification to be deferred to the next tick and every
failed lookup to be harmless. The code does otherwise, and the model follows
the code:

- `update:modelValue` is emitted synchronously inside `alterList`. Only
  `change` and the re-emitted Sortable events wait for the next tick.
- A lookup miss is not always harmless. `computeFutureIndex` throws when the
  target has visible children and no component, and `onDragUpdate` throws when the drag
  context is null.

## Model

| member | source | states |
|---|---|---|
| Seqs.IndexOf | src/VueDraggableNext.ts:10 | `indexOf` returns -1 exactly when the element is absent. Otherwise it returns the element's first position. |
| Seqs.IndexOfDistinct | src/VueDraggableNext.ts:9-11 | Over a child list without duplicates, `indexOf` finds each child at its own position. |
| Seqs.InsertedAtShape | src/util/helper.ts:28-34 | Inserting a node at `p` adds one element, at `p`, and shifts the later ones. The multiset gains exactly that node. |
| Seqs.InsertedAtNoDuplicates | src/util/helper.ts:28-34 | Inserting an absent node keeps the child list free of duplicates. |
| Seqs.WithoutNoDuplicates | src/util/helper.ts:22-26 | Removing a node keeps the list duplicate-free. The removed node is gone and every other node stays. |
| Seqs.WithoutInsertedAt | src/VueDraggableNext.ts:312-339 | Removing a node that was just inserted gives back the original child list, for every list and position. It is the step by which a handler's own `removeNode` undoes an insertion. |
| Seqs.InsertedAtWithout | src/VueDraggableNext.ts:342-343 | Removing the child at `i` and inserting it again at `i` gives back the original child list. |
| Helper.Camelize | src/util/helper.ts:17-20 | The camelized string is never longer than its input. |
| Helper.CamelizeLength | src/util/helper.ts:17-20 | The result is shorter than the input by exactly the number of "-" + word-character pairs the global regex replaces. |
| Helper.CamelizeWithoutDash | src/util/helper.ts:17-20 | A string without "-" is returned unchanged. |
| Helper.CamelizeKeepsTrailingDash | src/util/helper.ts:17-20 | A trailing "-" has no word character after it, so it is kept. |
| Helper.CamelizeKeepsDashBeforeNonWord | src/util/helper.ts:17-20 | A "-" followed by a non-word character is kept, and the scan resumes at that character. |
| Helper.CamelizeFolded | src/util/helper.ts:17-20 | Camelize only deletes dashes and upper-cases the following character. Ignoring dashes and case, input and output agree. |
| Helper.CamelizeKebab | src/util/helper.ts:17-20 | Round trip: camelize undoes kebab-casing of any camel-case name in which no "-" is followed by a lower-case letter, digit or `_`. |
| Helper.CamelizeDashFreePrefix | src/util/helper.ts:17-20 | A prefix without "-" is copied unchanged in front of the camelized rest. |
| Helper.CamelizeDashClass | src/util/helper.ts:17-20 | `camelize("-class")` is "Class". |
| Helper.CamelizeGhostClass | src/util/helper.ts:17-20 | `camelize("ghost-class")` is "ghostClass". |
| Helper.CamelizeDashMove | src/util/helper.ts:17-20 | `camelize("-move")` is "Move". |
| Helper.CamelizeOnMove | src/util/helper.ts:17-20 | `camelize("on-move")` is the read-only key "onMove". |
| Helper.CamelizeNotIdempotent | src/util/helper.ts:17-20 | One pass turns "a--b" into "a-B". A second pass turns that into "aB". |
| Helper.Cached.constructor | src/util/helper.ts:9-10 | A fresh memo starts with an empty cache, which is consistent with `fn`. |
| Helper.Cached.Call | src/util/helper.ts:11-14 | The result is always `fn(str)`. A non-empty hit leaves the cache alone. A miss or a falsy "" hit stores `fn(str)`. The cache only ever holds `fn(k)` under `k`. |
| Helper.Element.InsertNodeAt | src/util/helper.ts:28-34 | The node lands at `position`, including at the end when there is no reference sibling. The child list stays duplicate-free. |
| Helper.Element.RemoveNode | src/util/helper.ts:22-26 | The node's first occurrence is removed from its parent. A node that is not a child leaves the list unchanged. |
| Types.IsDraggableEvent | src/types.ts:320-322 | Truthy exactly for an object (not null, not a function) that has an `item` key. |
| Types.IsChangeEvent | src/types.ts:324-330 | Truthy exactly for an object that has an `added`, `removed` or `moved` key. |
| Types.IsMoveEvent | src/types.ts:332-339 | Truthy exactly for an object that has both `draggedContext` and `relatedContext`. |
| Types.GuardsRejectNull | src/types.ts:320-339 | `null` (whose `typeof` is "object") fails all three guards, and so does a function, whatever keys it carries. |
| Types.Diagnostics | src/types.ts:362-378 | The three iffs: both list sources present; a non-zero animation outside [0, 3000]; a non-zero negative delay. At most three problems, in check order. |
| Types.ValidateProps | src/types.ts:362-378 | The pushed error strings are exactly the messages of the problems found, in order, and there are at most three. |
| Types.DefaultProps | src/types.ts:342-359 | Neither list source has a default. Every other prop has one. |
| Types.DefaultPropsAreValid | src/types.ts:342-359 | `DEFAULT_PROPS` passes validation. |
| Types.ValidationBoundaries | src/types.ts:365-375 | Animations of 0 and 3000 pass, while 3001 and -1 fail. A delay of 0 passes and -1 fails. Two empty arrays still trigger the both-sources error, because arrays are truthy. |
| JsArrays.Spliced | src/VueDraggableNext.ts:270 | The spliced array loses as many elements as `splice` returns and gains `items`. |
| JsArrays.SpliceRemoved | src/VueDraggableNext.ts:270 | `splice` returns as many elements as the clamped delete count. With an in-range start and count they are the elements from `start` on. |
| JsArrays.SpliceRestores | src/VueDraggableNext.ts:270 | `items` sit at the clamped start, and putting the returned elements back between the kept prefix and suffix gives the original array. |
| JsArrays.UpdatedPosition | src/VueDraggableNext.ts:274-278 | A move keeps the length, for every old index that addresses an element, negative ones included. |
| JsArrays.SpliceStart | src/VueDraggableNext.ts:270 | `splice`'s start counts a negative value from the end and clamps both ends into [0, length]. |
| JsArrays.SpliceDeleteCount | src/VueDraggableNext.ts:270 | The delete count is clamped to what lies after the start. An in-range count is kept. |
| JsArrays.InsertShape | src/VueDraggableNext.ts:320 | `splice(i, 0, x)` in range puts `x` at `i`. The length grows by one and the multiset gains `x`. |
| JsArrays.DeleteShape | src/VueDraggableNext.ts:335 | `splice(i, 1)` in range removes exactly `a[i]` and returns `[a[i]]`. |
| JsArrays.DeleteAfterInsert | src/VueDraggableNext.ts:269-272 | Deleting at `i` what was inserted at `i` restores the array. |
| JsArrays.SplicedInsertLength | src/VueDraggableNext.ts:320 | Inserting one element with any start lengthens the array by one. |
| JsArrays.SpliceClamps | src/VueDraggableNext.ts:270 | A start past the end appends. A start before the beginning prepends. |
| JsArrays.UpdatedPositionShape | src/VueDraggableNext.ts:274-278 | An in-range move is the deletion at `i` followed by the insertion at `j` of the same element. |
| JsArrays.UpdatedPositionPermutes | src/VueDraggableNext.ts:274-278 | `updatePosition` permutes the list: same length, same multiset, and the moved element sits at the clamped new index. |
| JsArrays.UpdatedPositionInverse | src/VueDraggableNext.ts:274-278 | Moving from `j` back to `i` undoes the move from `i` to `j`. |
| JsArrays.UpdatedPositionExample | src/VueDraggableNext.ts:274-278 | [A,B,C] moved 0→2 gives [B,C,A]. Moved 2→0 it gives [C,A,B]. |
| JsArrays.JsArray.constructor | src/VueDraggableNext.ts:264 | A spread copy holds the same elements. |
| JsArrays.JsArray.Splice | src/VueDraggableNext.ts:270 | The array becomes the spliced array. The return value is the deleted elements. Length arithmetic is stated. |
| JsArrays.ApplyEdit | src/VueDraggableNext.ts:269-278 | Running the closure of `spliceList` or `updatePosition` leaves the array equal to the edit's specification. |
| Indexes.ComputeVmIndex | src/VueDraggableNext.ts:9-11 | -1 exactly when the element is not among the nodes. Otherwise it is the element's first position. |
| Indexes.ComputeIndexes | src/VueDraggableNext.ts:13-29 | No slots gives []. Otherwise there is one entry per child. Footer children map to the slot count. Every other child maps to its first position among the slots, or to -1 exactly when it is not one of them. |
| Indexes.CallSiteIndexes | src/VueDraggableNext.ts:230-239 | With the root's children as both arguments, the table is the identity below the footer and the child count inside it. |
| Indexes.Identity | src/VueDraggableNext.ts:230-239 | The identity table has one entry `i` at each position `i`. |
| Indexes.CallSiteWithoutFooter | src/VueDraggableNext.ts:230-239 | With `footerOffset` 0, as `data()` sets it, the table is exactly the identity. |
| Indexes.GetVmIndex | src/VueDraggableNext.ts:280-284 | Past the end it gives the table length. In range it gives the entry. A negative index reads `undefined`. |
| Indexes.VmIndexAtCallSite | src/VueDraggableNext.ts:280-284 | On the component's own table, a DOM position is its list position clamped to the length, which is always a valid insertion index. |
| Indexes.Visible | src/VueDraggableNext.ts:398-400 | The filter keeps exactly the children that are not hidden, and so never lengthens the list. |
| Indexes.VisibleAll | src/VueDraggableNext.ts:398-400 | With nothing hidden the filter keeps every child. |
| Indexes.PlusOne | src/VueDraggableNext.ts:407-409 | `+ 1` adds one to a number. `undefined + 1` is NaN. |
| Indexes.DomIndex | src/VueDraggableNext.ts:404 | A found position is the first one holding the related node. A visible related node is always found. The container itself is never found. |
| Indexes.FutureIndex | src/VueDraggableNext.ts:397-410 | No visible children gives 0. It throws exactly when there are visible children and no component on the target. |
| Indexes.FutureIndexIgnoresHidden | src/VueDraggableNext.ts:398-402 | The answer depends on the visible children only. |
| Indexes.FutureIndexAfter | src/VueDraggableNext.ts:406-409 | `willInsertAfter` adds one exactly when the dragged node is not among the visible children. Otherwise it changes nothing. |
| Indexes.FutureIndexAtCallSite | src/VueDraggableNext.ts:397-410 | On the destination's own table, a foreign element over visible child `d` gets `d`, or `d + 1` when inserted after it. |
| Indexes.IsTransitionName | src/VueDraggableNext.ts:49-51 | True exactly for the names "transition-group" and "TransitionGroup". |
| Indexes.IsTransition | src/VueDraggableNext.ts:49-64 | True exactly for a single slot vnode whose component type is named "transition-group" or "TransitionGroup". |
| Indexes.GetComponentAttributes | src/VueDraggableNext.ts:66-71 | Without `componentData` it returns `$attrs`. With it, the keys are the union of props and attrs, an attr overriding a prop of the same name. |
| VueDraggableNext.ReadonlyPropertiesAreHookNames | src/VueDraggableNext.ts:73-77 | "on" plus every subscribed event name, and "onMove", are read-only. |
| VueDraggableNext.ReadonlyPropertiesOnlyHookNames | src/VueDraggableNext.ts:73-77 | Nothing else is read-only: every key is "onMove" or "on" plus a subscribed event name. |
| VueDraggableNext.Document.constructor | src/VueDraggableNext.ts:79 | Nothing is being dragged, nothing is stamped and no component is registered. |
| VueDraggableNext.Draggable.constructor | src/VueDraggableNext.ts:133-143 | `data()`: no transition mode, no footer, an empty table, no context. Nothing is queued or emitted. |
| VueDraggableNext.Draggable.RealList | src/VueDraggableNext.ts:195-197 | `list` when it is given, even empty, else `modelValue`. Null exactly when neither is given. |
| VueDraggableNext.Draggable.ComputeIndexes | src/VueDraggableNext.ts:230-239 | Queues exactly one table recomputation for the next tick. |
| VueDraggableNext.Draggable.GetUnderlyingVm | src/VueDraggableNext.ts:241-251 | Null exactly when the node is not a child. Otherwise it gives the child's first position and the list entry there (`undefined` past the list's end). |
| VueDraggableNext.Draggable.VmIndex | src/VueDraggableNext.ts:280-284 | `getVmIndex` on the current table: clamped past the end, the entry in range, `undefined` below 0. |
| VueDraggableNext.Draggable.AlterList | src/VueDraggableNext.ts:259-267 | With `list`, that array is edited in place and nothing is emitted. Otherwise `modelValue` is left as it was and one `update:modelValue` carries the edited copy. |
| VueDraggableNext.Draggable.SpliceList | src/VueDraggableNext.ts:269-272 | `alterList` with the splice edit. |
| VueDraggableNext.Draggable.UpdatePosition | src/VueDraggableNext.ts:274-278 | `alterList` with the move edit. |
| VueDraggableNext.Draggable.EmitChanges | src/VueDraggableNext.ts:253-257 | Queues exactly one `change` emission. |
| VueDraggableNext.Draggable.OnDragStart | src/VueDraggableNext.ts:304-310 | Queues a recomputation and sets the context to `getUnderlyingVm(evt.item)`. With a context, it stamps the node with the clone of the element and records it as the dragged node. Without one, nothing else changes. |
| VueDraggableNext.Draggable.OnDragAdd | src/VueDraggableNext.ts:312-324 | An unstamped node changes nothing. Otherwise the node is detached and the element is spliced in at the list position of `evt.newIndex`, lengthening the list by one. A recomputation and one `added` change are queued. |
| VueDraggableNext.Draggable.OnDragRemove | src/VueDraggableNext.ts:326-339 | The node is put back at `evt.oldIndex`. A clone pull then drops the clone node and leaves the list alone, as does a null context. Otherwise the context's entry is spliced out and one `removed` change is queued. |
| VueDraggableNext.Draggable.OnDragUpdate | src/VueDraggableNext.ts:341-351 | Sortable's DOM move is undone. It throws exactly when the context is null, leaving the list untouched. Otherwise the entry is moved from the context index to the list position of `evt.newIndex`, and one `moved` change is queued. |
| VueDraggableNext.Draggable.RestoreNode | src/VueDraggableNext.ts:342-343 | The node is taken out and put back at the given position. When it already sat there, the child list is unchanged. |
| VueDraggableNext.Draggable.MoveEntry | src/VueDraggableNext.ts:345-350 | The list entry at the context index is moved to the new index, and one `moved` change carrying both indexes is queued. |
| VueDraggableNext.Draggable.OnDragEnd | src/VueDraggableNext.ts:374-377 | Queues a recomputation and clears the dragged node. |
| VueDraggableNext.Draggable.GetRelatedContext | src/VueDraggableNext.ts:381-395 | `{ component }` with an undefined component exactly when none is registered on the target. Otherwise `{list, component}`, merged with the related node's context when the related node is a child and there is a list. |
| VueDraggableNext.Draggable.ComputeFutureIndex | src/VueDraggableNext.ts:397-410 | No visible children gives 0. It throws exactly when there are visible children and no component on the target. |
| VueDraggableNext.Draggable.OnDragMove | src/VueDraggableNext.ts:358-372 | Without a `move` callback or a list, the move is allowed untouched. Otherwise the move is never accepted without the callback: it throws exactly when the dragged context is null or `computeFutureIndex` of `getRelatedContextFromMoveEvent(evt)` throws, and a throw leaves the context alone. In every other case the callback is consulted with the event, that related context, and the dragged context carrying its computed `futureIndex` (0 over an empty target). |
| VueDraggableNext.Draggable.Dispatch | src/VueDraggableNext.ts:36-47 | The handler runs only when there is a list. It throws exactly for an update with a null context. Otherwise the lower-cased event is queued last, after what the handler queued. |
| VueDraggableNext.Draggable.EmitEvent | src/VueDraggableNext.ts:31-34 | Queues the event under its lower-cased name. |
| VueDraggableNext.Draggable.Mount | src/VueDraggableNext.ts:184-185 | Registers the component on its root element and queues a recomputation. |
| VueDraggableNext.Draggable.ReceiveProps | src/VueDraggableNext.ts:207-209 | New props are taken. A recomputation is queued exactly when the computed `realList` changes identity. |
| VueDraggableNext.Draggable.Flush | src/VueDraggableNext.ts:230-239 | After the re-render the queue is empty. The emissions are delivered in queue order. When a recomputation was queued, the table is `computeIndexes` of the rendered children, which is the identity without a footer. Otherwise the table is unchanged. |
| VueDraggableNext.Draggable.UpdateOptions | src/VueDraggableNext.ts:217-224 | The `option()` calls are exactly the camelized attributes that are not read-only, in order, through the memo cache. |
| VueDraggableNext.ForwardedOptionsExact | src/VueDraggableNext.ts:217-224 | A read-only key is never forwarded. Every forwarded pair comes from an attribute. Every attribute with a non-read-only camelized name is forwarded. |
| VueDraggableNext.ForwardedOptionsLength | src/VueDraggableNext.ts:217-224 | At most one `option()` call per attribute. |
| VueDraggableNext.ForwardedOptionsSnoc | src/VueDraggableNext.ts:218-222 | One more attribute adds at most its own forwarded pair at the end. |
| VueDraggableNext.ForwardedOptionsDropOnMove | src/VueDraggableNext.ts:219-220 | An `on-move` attribute is not forwarded. |
| VueDraggableNext.ForwardedOptionsKeepGhostClass | src/VueDraggableNext.ts:219-221 | A `ghost-class` attribute is forwarded as `ghostClass`. |
| VueDraggableNext.ForwardedOptionsExample | src/VueDraggableNext.ts:217-224 | `on-move` and `ghost-class` forward only `ghostClass`. |
| Scenarios.StartDragOnFirst | src/VueDraggableNext.ts:304-310 | After mount and the first tick, the table is the identity. Dragging the first node records entry 0 and stamps the node with 10. |
| Scenarios.DropAtEnd | src/VueDraggableNext.ts:341-351 | An update from 0 to 2 restores the DOM, turns [10,20,30] into [20,30,10] and queues one `moved` change. |
| Scenarios.MoveWithinList | src/VueDraggableNext.ts:341-351 | The whole gesture on a `list` prop: the array is [20,30,10], exactly one `moved` change is emitted on the next tick, and after the re-render, given as [2,3,1], the recomputed table is the identity. |
| Scenarios.MountOver | src/VueDraggableNext.ts:184-185 | A mounted `modelValue` component after its first tick has the identity table and an empty queue. |
| Scenarios.AddBehindOnly | src/VueDraggableNext.ts:312-324 | The destination [30] detaches the arriving node and emits [30,10]. |
| Scenarios.RemoveFirst | src/VueDraggableNext.ts:326-339 | The source [10,20] puts the node back and emits [20]. |
| Scenarios.MoveAcrossLists | src/VueDraggableNext.ts:312-339 | Across two `v-model` lists, the source emits [20] and the destination emits [30,10]. The source's own array is unchanged. |

## Left out

- `render`, `getTag`, `created`, `beforeUnmount` and the
  option-building part of `mounted` (src/VueDraggableNext.ts:144-183): these
  build vnodes, log to the console or construct and destroy the Sortable
  instance. They are framework and library calls, not list logic.
  `getComponentAttributes` and `isTransition`, which `render` uses, are
  modelled.
- `getComponent` (src/VueDraggableNext.ts:286-291): it is called only from
  `resetTransitionData`, in transition mode, and transition mode is not
  modelled.
- `resetTransitionData`, called by `onDragRemove`: it returns at once unless
  both `noTransitionOnDrag` and transition mode are on. The model never
  enters transition mode, so OnDragRemove omits the call. When both are on
  it is not harmless: reading the code, `getComponent` takes
  `componentInstance` of the slot vnode, which Vue 3 vnodes do not have, so
  `transitionContainer.children = []` would throw after the splice and
  before `emitChanges`. That path is not modelled.
- `updateProperty` and `getTrargetedComponent`: the first is never called.
  The second is the registry lookup inside GetRelatedContext.
- `getChildrenNodes` is `$el.children`, an `HTMLCollection`, which is
  always truthy, so the `|| []` of `getUnderlyingVm` never applies.
- `transitionMode` is set only by `render`, which the model does not run, so
  it stays false. The `isTransition` argument of `computeIndexes` is unused in
  the source anyway.
- `footerOffset` is never changed from 0. `headerOffset` is unused.
- The order in which Vue runs the render and the `$nextTick` callbacks is
  abstracted as `Flush`: the render first, then the callbacks in order.
- The `$attrs` watcher itself is left out. UpdateOptions models the handler
  it calls, and returns the `option()` calls instead of performing them.
- The user's `move` and `clone` functions are parameters. OnDragMove returns
  the event it would pass to `move` instead of calling it. `originalEvent` is
  not modelled.
- `clone(undefined)` is taken to be `undefined`.
- VueDraggableNext.Draggable.constructor: the initial `{}` context of
  `data()` is modelled as no context, like the `null` of a failed lookup.
  They differ only for a component whose `onDragStart` never ran. There,
  `onDragRemove` finds `{}` truthy: `splice(undefined, 1)` deletes entry 0
  and a `removed` change with undefined `element` and `oldIndex` is queued,
  where the model changes nothing. `onDragUpdate` reads an undefined
  `index`, so `updatePosition(undefined, n)` moves entry 0 instead of
  throwing. `onDragMove` consults the callback, since `Object.assign({}, …)`
  succeeds, instead of throwing.
- VueDraggableNext.Draggable.OnDragUpdate: the DOM edits are applied to the
  component's own root, taken to be `evt.from`. It requires
  `evt.newIndex >= 0` and an old index within the restored child list, as
  Sortable provides them. It requires a context index inside the list,
  because `updatePosition` with an index past the end would insert
  `undefined`.
- VueDraggableNext.Draggable.OnDragAdd: requires `evt.newIndex >= 0`, as
  Sortable reports it. `removeNode` is applied to the component's own root,
  where Sortable has just put the node.
- VueDraggableNext.Draggable.OnDragRemove: requires the dragged node to be
  detached from the source root, with `evt.oldIndex` within its children. The
  clone node is removed from the source root.
- VueDraggableNext.Draggable.UpdatePosition and JsArrays.UpdatedPosition:
  require the old index to address an element. For any other index the source inserts `undefined`.
- VueDraggableNext.Draggable.GetUnderlyingVm: requires a non-null
  `realList`. Every caller in the source has one.
- VueDraggableNext.Draggable.Dispatch: states the guard, the throw and the
  forwarding order only. Each handler's own contract states its effect.
- Helper.Element.InsertNodeAt: requires the node not to be a child already,
  because `insertBefore` would move it. It requires the position to be at
  most the child count, because a larger one throws in the source.
- Types.IsDraggableEvent, Types.IsChangeEvent and Types.IsMoveEvent: a
  falsy argument (`0`, `""`, `null`, `undefined`, `false`) is returned
  unchanged by the source's `event && …`, where the model gives false. The
  two agree under every truthiness test, which is how callers use them.
- JavaScript numbers are integers: no NaN, no fractions, no infinities in the
  props or values. Symbols and BigInts are not among the modelled values.
- The `console` export of the helper file is not modelled.
