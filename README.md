# react-page-maker core, modelled in Dafny

react-page-maker lets a user build a page by dragging elements from a palette
into nested drop zones. This project models the library's non-visual core:

- **The application state** (src/core/state.js). It is a tree of elements
  under a single `root` node. `updateState` finds the node a drop zone
  belongs to and rewrites that node's `fields` in one of three ways:
  - bootstrap, when the canvas id equals the parent id;
  - filter or replace, when the node has no `fields` or the submitted list
    is empty;
  - merge: submitted ids already present replace their slot in place, and
    unknown ids are appended.

  It then calls the caller's callback and every `change` listener.
  `clearState` calls each top-level element's flush hook.
- **The event bus** (src/core/event.js). It has four named channels
  (`change`, `flush`, `removeElement`, `updateElement`), each an ordered
  list of listeners, and notify functions that call every listener of a
  channel in order.
- **One drop zone's list logic** (src/components/Dropzone/Dropzone.js):
  - dropping an element at a position, with duplicate handling and a
    capacity limit;
  - removing the first element with an id;
  - editing the allowed keys of an element;
  - setting the initial elements once;
  - replacing the list wholesale;
  - flushing the list;
  - the `findFields` search.

  Every change is committed to the application state through `updateState`.
- **The palette validator** (src/components/Palette/Palette.js). Every
  palette item needs an id, and no id may repeat. When several items fail,
  the message comes from the last failing item.

Modules, one per file:

| module | file | contents |
|---|---|---|
| `Elements` | Elements.dfy | the element record, with optional keys as `Option`; id search and counting |
| `StateTree` | StateTree.dfy | specification functions of the tree rewrite, and their lemmas |
| `Listeners` | Listeners.dfy | listener handles, the call log, the `filter` used for removal |
| `StateStore` | StateStore.dfy | the `State` class and the loops that compute the `StateTree` functions |
| `EventBus` | EventBus.dfy | the `RpmEvent` class |
| `Dropzone` | Dropzone.dfy | list functions, their lemmas, and the `DropzoneComponent` class |
| `Palette` | Palette.dfy | the validator, its specification, and its lemmas |

Modelling conventions:

- **Listeners and hooks.** A JavaScript function object is an opaque
  `Handle`. Each call a registry makes is appended to a `calls` log, so
  "called once each, in order, with this argument" becomes an equation on
  that log.
- **Missing keys and truthiness.** A missing key is `None`, and
  `findIndex` returning -1 is `None`. JavaScript truthiness of an optional
  string is `Truthy`: present and not `""`.
- **Component state.** React's `setState` is an immediate assignment.
  Each drop-zone method then calls the `State` object's `UpdateState`,
  which is what its `setState` callback does.

Notes on the code as written:

- `traverseAndUpdateTree` has exactly the three branches above. No branch
  compares the sizes of the old and the submitted lists.
- `!matchedParentCanvas.fields` is true only when the key is missing. An
  empty but present list is truthy, so it takes the merge branch.
- The filter branch drops entries whose `canvasID` equals the submitting
  canvas. An element built from a drag carries `dropzoneID` and no
  `canvasID` (src/components/Dropzone/Dropzone.js:358-363). The `...e`
  spreads at src/components/Dropzone/Dropzone.js:79-80 and 119-120 copy
  whatever keys the caller's elements already have, so they keep a `canvasID`
  if they had one. Consider a zone whose id differs from its parentID, sending
  an empty submission to a node that already has `fields`. That submission
  removes only entries tagged with that zone's id. Entries without a
  `canvasID` survive (`StateTree.WithoutCanvasKeepsUntagged`). The root
  Canvas is the exception. It mounts a drop zone with id and parentID both
  `root` (src/components/Canvas/Canvas.js:9), so its submissions always take
  the bootstrap branch. Root's `fields` become exactly the submitted list, and
  an empty submission empties the page (`StateStore.RootCanvasReplaces`).
- `traverseAndUpdateTree` returns `true` only for a match in the list it is
  given. The recursive branch never sets `returnStatus`, so a match two or
  more levels down does not stop the sibling loop, and the caller sees
  `false`. As a result, a later sibling that holds another node with the
  parent id at depth two or more is rewritten too. This departs from "the
  first match wins". `StateTree.DeepMatchesBothRewritten` shows two such
  nodes, under two siblings, both rewritten.
- `updateState` accepts a fifth argument from `_removeElement` and ignores
  it.
- `findFields` discards the result of its recursive call. A nested match is
  therefore never returned. The call still runs, and it throws when an
  element with initial elements has no `fields` key.
- The drop zone's `change` listener calls `state.getStorableState()`.
  state.js defines no such function.

## Model

| member | source | states |
|---|---|---|
| Elements.IndexOfId | src/core/state.js:46 | `findIndex` by id: the result is the first index holding the id, and it is `None` exactly when no element has the id |
| Elements.CountId | src/components/Palette/Palette.js:42 | `filter(i => i.id === id).length` is at most the list's length, and is 0 exactly when no element has the id |
| Elements.CountIdConcat | src/components/Palette/Palette.js:42 | the count over two joined lists is the sum of the two counts |
| Elements.CountIdTwice | src/components/Palette/Palette.js:42 | two elements sharing an id make that id's count at least 2 |
| Elements.CountIdUnique | src/components/Palette/Palette.js:42 | in a list without repeated ids, every element's id has count exactly 1 |
| Elements.LastIndexOfId | src/components/Dropzone/Dropzone.js:328-338 | the index the duplicate scan leaves is the last index holding the id; no later element has it; it is `None` exactly when the id is absent |
| StateTree.WithoutCanvas | src/core/state.js:36-38 | the filter branch keeps exactly the entries whose `canvasID` differs from the submitting canvas, and never lengthens the list |
| StateTree.WithoutCanvasConcat | src/core/state.js:37-38 | the filter keeps the surviving entries in their original order |
| StateTree.WithoutCanvasKeepsUntagged | src/core/state.js:36-38 | entries without a `canvasID` key all survive the filter. An element built from a drag has none, but one passed in by the caller keeps any `canvasID` it had |
| StateTree.LastWithId | src/core/state.js:45-53 | among the submitted elements with an id, the one whose write to a slot survives is a submitted element with that id; there is none exactly when no submitted element has the id |
| StateTree.Slot | src/core/state.js:46-52 | a slot keeps its id after the merge, and it holds either its old element or one of the submitted elements |
| StateTree.Replaced | src/core/state.js:45-53 | the merge's in-place replacement keeps the length and the id of every slot |
| StateTree.Unknown | src/core/state.js:44-49 | `fieldsToBeAdded` holds exactly the submitted elements whose id is not among the current ids |
| StateTree.Merged | src/core/state.js:43-60 | the merge removes and reorders nothing: the old slots keep their ids, in order; the unknown submissions follow them, in order; the length grows by their number |
| StateTree.MergedSlot | src/core/state.js:45-53 | the first slot of a submitted id ends up holding the last submitted element with that id; a slot no submission names keeps its element |
| StateTree.MergedSameIds | src/core/state.js:45-53 | for a sibling list without repeated ids, resubmitting children with the same ids in the same order makes the merged list exactly the submitted list |
| StateTree.MergedIdempotent | src/core/state.js:43-60 | for a sibling list without repeated ids, resubmitting a node's current children leaves them unchanged |
| StateTree.MergedRepeatedId | src/core/state.js:45-53 | with a repeated sibling id the merge is not idempotent: both writes land on the first slot, so `[a1, a2]` resubmitted becomes `[a2, a2]` |
| StateTree.UnknownAllKnown | src/core/state.js:44-49 | when every submitted id is known, nothing is appended |
| StateTree.UniqueIdsSameIds | src/core/state.js:45-53 | a list with the same ids as a list without repeated ids has no repeated ids either |
| StateTree.LastWithIdUnique | src/core/state.js:45-53 | in a submission without repeated ids, the surviving write for an element's id is that element |
| StateTree.Reconcile | src/core/state.js:31-60 | the matched node always ends with a `fields` list, whichever branch is taken |
| StateTree.DeepMatchesBothRewritten | src/core/state.js:65-81 | a match two levels down does not stop the sibling loop: nodes with the parent id under two siblings are both rewritten, and the status is false |
| StateTree.Traverse | src/core/state.js:25-82 | the returned status is true exactly when a node of the given list itself has the parent id, never for a deeper match |
| StateTree.TraverseFirstMatch | src/core/state.js:26-62 | a match in the list rewrites the `fields` of the first node with that id, by the three-way rule, and leaves every other node as it was |
| StateTree.TraverseSameNodes | src/core/state.js:25-82 | the search changes only `fields` keys: every node keeps its place and its other keys, and a node that had `fields` still has them |
| StateTree.SearchSiblingsSameNodes | src/core/state.js:66-78 | the sibling loop changes only `fields` keys |
| StateTree.DescendSameNode | src/core/state.js:67-73 | searching inside one element changes only its `fields` key |
| StateTree.SearchSiblings | src/core/state.js:66-78 | the sibling loop keeps the number of siblings; it stops after the first child list that reports a direct match |
| StateTree.Descend | src/core/state.js:67-73 | an element without `fields` is skipped: it is unchanged and reports no match |
| StateTree.TraverseNoMatch | src/core/state.js:25-82 | a parent id that occurs nowhere in the tree leaves the tree unchanged and returns false |
| StateTree.SearchSiblingsNoMatch | src/core/state.js:66-78 | the sibling loop changes nothing when the id occurs nowhere below |
| StateTree.DescendNoMatch | src/core/state.js:67-73 | descending into an element where the id does not occur changes nothing |
| StateTree.NotOccursNoId | src/core/state.js:26 | an id that occurs nowhere is not the id of a top-level node |
| Listeners.CallsFor | src/core/state.js:87 | `forEach(e => e(arg))` calls every listener exactly once, in registration order, with the same argument |
| Listeners.Without | src/core/state.js:155 | `filter(e => e !== cb)` keeps exactly the listeners other than `cb` |
| Listeners.WithoutConcat | src/core/event.js:76 | removal keeps the remaining listeners in registration order |
| Listeners.WithoutAbsent | src/core/state.js:155 | removing a callback that was never registered changes nothing |
| Listeners.AddThenRemove | src/core/state.js:129-159 | registering a fresh callback and then removing it restores the listener list |
| StateStore.MergeFields | src/core/state.js:43-60 | the `forEach` loop with its `findIndex`/`map`/`push` and the final `concat` computes exactly the merge `StateTree.Merged` |
| StateStore.MergeOne | src/core/state.js:45-53 | one iteration of the merge loop advances the replaced list and `fieldsToBeAdded` by one submitted element |
| StateStore.TraverseAndUpdateTree | src/core/state.js:25-82 | the recursive search with its early `break` computes exactly `StateTree.Traverse`: the new list and the status |
| StateStore.ReconcileNode | src/core/state.js:31-60 | the three-way rewrite of the matched node's `fields` computes `StateTree.Reconcile` |
| StateStore.SearchSiblingsLoop | src/core/state.js:66-78 | the sibling loop, which stops at the first child list that reports a match, computes `StateTree.SearchSiblings` |
| StateStore.SearchOne | src/core/state.js:67-77 | one sibling step either stops with the final list or keeps the loop invariant for the next sibling |
| StateStore.SearchSiblingsStep | src/core/state.js:66-78 | the sibling search from index i is that sibling's descent followed by the search from i+1, unless the descent matched |
| StateStore.DescendInto | src/core/state.js:67-73 | searching inside one sibling computes `StateTree.Descend` |
| StateStore.RootCanvasReplaces | src/core/state.js:31-33 | the root canvas (id and parentID both `root`, src/components/Canvas/Canvas.js:9) always takes the bootstrap branch: root's `fields` become exactly the submitted list, so an empty submission empties the page, and the status is true |
| StateStore.Root | src/core/state.js:12-15 | the root node has id `root` and the given `fields` |
| StateStore.FlushHooks | src/core/state.js:113-119 | one flush-hook call per top-level element, in order |
| StateStore.ClearCalls | src/core/state.js:109-122 | `clearState` calls each top-level element's flush hook, in order, and then, only for a non-empty root, every `change` listener once |
| StateStore.ClearCallsOrder | src/core/state.js:109-122 | with an empty root, `clearState` calls nothing; otherwise every flush hook comes before every `change` notification |
| StateStore.CallsForConcat | src/core/state.js:87 | notifying two listener lists in turn is notifying their concatenation |
| StateStore.FlushHooksConcat | src/core/state.js:113-119 | flushing two element lists in turn is flushing their concatenation |
| StateStore.State.constructor | src/core/state.js:6-15 | the initial state is a root with no fields, no listeners, and no calls |
| StateStore.State.NotifyStateChange | src/core/state.js:85-88 | every `change` listener is called once, in order, with the current tree |
| StateStore.State.UpdateState | src/core/state.js:92-96 | the tree becomes the traversal's result and keeps a single `root` node with `fields`; then `cb` is called with the new tree, before every `change` listener |
| StateStore.State.GetState | src/core/state.js:102 | the state is the one-node tree under `root` |
| StateStore.State.ClearState | src/core/state.js:109-122 | the flush hooks run in order; the `change` listeners are notified only from the last hook's callback, and not at all when the root is empty; the result is always true |
| StateStore.State.FlushOne | src/core/state.js:113-118 | one `forEach` step calls the element's hook, and notifies only when it is the last element |
| StateStore.State.AddEventListener | src/core/state.js:129-146 | a non-function gives false and an unknown event gives null, both changing nothing; otherwise the callback is appended and returned |
| StateStore.State.RemoveEventListener | src/core/state.js:153-159 | every registration of the callback is dropped from `change`; another event name changes nothing |
| EventBus.RpmEvent.constructor | src/core/event.js:6-14 | the bus starts with exactly the four channels, all empty |
| EventBus.RpmEvent.Notify | src/core/event.js:17-43 | a notify call invokes each listener of its channel exactly once, in registration order, with the channel's payload |
| EventBus.RpmEvent.NotifyStateChange | src/core/event.js:17-20 | every `change` listener is called with the state's tree |
| EventBus.RpmEvent.NotifyStateFlush | src/core/event.js:24-31 | with `true`, every `change` listener is called before any `flush` listener; with `false`, only the `flush` listeners; each `flush` listener receives `true` |
| EventBus.RpmEvent.NotifyElementUpdate | src/core/event.js:34-37 | every `updateElement` listener is called with the element |
| EventBus.RpmEvent.NotifyElementRemove | src/core/event.js:40-43 | every `removeElement` listener is called with the element |
| EventBus.RpmEvent.AddEventListener | src/core/event.js:50-67 | a non-function gives false and an unknown channel gives null, both changing nothing; otherwise the callback is appended to that channel only and returned |
| EventBus.RpmEvent.RemoveEventListener | src/core/event.js:74-80 | every registration of the callback leaves the named channel, and the other channels are unchanged; an unknown channel changes nothing |
| EventBus.FlushAfterChange | src/core/event.js:24-31 | in a flush with a final change, the first calls are the `change` listeners with the tree, and the rest are the `flush` listeners with `true` |
| Dropzone.DropSlot | src/components/Dropzone/Dropzone.js:374-385 | the slot the dropped element lands in lies within the list |
| Dropzone.InsertAt | src/components/Dropzone/Dropzone.js:374-385 | both insertion branches put the element at the clamped drop slot, with the list before and after it intact |
| Dropzone.MarkRemoved | src/components/Dropzone/Dropzone.js:350-355 | only the elements with the dropped id get the `remove` mark; the length is kept |
| Dropzone.Unmarked | src/components/Dropzone/Dropzone.js:387-389 | after the filter, no element carries the `remove` mark |
| Dropzone.UnmarkedMarked | src/components/Dropzone/Dropzone.js:349-389 | marking the copies of an id and then filtering the marks drops exactly those copies, keeping the order of the rest |
| Dropzone.UnmarkedConcat | src/components/Dropzone/Dropzone.js:387-389 | the mark filter works piecewise over a concatenation |
| Dropzone.ToDrop | src/components/Dropzone/Dropzone.js:358-372 | the element to drop keeps the dropped data's id and `remove` key |
| Dropzone.Capped | src/components/Dropzone/Dropzone.js:392 | a missing or zero `capacity` sets no limit, and a positive one does |
| Dropzone.SpaceAvailable | src/components/Dropzone/Dropzone.js:434 | `render`'s `spaceAvailable` holds exactly when there is no limit or one more element still fits within it |
| Dropzone.Add | src/components/Dropzone/Dropzone.js:318-419 | a successful drop never leaves more elements than a set capacity allows |
| Dropzone.AddNewId | src/components/Dropzone/Dropzone.js:374-394 | a new valid id lands at the drop slot (index 0 unless the position is positive, clamped to the end); the list grows by one and keeps its order; this happens exactly when the zone has space, and otherwise the drop is rejected for capacity |
| Dropzone.AddRejectsSameIndex | src/components/Dropzone/Dropzone.js:328-347 | the drop is refused as duplicate-or-invalid exactly when the id is present and its last copy sits at the drop position, or the id is invalid and the position is -1 |
| Dropzone.MoveKeeps | src/components/Dropzone/Dropzone.js:349-389 | mark, insert and filter leave the other elements in order on either side of the new slot |
| Dropzone.MoveLeavesOne | src/components/Dropzone/Dropzone.js:349-389 | after a move, exactly one element carries the moved id |
| Dropzone.MoveKeepsOthers | src/components/Dropzone/Dropzone.js:349-389 | after a move, the elements with other ids are exactly the old ones, in order |
| Dropzone.AddMovesDuplicate | src/components/Dropzone/Dropzone.js:328-394 | dropping an id held elsewhere in the zone (or an invalid id at any position but -1) removes the old copies and inserts the new one; exactly one copy remains and the others keep their order; the result is rejected only for capacity |
| Dropzone.RemoveFirst | src/components/Dropzone/Dropzone.js:161-167 | an absent id leaves the list unchanged; otherwise exactly one element goes |
| Dropzone.RemoveFirstOnlyFirst | src/components/Dropzone/Dropzone.js:161-167 | removal takes away one copy of the id, the first, and leaves every other id's count alone; putting the element back at its index restores the list |
| Dropzone.Patch | src/components/Dropzone/Dropzone.js:181-195 | the allow-listed copy changes only `name`, `type` and `payload`; each takes `newData`'s value when `newData` has the key and keeps the old one otherwise |
| Dropzone.Edited | src/components/Dropzone/Dropzone.js:191-200 | an edit keeps the length of the list |
| Dropzone.EditedKeepsRest | src/components/Dropzone/Dropzone.js:174-203 | an edit changes only `name`, `type` and `payload`, and only where `newData` has them, on the elements with the edited id; ids, other keys and other elements are untouched |
| Dropzone.EditedIdempotent | src/components/Dropzone/Dropzone.js:191-200 | applying the same edit twice is applying it once |
| Dropzone.Adopt | src/components/Dropzone/Dropzone.js:79-89 | stamping the zone keeps the length |
| Dropzone.AdoptStamps | src/components/Dropzone/Dropzone.js:79-89 | every element gets the zone's `dropzoneID` and `parentID` and keeps its id; stamping twice is stamping once |
| Dropzone.WithKeys | src/components/Dropzone/Dropzone.js:119-123 | keying keeps the length |
| Dropzone.WithKeysStamps | src/components/Dropzone/Dropzone.js:119-123 | each element's `key` becomes its id; ids are kept |
| Dropzone.FindIn | src/components/Dropzone/Dropzone.js:27-39 | there is no match unless some element has the parent id, and no exception unless some element has initial elements, because only those are probed |
| Dropzone.ProbeThrows | src/components/Dropzone/Dropzone.js:34-36 | a probe into a `fields` list where no element has initial elements never throws |
| Dropzone.FindInTopLevel | src/components/Dropzone/Dropzone.js:27-39 | `findFields` finds a match exactly when a top-level element has the parent id and no earlier recursive call throws; the match is that first element's `initialElements`, so nested matches are never returned |
| Dropzone.FindInFlat | src/components/Dropzone/Dropzone.js:27-39 | with no element holding initial elements, `findFields` is a plain first-match search that returns `initialElements` or false |
| Dropzone.DropzoneComponent.constructor | src/components/Dropzone/Dropzone.js:8-23 | a new zone has empty `initialElements` and `droppedElements`, and `initDone` false |
| Dropzone.DropzoneComponent.AddElement | src/components/Dropzone/Dropzone.js:318-419 | the drop's outcome is `Dropzone.Add`; a rejection changes neither the zone nor the state; a successful drop sets `droppedElements` and commits it through `updateState` |
| Dropzone.DropzoneComponent.RemoveElement | src/components/Dropzone/Dropzone.js:161-167 | the list loses the first element with the id, and the result is committed |
| Dropzone.DropzoneComponent.UpdateElement | src/components/Dropzone/Dropzone.js:174-203 | an absent id calls `cb(null)` and changes nothing else; otherwise the edit is applied, committed, and the call returns true |
| Dropzone.DropzoneComponent.SetInitialElements | src/components/Dropzone/Dropzone.js:108-141 | it acts only for a non-empty array, with `initDone` false and no initial elements yet; then both lists become the keyed, stamped items, the state gets them, and `initDone` becomes true; otherwise nothing changes |
| Dropzone.DropzoneComponent.DangerouslySetElements | src/components/Dropzone/Dropzone.js:70-95 | both lists become the given list (or the function's result, or [] when that is falsy), stamped with the zone, and the state gets them |
| Dropzone.DropzoneComponent.FlushDroppedElements | src/components/Dropzone/Dropzone.js:231-236 | both lists are emptied, and the empty list is committed |
| Dropzone.DropzoneComponent.FindFields | src/components/Dropzone/Dropzone.js:27-39 | the loop with its early return computes `Dropzone.FindIn` |
| Dropzone.DropzoneComponent.Probe | src/components/Dropzone/Dropzone.js:34-36 | the discarded recursive call throws exactly when `fields` is missing or a deeper call throws |
| Dropzone.ScanForId | src/components/Dropzone/Dropzone.js:327-338 | the `filter` that records matches yields the count of elements with the id and the last index among them |
| Palette.Complaint | src/components/Palette/Palette.js:37-44 | an item leaves no message exactly when it has an id and that id occurs once |
| Palette.ErrorAfter | src/components/Palette/Palette.js:34-45 | after any number of visits, `isError` is false or one of the two messages |
| Palette.Validate | src/components/Palette/Palette.js:33-48 | the validator returns true or an Error carrying one of the two messages |
| Palette.ValidatePaletteElements | src/components/Palette/Palette.js:33-48 | the `forEach` that overwrites `isError` computes `Palette.Validate` |
| Palette.ErrorAfterNone | src/components/Palette/Palette.js:34-45 | `isError` is still false after k visits exactly when none of the first k items complained |
| Palette.CountsAtMostOne | src/components/Palette/Palette.js:42-44 | no item's id counted twice is the same as no two items sharing an id |
| Palette.ValidateAccepts | src/components/Palette/Palette.js:33-48 | the validator returns true exactly when every item has an id and no id repeats; otherwise it returns an Error |
| Palette.LastComplaintWins | src/components/Palette/Palette.js:34-47 | the message is the one from the last item that complains, whatever came before it |
| Palette.MissingOverwritesDuplicate | src/components/Palette/Palette.js:37-47 | for two items with id "a" followed by one without an id, the missing-id message wins over the duplicate one |

## Left out

- Aliasing: state.js assigns `matchedParentCanvas.fields` on objects that drop zones also hold. The model rewrites a value tree, so sharing between a zone's list and the tree is not captured. The main effect is this. In the program, a child zone writes its `fields` into element objects that its parent zone's `droppedElements` also holds. In the model, a zone commits copies of its own list, and those copies lack the `fields` its child zones wrote into the tree. So `DropzoneComponent` and `State` together lose nested children that the program keeps. For example, every root-level commit from the root Canvas takes the bootstrap branch, and it replaces root's `fields` with elements that lack the nested `fields` (`StateStore.RootCanvasReplaces`).
- Function-valued keys of elements (`updateState`, `removeElement`, `updateElement`, `flushDroppedElements`, `checkAndRemoveElement`), and the display keys `showBasicContent` and `allowHorizontal`: these are behaviour or rendering, not data.
- Flush hooks: in `StateStore.State.ClearState`, each hook is opaque. It is assumed to call its callback once, synchronously, and it is not modelled as changing the tree.
- Exceptions thrown by listeners, which would abort a `forEach` half-way: listeners are opaque.
- React rendering, DOM class toggling, the `setTimeout` animation, drag events and `dataTransfer` JSON: these are UI only.
- The global drag store (src/core/core.js): the drop position is a parameter, and `core.error` is a `Rejected` outcome. The capacity message text is not modelled.
- The `checkAndRemoveElement` call on the dragged element after a drop, and `_checkAndRemoveElement` itself: both act on another zone through the global drag store and the user's `onElementMove`. `Dropzone.Add` reports `alreadyRemoved`, which is what decides that call.
- The drop zone's `change` listener (`componentWillMount`): it calls `state.getStorableState`, which src/core/state.js does not define. `findFields` is modelled on its own, over a list passed in.
- `componentWillReceiveProps` and `_onDrop`'s `dropIndex` hint to `onDrop`: they are props plumbing.
- Null palette items and a null `updatedData`: these throw in JavaScript and are not representable here.
- Fractional or NaN drop positions and capacities: both are integers here.
- Dropzone.DropzoneComponent.UpdateElement: `false` stands for the value of `cb(null)`, which is opaque. `Object.keys` would also copy a key that is present but `undefined`, and `Option` cannot tell that from a missing key.
- Dropzone.DropzoneComponent.DangerouslySetElements: a function argument is represented by the value it returned for the current list.
- Palette.ValidatePaletteElements: `PropTypes.arrayOf` calls the validator once per item, always with the whole array. The model makes one call, whose result is the same as every per-item call.
