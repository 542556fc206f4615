// The list logic of one drop zone (src/components/Dropzone/Dropzone.js): the
// component's `initialElements`, `droppedElements` and `initDone`, the operations
// that rewrite them, and the `updateState` call through which every rewrite reaches
// the application state. React's `setState` is an immediate assignment here.

module Dropzone {
  import opened Elements
  import opened Listeners
  import opened StateTree
  import StateStore

  /** No element of the list carries the `remove` mark. */
  predicate NoMarks(s: seq<Element>)
  {
    forall j :: 0 <= j < |s| ==> !s[j].remove
  }

  /** Where `[...s.slice(0, p), x, ...s.slice(p)]` (for p > 0) or `[x, ...s]` puts `x`. */
  function DropSlot(dropPosition: int, n: nat): (p: nat)
    ensures p <= n
  {
    if dropPosition <= 0 then 0 else if dropPosition < n then dropPosition else n
  }

  function InsertAt(s: seq<Element>, x: Element, dropPosition: int): (r: seq<Element>)
    ensures r == s[..DropSlot(dropPosition, |s|)] + [x] + s[DropSlot(dropPosition, |s|)..]
  {
    if dropPosition > 0 then
      var p := if dropPosition < |s| then dropPosition else |s|;
      s[..p] + [x] + s[p..]
    else
      assert s[..0] == [] && s[0..] == s;
      [x] + s
  }

  /** `s.map(e => e.id === id ? { ...e, remove: true } : e)` */
  function MarkRemoved(s: seq<Element>, id: Option<string>): (r: seq<Element>)
    ensures |r| == |s|
    ensures forall j :: 0 <= j < |s| ==> r[j] == if s[j].id == id then s[j].(remove := true) else s[j]
  {
    if s == [] then [] else [if s[0].id == id then s[0].(remove := true) else s[0]] + MarkRemoved(s[1..], id)
  }

  /** `s.filter(e => !e.remove)` */
  function Unmarked(s: seq<Element>): (r: seq<Element>)
    ensures NoMarks(r)
  {
    if s == [] then [] else (if s[0].remove then [] else [s[0]]) + Unmarked(s[1..])
  }

  /** The elements whose id differs, in order. */
  function Others(s: seq<Element>, id: Option<string>): (r: seq<Element>)
    ensures forall k :: 0 <= k < |r| ==> r[k].id != id
  {
    if s == [] then [] else (if s[0].id != id then [s[0]] else []) + Others(s[1..], id)
  }

  lemma {:induction false} UnmarkedConcat(a: seq<Element>, b: seq<Element>)
    ensures Unmarked(a + b) == Unmarked(a) + Unmarked(b)
  {
    if a == [] {
      assert a + b == b;
    } else {
      assert (a + b)[1..] == a[1..] + b;
      UnmarkedConcat(a[1..], b);
    }
  }

  lemma {:induction false} OthersConcat(a: seq<Element>, b: seq<Element>, id: Option<string>)
    ensures Others(a + b, id) == Others(a, id) + Others(b, id)
  {
    if a == [] {
      assert a + b == b;
    } else {
      assert (a + b)[1..] == a[1..] + b;
      OthersConcat(a[1..], b, id);
    }
  }

  lemma {:induction false} OthersNone(s: seq<Element>, id: Option<string>)
    requires forall k :: 0 <= k < |s| ==> s[k].id != id
    ensures Others(s, id) == s
  {
    if s != [] {
      OthersNone(s[1..], id);
    }
  }

  lemma {:induction false} UnmarkedUnchanged(s: seq<Element>)
    requires NoMarks(s)
    ensures Unmarked(s) == s
  {
    if s != [] {
      UnmarkedUnchanged(s[1..]);
    }
  }

  /** Marking the copies of an id and then filtering the marks drops exactly those copies. */
  lemma {:induction false} UnmarkedMarked(m: seq<Element>, s: seq<Element>, id: Option<string>)
    requires NoMarks(s) && |m| == |s|
    requires forall j :: 0 <= j < |s| ==> m[j] == if s[j].id == id then s[j].(remove := true) else s[j]
    ensures Unmarked(m) == Others(s, id)
  {
    if s != [] {
      UnmarkedMarked(m[1..], s[1..], id);
    }
  }

  /** Why `_addElement` refuses a drop. */
  datatype Rejection =
    | DuplicateOrInvalidId  // core.error('Duplicate or invalid ID')
    | OverCapacity          // core.error(`Maximum capacity of canvas(...) is ...`)

  /** What `_addElement` ends with: an error, or `{ dropzoneID, elements }`. */
  datatype AddOutcome =
    | Rejected(reason: Rejection)
    | Dropped(elements: seq<Element>, alreadyRemoved: bool)

  /** `capacity` is truthy: given and not 0. */
  predicate Capped(capacity: Option<int>): (r: bool)
    ensures capacity.None? || capacity == Some(0) ==> !r
    ensures capacity.Some? && capacity.value > 0 ==> r
  {
    capacity.Some? && capacity.value != 0
  }

  /** The `spaceAvailable` rule of `render`: `capacity ? capacity > droppedElements.length : true`. */
  predicate SpaceAvailable(capacity: Option<int>, dropped: seq<Element>): (r: bool)
    ensures r <==> !Capped(capacity) || |dropped| + 1 <= capacity.value
  {
    Capped(capacity) ==> capacity.value > |dropped|
  }

  /** `indexOfPresentElement`, with `None` standing for -1. */
  function AsIndex(i: Option<nat>): int
  {
    if i.Some? then i.value else -1
  }

  /** The index the duplicate scan leaves: it runs only for a truthy id. */
  function PresentIndex(dropped: seq<Element>, id: Option<string>): Option<nat>
  {
    if Truthy(id) then LastIndexOfId(dropped, id) else None
  }

  /** `elementToDrop`: the dropped data stamped with its key, zone, parent and the zone's initial elements. */
  function ToDrop(data: Element, zone: string, parent: string, initial: seq<Element>): (x: Element)
    ensures x.id == data.id && x.remove == data.remove
  {
    data.(key := data.id, dropzoneID := Some(zone), parentID := Some(parent), initialElements := Present(initial))
  }

  /**
   * `_addElement(updatedData)` over the zone's current lists, with the drop position
   * read from the drag store passed in.
   */
  function Add(dropped: seq<Element>, initial: seq<Element>, zone: string, parent: string,
               capacity: Option<int>, data: Element, dropPosition: int): (r: AddOutcome)
    ensures r.Dropped? && Capped(capacity) ==> |r.elements| <= capacity.value
  {
    var invalid := !Truthy(data.id);
    var present := Truthy(data.id) && CountId(dropped, data.id) > 0;
    var sameIndex := AsIndex(PresentIndex(dropped, data.id)) == dropPosition;
    if (invalid || present) && sameIndex then Rejected(DuplicateOrInvalidId)
    else
      var marked := if invalid || present then MarkRemoved(dropped, data.id) else dropped;
      var placed := InsertAt(marked, ToDrop(data, zone, parent, initial), dropPosition);
      var kept := if sameIndex then placed else Unmarked(placed);
      if Capped(capacity) && |kept| > capacity.value then Rejected(OverCapacity)
      else Dropped(kept, invalid || present)
  }

  /**
   * A new, valid id lands at its drop slot with every other element in its old
   * order, exactly when the zone has space; otherwise the drop is over capacity.
   */
  lemma AddNewId(dropped: seq<Element>, initial: seq<Element>, zone: string, parent: string,
                 capacity: Option<int>, data: Element, dropPosition: int)
    requires Truthy(data.id) && forall k :: 0 <= k < |dropped| ==> dropped[k].id != data.id
    requires !data.remove && NoMarks(dropped)
    ensures var p := DropSlot(dropPosition, |dropped|);
      Add(dropped, initial, zone, parent, capacity, data, dropPosition) ==
        if SpaceAvailable(capacity, dropped)
        then Dropped(dropped[..p] + [ToDrop(data, zone, parent, initial)] + dropped[p..], false)
        else Rejected(OverCapacity)
  {
    var x := ToDrop(data, zone, parent, initial);
    var p := DropSlot(dropPosition, |dropped|);
    var placed := dropped[..p] + [x] + dropped[p..];
    UnmarkedConcat(dropped[..p] + [x], dropped[p..]);
    UnmarkedConcat(dropped[..p], [x]);
    UnmarkedUnchanged(dropped[..p]);
    UnmarkedUnchanged(dropped[p..]);
    assert Unmarked([x]) == [x];
    assert Unmarked(placed) == placed;
  }

  /**
   * A drop is refused as a duplicate exactly when the id is invalid and the drop
   * position is -1, or the id is present and its last copy sits at the drop position.
   */
  lemma AddRejectsSameIndex(dropped: seq<Element>, initial: seq<Element>, zone: string, parent: string,
                            capacity: Option<int>, data: Element, dropPosition: int)
    ensures Add(dropped, initial, zone, parent, capacity, data, dropPosition) == Rejected(DuplicateOrInvalidId) <==>
      if Truthy(data.id)
      then LastIndexOfId(dropped, data.id).Some? && LastIndexOfId(dropped, data.id).value == dropPosition
      else dropPosition == -1
  {
  }

  /**
   * Marking the copies of an id, inserting `x` and filtering the marks leaves the
   * other elements in order on either side of `x`'s slot.
   */
  lemma MoveKeeps(dropped: seq<Element>, id: Option<string>, x: Element, dropPosition: int)
    requires NoMarks(dropped) && !x.remove
    ensures var p := DropSlot(dropPosition, |dropped|);
      Unmarked(InsertAt(MarkRemoved(dropped, id), x, dropPosition)) ==
        Others(dropped[..p], id) + [x] + Others(dropped[p..], id)
  {
    var p := DropSlot(dropPosition, |dropped|);
    var m := MarkRemoved(dropped, id);
    UnmarkedConcat(m[..p] + [x], m[p..]);
    UnmarkedConcat(m[..p], [x]);
    assert Unmarked([x]) == [x];
    UnmarkedMarked(m[..p], dropped[..p], id);
    UnmarkedMarked(m[p..], dropped[p..], id);
  }

  /** Putting one element with the id between two lists without it gives exactly one copy. */
  lemma MoveLeavesOne(a: seq<Element>, b: seq<Element>, x: Element, id: Option<string>)
    requires x.id == id
    ensures CountId(Others(a, id) + [x] + Others(b, id), id) == 1
  {
    var oa, ob := Others(a, id), Others(b, id);
    CountIdConcat(oa + [x], ob, id);
    CountIdConcat(oa, [x], id);
    assert CountId(oa, id) == 0 && CountId(ob, id) == 0;
    assert CountId([x], id) == 1 by {
      assert [x][..0] == [];
    }
  }

  /** ... and leaves the elements with other ids as they were, in order. */
  lemma MoveKeepsOthers(a: seq<Element>, b: seq<Element>, x: Element, id: Option<string>)
    requires x.id == id
    ensures Others(Others(a, id) + [x] + Others(b, id), id) == Others(a + b, id)
  {
    var oa, ob := Others(a, id), Others(b, id);
    var front := oa + [x];
    OthersConcat(front, ob, id);
    OthersConcat(oa, [x], id);
    OthersNone(oa, id);
    OthersNone(ob, id);
    assert Others([x], id) == [] by {
      assert [x][1..] == [];
    }
    assert Others(front, id) == oa;
    OthersConcat(a, b, id);
  }

  /**
   * Dropping an id the zone already holds elsewhere (or an invalid id anywhere but
   * -1) moves it: the old copies go, the rest keep their order around the new slot,
   * and exactly one element with that id remains.
   */
  lemma AddMovesDuplicate(dropped: seq<Element>, initial: seq<Element>, zone: string, parent: string,
                          capacity: Option<int>, data: Element, dropPosition: int)
    requires !Truthy(data.id) || CountId(dropped, data.id) > 0
    requires AsIndex(PresentIndex(dropped, data.id)) != dropPosition
    requires !data.remove && NoMarks(dropped)
    ensures var p := DropSlot(dropPosition, |dropped|);
      var kept := Others(dropped[..p], data.id) + [ToDrop(data, zone, parent, initial)] + Others(dropped[p..], data.id);
      && Add(dropped, initial, zone, parent, capacity, data, dropPosition) ==
           (if Capped(capacity) && |kept| > capacity.value then Rejected(OverCapacity) else Dropped(kept, true))
      && CountId(kept, data.id) == 1
      && Others(kept, data.id) == Others(dropped, data.id)
  {
    var x := ToDrop(data, zone, parent, initial);
    var p := DropSlot(dropPosition, |dropped|);
    MoveKeeps(dropped, data.id, x, dropPosition);
    MoveLeavesOne(dropped[..p], dropped[p..], x, data.id);
    MoveKeepsOthers(dropped[..p], dropped[p..], x, data.id);
    assert dropped[..p] + dropped[p..] == dropped;
  }

  /** `droppedElements.filter((d, i) => i !== index)` with `index` the first index of the id. */
  function RemoveFirst(s: seq<Element>, id: Option<string>): (r: seq<Element>)
    ensures IndexOfId(s, id).None? ==> r == s
    ensures IndexOfId(s, id).Some? ==> |r| + 1 == |s|
  {
    match IndexOfId(s, id)
    case None => s
    case Some(i) => s[..i] + s[i + 1..]
  }

  /**
   * Removing takes away one copy of the id, the first, and leaves every other
   * id's count alone; putting that element back at its index restores the list.
   */
  lemma RemoveFirstOnlyFirst(s: seq<Element>, id: Option<string>, other: Option<string>)
    requires id in Ids(s)
    ensures var i := IndexOfId(s, id).value;
      && CountId(RemoveFirst(s, id), id) + 1 == CountId(s, id)
      && (other != id ==> CountId(RemoveFirst(s, id), other) == CountId(s, other))
      && RemoveFirst(s, id)[..i] + [s[i]] + RemoveFirst(s, id)[i..] == s
  {
    var i := IndexOfId(s, id).value;
    var r := RemoveFirst(s, id);
    assert s == s[..i] + [s[i]] + s[i + 1..];
    assert r == s[..i] + s[i + 1..];
    CountIdAround(s[..i], s[i], s[i + 1..], id);
    CountIdAround(s[..i], s[i], s[i + 1..], other);
    assert r[..i] == s[..i] && r[i..] == s[i + 1..];
  }

  /** Taking one element out of a list lowers only its own id's count, by one. */
  lemma CountIdAround(a: seq<Element>, x: Element, b: seq<Element>, id: Option<string>)
    ensures CountId(a + [x] + b, id) == CountId(a + b, id) + (if x.id == id then 1 else 0)
  {
    CountIdConcat(a + [x], b, id);
    CountIdConcat(a, [x], id);
    CountIdConcat(a, b, id);
    assert [x][..0] == [];
  }

  /** `{ ...e, ...newElementData }`: only `name`, `type` and `payload` are taken from `newData`. */
  function Patch(e: Element, newData: Element): (r: Element)
    ensures r.(name := e.name, kind := e.kind, payload := e.payload) == e
    ensures r.name == (if newData.name.Some? then newData.name else e.name)
    ensures r.kind == (if newData.kind.Some? then newData.kind else e.kind)
    ensures r.payload == (if newData.payload.Some? then newData.payload else e.payload)
  {
    e.(name := if newData.name.Some? then newData.name else e.name,
       kind := if newData.kind.Some? then newData.kind else e.kind,
       payload := if newData.payload.Some? then newData.payload else e.payload)
  }

  /** `droppedElements.map(e => e.id === newData.id ? { ...e, ...newElementData } : e)` */
  function Edited(s: seq<Element>, newData: Element): (r: seq<Element>)
    ensures |r| == |s|
  {
    if s == [] then [] else [if s[0].id == newData.id then Patch(s[0], newData) else s[0]] + Edited(s[1..], newData)
  }

  /**
   * An edit touches only the three allowed keys of the elements with the edited
   * id: ids, every other key and every other element stay as they were.
   */
  lemma {:induction false} EditedKeepsRest(s: seq<Element>, newData: Element)
    ensures Ids(Edited(s, newData)) == Ids(s)
    ensures forall j :: 0 <= j < |s| && s[j].id != newData.id ==> Edited(s, newData)[j] == s[j]
    ensures forall j :: 0 <= j < |s| && s[j].id == newData.id ==>
      var e := Edited(s, newData)[j];
      && e.(name := s[j].name, kind := s[j].kind, payload := s[j].payload) == s[j]
      && e.name == (if newData.name.Some? then newData.name else s[j].name)
      && e.kind == (if newData.kind.Some? then newData.kind else s[j].kind)
      && e.payload == (if newData.payload.Some? then newData.payload else s[j].payload)
  {
    if s != [] {
      EditedKeepsRest(s[1..], newData);
      var r := Edited(s, newData);
      assert r[1..] == Edited(s[1..], newData);
      forall j | 1 <= j < |s| ensures r[j] == Edited(s[1..], newData)[j - 1] {
      }
    }
  }

  /** Applying the same edit twice is applying it once. */
  lemma {:induction false} EditedIdempotent(s: seq<Element>, newData: Element)
    ensures Edited(Edited(s, newData), newData) == Edited(s, newData)
  {
    if s != [] {
      EditedIdempotent(s[1..], newData);
      assert Edited(s, newData)[1..] == Edited(s[1..], newData);
    }
  }

  /** `elements.map(e => ({ ...e, dropzoneID, parentID }))` */
  function Adopt(s: seq<Element>, zone: string, parent: string): (r: seq<Element>)
    ensures |r| == |s|
  {
    if s == [] then [] else [s[0].(dropzoneID := Some(zone), parentID := Some(parent))] + Adopt(s[1..], zone, parent)
  }

  /** `elements.map(e => ({ ...e, key: e.id }))` */
  function WithKeys(s: seq<Element>): (r: seq<Element>)
    ensures |r| == |s|
  {
    if s == [] then [] else [s[0].(key := s[0].id)] + WithKeys(s[1..])
  }

  /**
   * Adopting keeps every element's id and stamps the zone and parent on each;
   * adopting an adopted list changes nothing.
   */
  lemma {:induction false} AdoptStamps(s: seq<Element>, zone: string, parent: string)
    ensures Ids(Adopt(s, zone, parent)) == Ids(s)
    ensures forall j :: 0 <= j < |s| ==>
      Adopt(s, zone, parent)[j] == s[j].(dropzoneID := Some(zone), parentID := Some(parent))
    ensures Adopt(Adopt(s, zone, parent), zone, parent) == Adopt(s, zone, parent)
  {
    if s != [] {
      AdoptStamps(s[1..], zone, parent);
      var r := Adopt(s, zone, parent);
      assert r[1..] == Adopt(s[1..], zone, parent);
      assert Adopt(r, zone, parent)[1..] == Adopt(r[1..], zone, parent);
    }
  }

  /** Keying keeps every element's id and sets each `key` to it. */
  lemma {:induction false} WithKeysStamps(s: seq<Element>)
    ensures Ids(WithKeys(s)) == Ids(s)
    ensures forall j :: 0 <= j < |s| ==> WithKeys(s)[j] == s[j].(key := s[j].id)
  {
    if s != [] {
      WithKeysStamps(s[1..]);
      assert WithKeys(s)[1..] == WithKeys(s[1..]);
    }
  }

  /** What `findFields` gives back: an element's `initialElements`, `false`, or an exception. */
  datatype Found = Match(initialElements: Children) | NoMatch | Thrown

  /** `element.initialElements && element.initialElements.length > 0` */
  predicate HasInitial(e: Element)
  {
    e.initialElements.Present? && |e.initialElements.items| > 0
  }

  /**
   * `findFields(fields)`: the first top-level element whose id is `parentID`
   * answers with its `initialElements`. The recursive call on an element with
   * initial elements is made for its exception only; its result is dropped.
   */
  function FindIn(parentID: string, fields: seq<Element>): (r: Found)
    ensures (forall k :: 0 <= k < |fields| ==> fields[k].id != Some(parentID)) ==> !r.Match?
    ensures (forall k :: 0 <= k < |fields| ==> !HasInitial(fields[k])) ==> !r.Thrown?
    decreases fields, 1
  {
    if fields == [] then NoMatch
    else if fields[0].id == Some(parentID) then Match(fields[0].initialElements)
    else if HasInitial(fields[0]) && ProbeThrows(parentID, fields[0]) then Thrown
    else FindIn(parentID, fields[1..])
  }

  /** Whether `findFields(e.fields)` throws: `e.fields` is missing, or a throw deeper down. */
  predicate ProbeThrows(parentID: string, e: Element): (r: bool)
    ensures e.fields.Present? && (forall k :: 0 <= k < |e.fields.items| ==> !HasInitial(e.fields.items[k])) ==> !r
    decreases e
  {
    match e.fields
    case Absent => true
    case Present(items) => FindIn(parentID, items) == Thrown
  }

  /**
   * A match is reported only for the first top-level element with the id, and
   * only when no earlier element's probe throws: nested matches are never found.
   */
  lemma {:induction false} FindInTopLevel(parentID: string, fields: seq<Element>)
    ensures FindIn(parentID, fields).Match? <==>
      && IndexOfId(fields, Some(parentID)).Some?
      && forall j :: 0 <= j < IndexOfId(fields, Some(parentID)).value ==>
           !(HasInitial(fields[j]) && ProbeThrows(parentID, fields[j]))
    ensures FindIn(parentID, fields).Match? ==>
      FindIn(parentID, fields).initialElements == fields[IndexOfId(fields, Some(parentID)).value].initialElements
    decreases fields
  {
    if fields != [] && fields[0].id != Some(parentID) {
      FindInTopLevel(parentID, fields[1..]);
      var tail := IndexOfId(fields[1..], Some(parentID));
      if tail.Some? {
        forall j | 0 <= j < tail.value ensures fields[1..][j] == fields[j + 1] {
        }
      }
    }
  }

  /** A list whose elements have no initial elements is searched without any probe. */
  lemma {:induction false} FindInFlat(parentID: string, fields: seq<Element>)
    requires forall j :: 0 <= j < |fields| ==> !HasInitial(fields[j])
    ensures FindIn(parentID, fields) ==
      match IndexOfId(fields, Some(parentID))
      case None => NoMatch
      case Some(i) => Match(fields[i].initialElements)
  {
    if fields != [] && fields[0].id != Some(parentID) {
      FindInFlat(parentID, fields[1..]);
    }
  }

  /** Where `dangerouslySetElements` takes its list from: an array, or a function of the current list. */
  datatype ElementsSource =
    | Given(items: seq<Element>)
    | Computed(result: Option<seq<Element>>)  // what `data(droppedElements)` returned; `None` if falsy

  /** One mounted drop zone, with the props it reads and the application state it writes. */
  class DropzoneComponent {
    /** `props.id`, the zone's `dropzoneID` */
    const id: string
    /** `props.parentID` */
    const parentID: string
    /** `props.capacity` */
    const capacity: Option<int>
    /** The `state` singleton of src/core/state.js */
    const store: StateStore.State

    var initialElements: seq<Element>
    var droppedElements: seq<Element>
    var initDone: bool
    /** Callbacks the component calls itself (`cb(null)` in `_updateElement`). */
    var calls: seq<Call>

    /** `_updateState(cb)` has committed `elements`: the state's `updateState` ran with them. */
    twostate predicate Committed(elements: seq<Element>, cb: Handle)
      reads this, store
    {
      && store.tree == Traverse(id, parentID, elements, old(store.tree)).fields
      && store.calls == old(store.calls) + [Invoke(cb, TreeArg(store.tree))] + CallsFor(store.change, TreeArg(store.tree))
    }

    constructor (id: string, parentID: string, capacity: Option<int>, store: StateStore.State)
      ensures this.id == id && this.parentID == parentID && this.capacity == capacity && this.store == store
      ensures initialElements == [] && droppedElements == [] && !initDone && calls == []
    {
      this.id := id;
      this.parentID := parentID;
      this.capacity := capacity;
      this.store := store;
      initialElements := [];
      droppedElements := [];
      initDone := false;
      calls := [];
    }

    /**
     * `_addElement(updatedData)`: `dropPosition` is the drag store's drop position,
     * `noop` the default callback `_updateState` passes on.
     */
    method AddElement(data: Element, dropPosition: int, noop: Handle) returns (r: AddOutcome)
      requires store.Valid()
      modifies this`droppedElements, store`tree, store`calls
      ensures store.Valid()
      ensures r == Add(old(droppedElements), initialElements, id, parentID, capacity, data, dropPosition)
      ensures r.Rejected? ==> droppedElements == old(droppedElements) && unchanged(store)
      ensures r.Dropped? ==> droppedElements == r.elements && Committed(r.elements, noop)
    {
      var invalid := !Truthy(data.id);
      var present := false;
      var indexOfPresentElement: Option<nat> := None;
      if !invalid {
        var count;
        count, indexOfPresentElement := ScanForId(droppedElements, data.id);
        present := count > 0;
      }
      var sameIndex := AsIndex(indexOfPresentElement) == dropPosition;
      if (invalid || present) && sameIndex {
        return Rejected(DuplicateOrInvalidId);
      }
      var newElements := droppedElements;
      if invalid || present {
        newElements := MarkRemoved(newElements, data.id);
      }
      newElements := InsertAt(newElements, ToDrop(data, id, parentID, initialElements), dropPosition);
      if !sameIndex {
        newElements := Unmarked(newElements);
      }
      if Capped(capacity) && |newElements| > capacity.value {
        return Rejected(OverCapacity);
      }
      droppedElements := newElements;
      store.UpdateState(id, parentID, droppedElements, noop);
      r := Dropped(newElements, invalid || present);
    }

    /**
     * `_removeElement(elementID, cb, dispatchElementRemove)`; the state's
     * `updateState` ignores the element id passed as its fifth argument.
     */
    method RemoveElement(elementID: Option<string>, cb: Handle, dispatchElementRemove: bool)
      requires store.Valid()
      modifies this`droppedElements, store`tree, store`calls
      ensures store.Valid()
      ensures droppedElements == RemoveFirst(old(droppedElements), elementID)
      ensures Committed(droppedElements, cb)
    {
      droppedElements := RemoveFirst(droppedElements, elementID);
      store.UpdateState(id, parentID, droppedElements, cb);
    }

    /**
     * `_updateElement(newData, cb)`: `false` stands for the early `return cb(null)`
     * when no element has the id, `true` for a committed edit.
     */
    method UpdateElement(newData: Element, cb: Handle) returns (r: bool)
      requires store.Valid()
      modifies this`droppedElements, this`calls, store`tree, store`calls
      ensures store.Valid()
      ensures r <==> newData.id in Ids(old(droppedElements))
      ensures !r ==> (droppedElements == old(droppedElements) && calls == old(calls) + [Invoke(cb, NullArg)]
        && unchanged(store))
      ensures r ==> (droppedElements == Edited(old(droppedElements), newData) && calls == old(calls)
        && Committed(droppedElements, cb))
    {
      var elementIndex := IndexOfId(droppedElements, newData.id);
      if elementIndex.None? {
        calls := calls + [Invoke(cb, NullArg)];
        return false;
      }
      droppedElements := Edited(droppedElements, newData);
      store.UpdateState(id, parentID, droppedElements, cb);
      return true;
    }

    /**
     * `_setInitialElements(initialElements)`: `None` is a value that is not an
     * array; `done` is the callback that sets `initDone` once the state has the list.
     */
    method SetInitialElements(input: Option<seq<Element>>, done: Handle)
      requires store.Valid()
      modifies this`initialElements, this`droppedElements, this`initDone, store`tree, store`calls
      ensures store.Valid()
      ensures var gotInitialItems := input.Some? && |input.value| > 0 && !old(initDone) && |old(initialElements)| == 0;
        if gotInitialItems then
          && initialElements == WithKeys(Adopt(input.value, id, parentID))
          && droppedElements == initialElements
          && initDone
          && Committed(initialElements, done)
        else
          && initialElements == old(initialElements)
          && droppedElements == old(droppedElements)
          && initDone == old(initDone)
          && unchanged(store)
    {
      if input.Some? && |input.value| > 0 && !initDone && |initialElements| == 0 {
        var updatedInitialItems := WithKeys(Adopt(input.value, id, parentID));
        initialElements := updatedInitialItems;
        droppedElements := updatedInitialItems;
        store.UpdateState(id, parentID, droppedElements, done);
        initDone := true;
      }
    }

    /** `dangerouslySetElements(data, done)` */
    method DangerouslySetElements(data: ElementsSource, done: Handle)
      requires store.Valid()
      modifies this`initialElements, this`droppedElements, store`tree, store`calls
      ensures store.Valid()
      ensures var elements := match data
        case Given(items) => items
        case Computed(result) => if result.Some? then result.value else [];
        && initialElements == Adopt(elements, id, parentID)
        && droppedElements == initialElements
        && Committed(initialElements, done)
    {
      var elements: seq<Element> := [];
      match data {
        case Given(items) =>
          elements := items;
        case Computed(result) =>
          if result.Some? {
            elements := result.value;
          }
      }
      elements := Adopt(elements, id, parentID);
      initialElements := elements;
      droppedElements := elements;
      store.UpdateState(id, parentID, droppedElements, done);
    }

    /** `_flushDroppedElements(cb)`: empty both lists and commit the empty list. */
    method FlushDroppedElements(cb: Handle)
      requires store.Valid()
      modifies this`initialElements, this`droppedElements, store`tree, store`calls
      ensures store.Valid()
      ensures initialElements == [] && droppedElements == []
      ensures Committed([], cb)
    {
      initialElements := [];
      droppedElements := [];
      store.UpdateState(id, parentID, droppedElements, cb);
    }

    /** `findFields(fields)` */
    method FindFields(fields: seq<Element>) returns (r: Found)
      ensures r == FindIn(parentID, fields)
      decreases fields, 1
    {
      for i := 0 to |fields|
        invariant FindIn(parentID, fields) == FindIn(parentID, fields[i..])
      {
        var element := fields[i];
        assert fields[i..][1..] == fields[i + 1..];
        if element.id == Some(parentID) {
          return Match(element.initialElements);
        } else if HasInitial(element) {
          var thrown := Probe(element);
          if thrown {
            return Thrown;
          }
        }
      }
      return NoMatch;
    }

    /** The recursive `this.findFields(element.fields)`: whether it throws. */
    method Probe(e: Element) returns (thrown: bool)
      ensures thrown == ProbeThrows(parentID, e)
      decreases e
    {
      match e.fields {
        case Absent =>
          thrown := true;
        case Present(items) =>
          var r := FindFields(items);
          thrown := r == Thrown;
      }
    }
  }

  /**
   * The scan `_addElement` runs over the zone's list: how many elements carry the
   * id, and the last index among them.
   */
  method ScanForId(s: seq<Element>, id: Option<string>) returns (count: nat, index: Option<nat>)
    ensures count == CountId(s, id)
    ensures index == LastIndexOfId(s, id)
  {
    count, index := 0, None;
    for i := 0 to |s|
      invariant count == CountId(s[..i], id)
      invariant index == LastIndexOfId(s[..i], id)
    {
      assert s[..i + 1][..i] == s[..i];
      if s[i].id == id {
        count := count + 1;
        index := Some(i);
      }
    }
    assert s[..|s|] == s;
  }
}
