// The reconciliation that src/core/state.js performs when a dropzone submits its
// list of elements: find the node whose id is the dropzone's parentID and rewrite
// that node's `fields` in one of three ways (bootstrap, filter or replace, merge).
// These are the specification functions; the loops that compute them are in
// StateStore.

module StateTree {
  import opened Elements

  // ---------------------------------------------------------------------------
  // The filter branch: drop the entries a canvas contributed
  // ---------------------------------------------------------------------------

  /** `fields.filter(f => f.canvasID !== canvasID)` */
  function WithoutCanvas(s: seq<Element>, canvasID: string): (r: seq<Element>)
    ensures |r| <= |s|
    ensures forall x :: x in r <==> x in s && x.canvasID != Some(canvasID)
  {
    if s == [] then []
    else (if s[0].canvasID != Some(canvasID) then [s[0]] else []) + WithoutCanvas(s[1..], canvasID)
  }

  /** The filter keeps the surviving entries in their original order. */
  lemma {:induction false} WithoutCanvasConcat(a: seq<Element>, b: seq<Element>, canvasID: string)
    ensures WithoutCanvas(a + b, canvasID) == WithoutCanvas(a, canvasID) + WithoutCanvas(b, canvasID)
  {
    if a != [] {
      assert (a + b)[0] == a[0];
      assert (a + b)[1..] == a[1..] + b;
      WithoutCanvasConcat(a[1..], b, canvasID);
    } else {
      assert a + b == b;
    }
  }

  /**
   * Elements built by a dropzone carry `dropzoneID` and never `canvasID`, so the
   * filter keeps every one of them.
   */
  lemma {:induction false} WithoutCanvasKeepsUntagged(s: seq<Element>, canvasID: string)
    requires forall x :: x in s ==> x.canvasID.None?
    ensures WithoutCanvas(s, canvasID) == s
  {
    if s != [] {
      WithoutCanvasKeepsUntagged(s[1..], canvasID);
    }
  }

  // ---------------------------------------------------------------------------
  // The merge branch
  // ---------------------------------------------------------------------------

  /** The last submitted element with this id: the one whose write to a slot survives. */
  function LastWithId(updated: seq<Element>, id: Option<string>): (r: Option<Element>)
    ensures r.Some? ==> r.value in updated && r.value.id == id
    ensures r.None? <==> id !in Ids(updated)
  {
    if updated == [] then None
    else if updated[|updated| - 1].id == id then Some(updated[|updated| - 1])
    else
      assert Ids(updated) == Ids(updated[..|updated| - 1]) + [updated[|updated| - 1].id] by {
        IdsConcat(updated[..|updated| - 1], [updated[|updated| - 1]]);
        assert updated[..|updated| - 1] + [updated[|updated| - 1]] == updated;
      }
      LastWithId(updated[..|updated| - 1], id)
  }

  /**
   * What slot j of the current list holds after the merge: a slot is overwritten
   * only when it is the first slot with its id and some submitted element has that id.
   */
  function Slot(current: seq<Element>, updated: seq<Element>, j: nat): (r: Element)
    requires j < |current|
    ensures r.id == current[j].id
    ensures r == current[j] || r in updated
  {
    if IndexOfId(current, current[j].id) == Some(j) then
      match LastWithId(updated, current[j].id)
      case Some(u) => u
      case None => current[j]
    else current[j]
  }

  /** The existing slots after every submitted element with a known id has replaced its slot. */
  function Replaced(current: seq<Element>, updated: seq<Element>): (r: seq<Element>)
    ensures |r| == |current|
    ensures forall j :: 0 <= j < |current| ==> r[j] == Slot(current, updated, j)
    ensures Ids(r) == Ids(current)
  {
    seq(|current|, j requires 0 <= j < |current| => Slot(current, updated, j))
  }

  /** The submitted elements whose id the current list lacks, in submitted order. */
  function Unknown(current: seq<Element>, updated: seq<Element>): (r: seq<Element>)
    ensures |r| <= |updated|
    ensures forall x :: x in r <==> x in updated && x.id !in Ids(current)
  {
    if updated == [] then []
    else
      var last := updated[|updated| - 1];
      Unknown(current, updated[..|updated| - 1]) + (if last.id !in Ids(current) then [last] else [])
  }

  /**
   * The merge branch at src/core/state.js:43-60: known ids overwrite their slot in
   * place, unknown ids are appended. No current slot is removed or moved.
   */
  function Merged(current: seq<Element>, updated: seq<Element>): (r: seq<Element>)
    ensures |r| == |current| + |Unknown(current, updated)|
    ensures Ids(r[..|current|]) == Ids(current)
    ensures r[|current|..] == Unknown(current, updated)
  {
    var r := Replaced(current, updated) + Unknown(current, updated);
    assert r[..|current|] == Replaced(current, updated);
    r
  }

  /** The step the merge loop takes for one more submitted element. */
  lemma ReplacedStep(current: seq<Element>, us: seq<Element>, u: Element)
    ensures Replaced(current, us + [u]) ==
      match IndexOfId(current, u.id)
      case None => Replaced(current, us)
      case Some(i) => Replaced(current, us)[i := u]
  {
    var before, after := Replaced(current, us), Replaced(current, us + [u]);
    forall j | 0 <= j < |current|
      ensures after[j] == if IndexOfId(current, u.id) == Some(j) then u else before[j]
    {
      SlotStep(current, us, u, j);
    }
  }

  /** One more submitted element rewrites only the first slot of its id. */
  lemma SlotStep(current: seq<Element>, us: seq<Element>, u: Element, j: nat)
    requires j < |current|
    ensures Slot(current, us + [u], j) == if IndexOfId(current, u.id) == Some(j) then u else Slot(current, us, j)
  {
    assert (us + [u])[..|us|] == us;
    assert LastWithId(us + [u], current[j].id) ==
      if u.id == current[j].id then Some(u) else LastWithId(us, current[j].id);
  }

  lemma UnknownStep(current: seq<Element>, us: seq<Element>, u: Element)
    ensures Unknown(current, us + [u]) ==
      Unknown(current, us) + (if u.id !in Ids(current) then [u] else [])
  {
    assert (us + [u])[..|us|] == us;
  }

  /**
   * Resubmitting a node's children with the same ids in the same order (their
   * content may differ) makes the merged list exactly the submitted one.
   */
  lemma MergedSameIds(current: seq<Element>, updated: seq<Element>)
    requires UniqueIds(current)
    requires Ids(updated) == Ids(current)
    ensures Merged(current, updated) == updated
  {
    assert |updated| == |current|;
    UnknownAllKnown(current, updated);
    UniqueIdsSameIds(current, updated);
    var replaced := Replaced(current, updated);
    forall j | 0 <= j < |current|
      ensures replaced[j] == updated[j]
    {
      UniqueIdsIndex(current, j);
      LastWithIdUnique(updated, j);
      assert updated[j].id == Ids(updated)[j] == current[j].id;
    }
    assert replaced == updated;
    assert Merged(current, updated) == replaced + [];
  }

  lemma {:induction false} UnknownAllKnown(current: seq<Element>, updated: seq<Element>)
    requires forall k :: 0 <= k < |updated| ==> updated[k].id in Ids(current)
    ensures Unknown(current, updated) == []
  {
    if updated != [] {
      UnknownAllKnown(current, updated[..|updated| - 1]);
    }
  }

  lemma UniqueIdsSameIds(current: seq<Element>, updated: seq<Element>)
    requires UniqueIds(current)
    requires Ids(updated) == Ids(current)
    ensures UniqueIds(updated)
  {
    forall a, b | 0 <= a < b < |updated|
      ensures updated[a].id != updated[b].id
    {
      assert Ids(updated)[a] == current[a].id && Ids(updated)[b] == current[b].id;
    }
  }

  /** Resubmitting a node's current children leaves them unchanged. */
  lemma MergedIdempotent(current: seq<Element>)
    requires UniqueIds(current)
    ensures Merged(current, current) == current
  {
    MergedSameIds(current, current);
  }

  /**
   * Without unique sibling ids the merge is not idempotent: both writes of a
   * repeated id land on its first slot, so resubmitting the list changes it.
   */
  lemma MergedRepeatedId()
    ensures var a1 := Plain("a");
      var a2 := Plain("a").(name := Some("second"));
      Merged([a1, a2], [a1, a2]) == [a2, a2] != [a1, a2]
  {
    var a1 := Plain("a");
    var a2 := Plain("a").(name := Some("second"));
    var s := [a1, a2];
    assert s[..1] == [a1];
    assert LastWithId(s, a1.id) == Some(a2);
    assert Slot(s, s, 0) == a2;
    assert IndexOfId(s, a2.id) == Some(0);
    assert Slot(s, s, 1) == a2;
    assert Replaced(s, s)[0] == a2 && Replaced(s, s)[1] == a2;
    assert Unknown(s, s) == [] by {
      UnknownAllKnown(s, s);
    }
  }

  lemma {:induction false} LastWithIdUnique(s: seq<Element>, j: nat)
    requires UniqueIds(s) && j < |s|
    ensures LastWithId(s, s[j].id) == Some(s[j])
  {
    if j < |s| - 1 {
      LastWithIdUnique(s[..|s| - 1], j);
    }
  }

  /**
   * In the merge, the first slot of a submitted id ends up holding the last
   * submitted element with that id, and a slot no submitted element names keeps
   * its element.
   */
  lemma MergedSlot(current: seq<Element>, updated: seq<Element>, j: nat)
    requires j < |current|
    ensures LastWithId(updated, current[j].id).None? ==> Merged(current, updated)[j] == current[j]
    ensures IndexOfId(current, current[j].id) == Some(j) && LastWithId(updated, current[j].id).Some? ==>
      Merged(current, updated)[j] == LastWithId(updated, current[j].id).value
  {
    assert Merged(current, updated)[j] == Replaced(current, updated)[j];
  }

  // ---------------------------------------------------------------------------
  // One node's rewrite
  // ---------------------------------------------------------------------------

  /**
   * The new `fields` of the node that matched parentID (src/core/state.js:31-60).
   * `current` is the node's `fields` key and `updated` the submitted list.
   */
  function Reconcile(canvasID: string, parentID: string, updated: seq<Element>, current: Children): (r: Children)
    ensures r.Present?
  {
    if canvasID == parentID then
      Present(updated)
    else if current.Absent? || |updated| == 0 then
      if canvasID != "" && current.Present? then Present(WithoutCanvas(current.items, canvasID))
      else Present(updated)
    else
      Present(Merged(current.items, updated))
  }

  // ---------------------------------------------------------------------------
  // The depth-first search
  // ---------------------------------------------------------------------------

  /** What `traverseAndUpdateTree` leaves in a sibling list, and what it returns. */
  datatype Outcome = Outcome(fields: seq<Element>, status: bool)

  /** The sibling list differs from the original only in the `fields` of its nodes. */
  predicate SameNodes(before: seq<Element>, after: seq<Element>)
  {
    && |after| == |before|
    && forall j :: 0 <= j < |before| ==>
         after[j] == before[j].(fields := after[j].fields)
         && (before[j].fields.Present? ==> after[j].fields.Present?)
  }

  /**
   * `traverseAndUpdateTree(canvasID, parentID, updated, fields)`: rewrite the first
   * node of `fields` whose id is parentID; failing that, search each child list in
   * turn. The status is true only for a match in `fields` itself, because the
   * recursive branch never sets `returnStatus`.
   */
  function Traverse(canvasID: string, parentID: string, updated: seq<Element>, fields: seq<Element>): (r: Outcome)
    ensures r.status <==> Some(parentID) in Ids(fields)
    decreases fields, 1
  {
    match IndexOfId(fields, Some(parentID))
    case Some(i) =>
      var node := fields[i];
      Outcome(fields[i := node.(fields := Reconcile(canvasID, parentID, updated, node.fields))], true)
    case None =>
      Outcome(SearchSiblings(canvasID, parentID, updated, fields), false)
  }

  /**
   * A match in the list itself rewrites the `fields` of the first node with that
   * id and of no other node.
   */
  lemma TraverseFirstMatch(canvasID: string, parentID: string, updated: seq<Element>, fields: seq<Element>)
    requires Some(parentID) in Ids(fields)
    ensures var i := IndexOfId(fields, Some(parentID)).value;
      var after := Traverse(canvasID, parentID, updated, fields).fields;
      && |after| == |fields|
      && after[i] == fields[i].(fields := Reconcile(canvasID, parentID, updated, fields[i].fields))
      && forall j :: 0 <= j < |fields| && j != i ==> after[j] == fields[j]
  {
  }

  /**
   * A match two levels down does not stop the sibling loop, because only a match
   * in a list itself sets `returnStatus`: here the node "p" under both "a" and "c"
   * is rewritten, and the call still answers false.
   */
  lemma DeepMatchesBothRewritten()
    ensures var x := Plain("x");
      var p := Plain("p");
      var p' := p.(fields := Present([x]));
      var a := Plain("a").(fields := Present([Plain("b").(fields := Present([p]))]));
      var c := Plain("c").(fields := Present([Plain("d").(fields := Present([p]))]));
      Traverse("q", "p", [x], [a, c]) == Outcome([
        a.(fields := Present([Plain("b").(fields := Present([p']))])),
        c.(fields := Present([Plain("d").(fields := Present([p']))]))], false)
  {
    var x := Plain("x");
    var p := Plain("p");
    var p' := p.(fields := Present([x]));
    var b := Plain("b").(fields := Present([p]));
    var d := Plain("d").(fields := Present([p]));
    var a := Plain("a").(fields := Present([b]));
    var c := Plain("c").(fields := Present([d]));
    assert Traverse("q", "p", [x], [p]) == Outcome([p'], true);
    assert Traverse("q", "p", [x], [b]) == Outcome([b.(fields := Present([p']))], false) by {
      assert IndexOfId([b], Some("p")) == None;
      assert Descend("q", "p", [x], b) == (b.(fields := Present([p'])), true);
    }
    assert Traverse("q", "p", [x], [d]) == Outcome([d.(fields := Present([p']))], false) by {
      assert IndexOfId([d], Some("p")) == None;
      assert Descend("q", "p", [x], d) == (d.(fields := Present([p'])), true);
    }
    var a' := a.(fields := Present([b.(fields := Present([p']))]));
    var c' := c.(fields := Present([d.(fields := Present([p']))]));
    assert Descend("q", "p", [x], a) == (a', false);
    assert Descend("q", "p", [x], c) == (c', false);
    assert [a, c][1..] == [c];
    assert SearchSiblings("q", "p", [x], [c]) == [c'] by {
      assert [c][1..] == [];
    }
    assert IndexOfId([a, c], Some("p")) == None;
  }

  /** The loop at src/core/state.js:66-78: descend into each child list until one reports a match. */
  function SearchSiblings(canvasID: string, parentID: string, updated: seq<Element>, fields: seq<Element>): (r: seq<Element>)
    ensures |r| == |fields|
    decreases fields, 0
  {
    if fields == [] then []
    else
      var (head, stop) := Descend(canvasID, parentID, updated, fields[0]);
      if stop then [head] + fields[1..]
      else [head] + SearchSiblings(canvasID, parentID, updated, fields[1..])
  }

  /** One iteration of that loop: search the element's own `fields`, if it has any. */
  function Descend(canvasID: string, parentID: string, updated: seq<Element>, e: Element): (r: (Element, bool))
    ensures e.fields.Absent? ==> r == (e, false)
    decreases e
  {
    match e.fields
    case Absent => (e, false)
    case Present(kids) =>
      var o := Traverse(canvasID, parentID, updated, kids);
      (e.(fields := Present(o.fields)), o.status)
  }

  /**
   * The search changes nothing but `fields` keys: every sibling keeps its place and
   * all its other keys, and a node that had `fields` still has them.
   */
  lemma {:induction false} TraverseSameNodes(canvasID: string, parentID: string, updated: seq<Element>, fields: seq<Element>)
    ensures SameNodes(fields, Traverse(canvasID, parentID, updated, fields).fields)
    decreases fields, 1
  {
    if IndexOfId(fields, Some(parentID)).None? {
      SearchSiblingsSameNodes(canvasID, parentID, updated, fields);
    }
  }

  lemma {:induction false} SearchSiblingsSameNodes(canvasID: string, parentID: string, updated: seq<Element>, fields: seq<Element>)
    ensures SameNodes(fields, SearchSiblings(canvasID, parentID, updated, fields))
    decreases fields, 0
  {
    if fields != [] {
      DescendSameNode(canvasID, parentID, updated, fields[0]);
      var (head, stop) := Descend(canvasID, parentID, updated, fields[0]);
      if !stop {
        SearchSiblingsSameNodes(canvasID, parentID, updated, fields[1..]);
      }
    }
  }

  lemma {:induction false} DescendSameNode(canvasID: string, parentID: string, updated: seq<Element>, e: Element)
    ensures Descend(canvasID, parentID, updated, e).0 == e.(fields := Descend(canvasID, parentID, updated, e).0.fields)
    ensures e.fields.Present? ==> Descend(canvasID, parentID, updated, e).0.fields.Present?
    decreases e
  {
  }

  /** Some node reachable through `fields` keys has this id. */
  predicate Occurs(fields: seq<Element>, id: string)
    decreases fields
  {
    fields != [] && (OccursIn(fields[0], id) || Occurs(fields[1..], id))
  }

  predicate OccursIn(e: Element, id: string)
    decreases e
  {
    e.id == Some(id) || (e.fields.Present? && Occurs(e.fields.items, id))
  }

  /** A search that matches nowhere leaves the tree as it was and reports false. */
  lemma {:induction false} TraverseNoMatch(canvasID: string, parentID: string, updated: seq<Element>, fields: seq<Element>)
    requires !Occurs(fields, parentID)
    ensures Traverse(canvasID, parentID, updated, fields) == Outcome(fields, false)
    decreases fields, 1
  {
    NotOccursNoId(fields, parentID);
    SearchSiblingsNoMatch(canvasID, parentID, updated, fields);
  }

  lemma {:induction false} SearchSiblingsNoMatch(canvasID: string, parentID: string, updated: seq<Element>, fields: seq<Element>)
    requires !Occurs(fields, parentID)
    ensures SearchSiblings(canvasID, parentID, updated, fields) == fields
    decreases fields, 0
  {
    if fields != [] {
      DescendNoMatch(canvasID, parentID, updated, fields[0]);
      SearchSiblingsNoMatch(canvasID, parentID, updated, fields[1..]);
    }
  }

  lemma {:induction false} DescendNoMatch(canvasID: string, parentID: string, updated: seq<Element>, e: Element)
    requires !OccursIn(e, parentID)
    ensures Descend(canvasID, parentID, updated, e) == (e, false)
    decreases e
  {
    match e.fields
    case Absent =>
    case Present(kids) =>
      TraverseNoMatch(canvasID, parentID, updated, kids);
  }

  lemma {:induction false} NotOccursNoId(fields: seq<Element>, id: string)
    requires !Occurs(fields, id)
    ensures Some(id) !in Ids(fields)
  {
    if fields != [] {
      NotOccursNoId(fields[1..], id);
      assert Ids(fields) == [fields[0].id] + Ids(fields[1..]);
    }
  }
}
