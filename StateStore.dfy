// The `State` singleton of src/core/state.js: the tree, its one-channel listener
// registry, and the loops that search and rewrite the tree. Each loop is proved to
// compute the specification function of StateTree.

module StateStore {
  import opened Elements
  import opened Listeners
  import opened StateTree

  /**
   * The merge loop at src/core/state.js:44-59: each submitted element either
   * overwrites the first slot with its id or is queued, and the queue is appended.
   */
  method MergeFields(current: seq<Element>, updated: seq<Element>) returns (r: seq<Element>)
    ensures r == Merged(current, updated)
  {
    var fields := current;
    var fieldsToBeAdded: seq<Element> := [];
    var k := 0;
    while k < |updated|
      invariant 0 <= k <= |updated|
      invariant fields == Replaced(current, updated[..k])
      invariant fieldsToBeAdded == Unknown(current, updated[..k])
    {
      var uField := updated[k];
      TakeOneMore(updated, k);
      fields, fieldsToBeAdded := MergeOne(current, updated[..k], fields, fieldsToBeAdded, uField);
      k := k + 1;
    }
    assert updated[..k] == updated;
    if |fieldsToBeAdded| > 0 {
      fields := fields + fieldsToBeAdded;
    }
    r := fields;
  }

  /** One pass of the `forEach` at src/core/state.js:45-54. */
  method MergeOne(current: seq<Element>, done: seq<Element>, fields: seq<Element>,
                  fieldsToBeAdded: seq<Element>, uField: Element)
    returns (fields': seq<Element>, fieldsToBeAdded': seq<Element>)
    requires fields == Replaced(current, done)
    requires fieldsToBeAdded == Unknown(current, done)
    ensures fields' == Replaced(current, done + [uField])
    ensures fieldsToBeAdded' == Unknown(current, done + [uField])
  {
    IndexOfIdSameIds(fields, current, uField.id);
    ReplacedStep(current, done, uField);
    UnknownStep(current, done, uField);
    var fieldIndex := IndexOfId(fields, uField.id);
    fields', fieldsToBeAdded' := fields, fieldsToBeAdded;
    if fieldIndex.None? {
      fieldsToBeAdded' := fieldsToBeAdded + [uField];
    } else {
      fields' := fields[fieldIndex.value := uField];
    }
  }

  /**
   * `traverseAndUpdateTree` (src/core/state.js:25-82): rewrite the matching node's
   * `fields`, or search the child lists one by one, stopping at the first that
   * reports a match.
   */
  method TraverseAndUpdateTree(canvasID: string, parentID: string, updatedFields: seq<Element>, fields: seq<Element>)
    returns (r: seq<Element>, returnStatus: bool)
    ensures Outcome(r, returnStatus) == Traverse(canvasID, parentID, updatedFields, fields)
    decreases fields, 1
  {
    var matched := IndexOfId(fields, Some(parentID));
    if matched.Some? {
      var node := fields[matched.value];
      var newFields := ReconcileNode(canvasID, parentID, updatedFields, node.fields);
      r := fields[matched.value := node.(fields := newFields)];
      returnStatus := true;
    } else {
      r := SearchSiblingsLoop(canvasID, parentID, updatedFields, fields);
      returnStatus := false;
    }
  }

  /** The three branches at src/core/state.js:31-60, for the node that matched. */
  method ReconcileNode(canvasID: string, parentID: string, updatedFields: seq<Element>, current: Children)
    returns (r: Children)
    ensures r == Reconcile(canvasID, parentID, updatedFields, current)
  {
    if canvasID == parentID {
      r := Present(updatedFields);
    } else if current.Absent? || |updatedFields| == 0 {
      if canvasID != "" && current.Present? {
        r := Present(WithoutCanvas(current.items, canvasID));
      } else {
        r := Present(updatedFields);
      }
    } else {
      var merged := MergeFields(current.items, updatedFields);
      r := Present(merged);
    }
  }

  /** The `for` loop at src/core/state.js:66-78, with its early `break`. */
  method SearchSiblingsLoop(canvasID: string, parentID: string, updatedFields: seq<Element>, fields: seq<Element>)
    returns (r: seq<Element>)
    ensures r == SearchSiblings(canvasID, parentID, updatedFields, fields)
    decreases fields, 0
  {
    r := fields;
    var i := 0;
    while i < |fields|
      invariant 0 <= i <= |fields|
      invariant SearchedUpTo(canvasID, parentID, updatedFields, fields, r, i)
    {
      var status;
      r, status := SearchOne(canvasID, parentID, updatedFields, fields, r, i);
      if status {
        return;
      }
      i := i + 1;
    }
    assert r == r[..i];
  }

  /** Siblings before index i have been searched: `r` holds their new values. */
  ghost predicate SearchedUpTo(canvasID: string, parentID: string, updatedFields: seq<Element>,
                               fields: seq<Element>, r: seq<Element>, i: nat)
  {
    && i <= |fields| && |r| == |fields| && r[i..] == fields[i..]
    && SearchSiblings(canvasID, parentID, updatedFields, fields)
         == r[..i] + SearchSiblings(canvasID, parentID, updatedFields, fields[i..])
  }

  /** One iteration of that loop: search sibling i; a reported match ends the search. */
  method SearchOne(canvasID: string, parentID: string, updatedFields: seq<Element>,
                   fields: seq<Element>, r: seq<Element>, i: nat)
    returns (r': seq<Element>, status: bool)
    requires i < |fields|
    requires SearchedUpTo(canvasID, parentID, updatedFields, fields, r, i)
    ensures status ==> r' == SearchSiblings(canvasID, parentID, updatedFields, fields)
    ensures !status ==> SearchedUpTo(canvasID, parentID, updatedFields, fields, r', i + 1)
    decreases fields, 0, i
  {
    var child;
    child, status := DescendInto(canvasID, parentID, updatedFields, fields[i]);
    SearchedOneMore(canvasID, parentID, updatedFields, fields, r, i);
    r' := r[i := child];
  }

  /** Searching sibling i extends what has been searched, or ends the search. */
  lemma SearchedOneMore(canvasID: string, parentID: string, updatedFields: seq<Element>,
                        fields: seq<Element>, r: seq<Element>, i: nat)
    requires i < |fields|
    requires SearchedUpTo(canvasID, parentID, updatedFields, fields, r, i)
    ensures var (child, stop) := Descend(canvasID, parentID, updatedFields, fields[i]);
      && (stop ==> r[i := child] == SearchSiblings(canvasID, parentID, updatedFields, fields))
      && (!stop ==> SearchedUpTo(canvasID, parentID, updatedFields, fields, r[i := child], i + 1))
  {
    var (child, stop) := Descend(canvasID, parentID, updatedFields, fields[i]);
    SearchSiblingsStep(canvasID, parentID, updatedFields, fields, i);
    var rest := if stop then fields[i + 1..] else SearchSiblings(canvasID, parentID, updatedFields, fields[i + 1..]);
    SplitAdvance(r, fields, i, child, SearchSiblings(canvasID, parentID, updatedFields, fields), rest);
  }

  /**
   * The list algebra of one loop step: if `whole` is the searched prefix of `r`
   * followed by `child` and `rest`, it is the new prefix followed by `rest`.
   */
  lemma SplitAdvance<T>(r: seq<T>, fields: seq<T>, i: nat, child: T, whole: seq<T>, rest: seq<T>)
    requires i < |fields| && |r| == |fields| && r[i..] == fields[i..]
    requires whole == r[..i] + ([child] + rest)
    ensures whole == r[i := child][..i + 1] + rest
    ensures r[i := child][i + 1..] == fields[i + 1..]
    ensures r[i := child] == r[i := child][..i + 1] + fields[i + 1..]
  {
    SetThenSplit(r, i, child);
    assert r[i + 1..] == r[i..][1..] && fields[i + 1..] == fields[i..][1..];
  }

  lemma SearchSiblingsStep(canvasID: string, parentID: string, updatedFields: seq<Element>, fields: seq<Element>, i: nat)
    requires i < |fields|
    ensures SearchSiblings(canvasID, parentID, updatedFields, fields[i..]) ==
      var (head, stop) := Descend(canvasID, parentID, updatedFields, fields[i]);
      if stop then [head] + fields[i + 1..]
      else [head] + SearchSiblings(canvasID, parentID, updatedFields, fields[i + 1..])
  {
    assert fields[i..][0] == fields[i] && fields[i..][1..] == fields[i + 1..];
  }

  /** The body of that loop: `if (childFields) status = traverseAndUpdateTree(..., childFields)`. */
  method DescendInto(canvasID: string, parentID: string, updatedFields: seq<Element>, e: Element)
    returns (r: Element, status: bool)
    ensures (r, status) == Descend(canvasID, parentID, updatedFields, e)
    decreases e
  {
    r, status := e, false;
    if e.fields.Present? {
      var childFields;
      childFields, status := TraverseAndUpdateTree(canvasID, parentID, updatedFields, e.fields.items);
      r := e.(fields := Present(childFields));
    }
  }

  /** The root node every tree starts with. */
  function Root(fields: seq<Element>): (e: Element)
    ensures e.id == Some("root") && e.fields == Present(fields)
  {
    Plain("root").(fields := Present(fields))
  }

  /**
   * The root canvas mounts a drop zone whose id and parentID are both "root", so
   * its submissions take the bootstrap branch: root's `fields` become exactly the
   * submitted list, and an empty submission empties the page.
   */
  lemma RootCanvasReplaces(top: seq<Element>, updated: seq<Element>)
    ensures Traverse("root", "root", updated, [Root(top)]) == Outcome([Root(updated)], true)
  {
    assert IndexOfId([Root(top)], Some("root")) == Some(0);
  }

  /** The flush hooks of the top-level elements, in order. */
  function FlushHooks(top: seq<Element>): (r: seq<Call>)
    ensures |r| == |top|
    ensures forall i :: 0 <= i < |top| ==> r[i] == FlushHook(top[i])
  {
    if top == [] then [] else [FlushHook(top[0])] + FlushHooks(top[1..])
  }

  /**
   * What `clearState` calls: every top-level element's flush hook in order and,
   * from the last hook's callback, every `change` listener. An empty root calls nobody.
   */
  function ClearCalls(top: seq<Element>, change: seq<Handle>, tree: seq<Element>): (r: seq<Call>)
    ensures |r| == |top| + (if top == [] then 0 else |change|)
    ensures forall i :: 0 <= i < |top| ==> r[i] == FlushHook(top[i])
    ensures r[|top|..] == if top == [] then [] else CallsFor(change, TreeArg(tree))
  {
    FlushHooks(top) + (if |top| > 0 then CallsFor(change, TreeArg(tree)) else [])
  }

  /** Listeners are called only after every flush hook, and each exactly once. */
  lemma ClearCallsOrder(top: seq<Element>, change: seq<Handle>, tree: seq<Element>)
    ensures top == [] ==> ClearCalls(top, change, tree) == []
    ensures top != [] ==> |ClearCalls(top, change, tree)| == |top| + |change|
    ensures forall i :: 0 <= i < |ClearCalls(top, change, tree)| ==>
      (ClearCalls(top, change, tree)[i].FlushHook? <==> i < |top|)
  {
  }

  class State {
    /** `state.tree`: a one-element list holding the root. */
    var tree: seq<Element>
    /** `event.change`: the registered listeners. */
    var change: seq<Handle>
    /** Every listener and hook invocation so far, in order. */
    var calls: seq<Call>

    ghost predicate Valid()
      reads this
    {
      |tree| == 1 && tree[0].id == Some("root") && tree[0].fields.Present?
    }

    /** The state the module creates: a root with no fields and no listeners. */
    constructor ()
      ensures Valid()
      ensures tree == [Root([])] && change == [] && calls == []
    {
      tree := [Root([])];
      change := [];
      calls := [];
    }

    /** `notifyStateChange`: every `change` listener with the current tree. */
    method NotifyStateChange()
      modifies this`calls
      ensures calls == old(calls) + CallsFor(change, TreeArg(tree))
    {
      var arg := TreeArg(tree);
      for i := 0 to |change|
        invariant calls == old(calls) + CallsFor(change[..i], arg)
      {
        assert change[..i + 1] == change[..i] + [change[i]];
        CallsForConcat(change[..i], [change[i]], arg);
        calls := calls + [Invoke(change[i], arg)];
      }
      assert change[..|change|] == change;
    }

    /**
     * `updateState(canvasID, parentID, fields, cb)`: rewrite the tree, call `cb`
     * with the new tree, then every `change` listener with it.
     */
    method UpdateState(canvasID: string, parentID: string, fields: seq<Element>, cb: Handle)
      requires Valid()
      modifies this`tree, this`calls
      ensures Valid()
      ensures tree == Traverse(canvasID, parentID, fields, old(tree)).fields
      ensures calls == old(calls) + [Invoke(cb, TreeArg(tree))] + CallsFor(change, TreeArg(tree))
    {
      var newTree, _ := TraverseAndUpdateTree(canvasID, parentID, fields, tree);
      TraverseSameNodes(canvasID, parentID, fields, tree);
      tree := newTree;
      calls := calls + [Invoke(cb, TreeArg(tree))];
      NotifyStateChange();
    }

    /** `getState` */
    function GetState(): (r: seq<Element>)
      reads this
      requires Valid()
      ensures |r| == 1 && r[0].id == Some("root")
    {
      tree
    }

    /**
     * `clearState`: call each top-level element's flush hook, each of which calls
     * its callback at once; the last callback notifies the `change` listeners.
     * The hooks are opaque here: the tree itself is not changed.
     */
    method ClearState() returns (r: bool)
      requires Valid()
      modifies this`calls
      ensures r
      ensures calls == old(calls) + ClearCalls(tree[0].fields.items, change, tree)
    {
      var rootNode := tree[0];
      var top := rootNode.fields.items;
      var topLevelFields := |top|;
      for i := 0 to topLevelFields
        invariant Flushed(old(calls), top, i)
      {
        FlushOne(old(calls), top, i);
      }
      assert top[..topLevelFields] == top;
      return true;
    }

    /** After the hooks of `top[..i]`: their calls, and the notification once the last one ran. */
    ghost predicate Flushed(before: seq<Call>, top: seq<Element>, i: nat)
      reads this
    {
      && i <= |top|
      && calls == before + FlushHooks(top[..i])
        + (if i == |top| && i > 0 then CallsFor(change, TreeArg(tree)) else [])
    }

    /** One step of `clearState`'s `forEach`: the hook of `top[i]` and its callback. */
    method FlushOne(ghost before: seq<Call>, top: seq<Element>, i: nat)
      requires i < |top| && Flushed(before, top, i)
      modifies this`calls
      ensures Flushed(before, top, i + 1)
    {
      TakeOneMore(top, i);
      FlushHooksConcat(top[..i], [top[i]]);
      calls := calls + [FlushHook(top[i])];
      if i == |top| - 1 {
        NotifyStateChange();
      }
    }

    /** `addEventListener(eventName, cb)`; the only event is `change`. */
    method AddEventListener(eventName: string, cb: Callback) returns (r: AddResult)
      modifies this`change
      ensures cb.NotAFunction? ==> r == False && change == old(change)
      ensures cb.Function? && eventName != "change" ==> r == Null && change == old(change)
      ensures cb.Function? && eventName == "change" ==>
        r == Registered(cb.handle) && change == old(change) + [cb.handle]
    {
      if cb.NotAFunction? {
        return False;
      }
      r := Null;
      if eventName == "change" {
        change := change + [cb.handle];
        r := Registered(cb.handle);
      }
    }

    /** `removeEventListener(eventName, cb)`: drop every registration of `cb`. */
    method RemoveEventListener(eventName: string, cb: Callback)
      modifies this`change
      ensures change == if eventName == "change" then Without(old(change), cb) else old(change)
    {
      if eventName == "change" {
        change := Without(change, cb);
      }
    }
  }

  lemma {:induction false} CallsForConcat(a: seq<Handle>, b: seq<Handle>, arg: Payload)
    ensures CallsFor(a + b, arg) == CallsFor(a, arg) + CallsFor(b, arg)
  {
    var l, r := CallsFor(a + b, arg), CallsFor(a, arg) + CallsFor(b, arg);
    assert |l| == |r|;
    forall i | 0 <= i < |l| ensures l[i] == r[i] {
      if i < |a| {
        assert (a + b)[i] == a[i];
      } else {
        assert (a + b)[i] == b[i - |a|];
      }
    }
  }

  lemma {:induction false} FlushHooksConcat(a: seq<Element>, b: seq<Element>)
    ensures FlushHooks(a + b) == FlushHooks(a) + FlushHooks(b)
  {
    var l, r := FlushHooks(a + b), FlushHooks(a) + FlushHooks(b);
    assert |l| == |r|;
    forall i | 0 <= i < |l| ensures l[i] == r[i] {
      if i < |a| {
        assert (a + b)[i] == a[i];
      } else {
        assert (a + b)[i] == b[i - |a|];
      }
    }
  }
}
