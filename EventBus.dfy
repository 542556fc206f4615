// The `RpmEvent` singleton of src/core/event.js: four named channels, each an
// ordered list of listeners, and the notify functions that call them.

module EventBus {
  import opened Elements
  import opened Listeners
  import StateStore

  /** The channels `this.event` is created with. */
  const Channels: set<string> := {"change", "flush", "removeElement", "updateElement"}

  /** The whole bus except one channel is as it was. */
  ghost predicate OthersUnchanged(before: map<string, seq<Handle>>, after: map<string, seq<Handle>>, name: string)
  {
    after.Keys == before.Keys && forall k :: k in before && k != name ==> after[k] == before[k]
  }

  class RpmEvent {
    /** `this.event`: channel name to listener list. */
    var event: map<string, seq<Handle>>
    /** Every listener call so far, in order. */
    var calls: seq<Call>
    /** The state whose tree `notifyStateChange` hands to listeners (`state.getState()`). */
    const state: StateStore.State

    ghost predicate Valid()
      reads this
    {
      event.Keys == Channels
    }

    constructor (state: StateStore.State)
      ensures Valid()
      ensures forall k :: k in event ==> event[k] == []
      ensures calls == [] && this.state == state
    {
      event := map["change" := [], "flush" := [], "removeElement" := [], "updateElement" := []];
      calls := [];
      this.state := state;
    }

    /** Call every listener of one channel, in order, with the same argument. */
    method Notify(channel: string, arg: Payload)
      requires Valid() && channel in Channels
      modifies this`calls
      ensures calls == old(calls) + CallsFor(event[channel], arg)
    {
      var listeners := event[channel];
      for i := 0 to |listeners|
        invariant calls == old(calls) + CallsFor(listeners[..i], arg)
      {
        TakeOneMore(listeners, i);
        StateStore.CallsForConcat(listeners[..i], [listeners[i]], arg);
        calls := calls + [Invoke(listeners[i], arg)];
      }
      assert listeners[..|listeners|] == listeners;
    }

    /** `notifyStateChange`: every `change` listener with the current tree. */
    method NotifyStateChange()
      requires Valid()
      modifies this`calls
      ensures calls == old(calls) + CallsFor(event["change"], TreeArg(state.tree))
    {
      Notify("change", TreeArg(state.tree));
    }

    /**
     * `notifyStateFlush(triggerChange)`: with `true`, first every `change` listener;
     * then every `flush` listener with `true`.
     */
    method NotifyStateFlush(triggerChange: bool)
      requires Valid()
      modifies this`calls
      ensures calls == old(calls)
        + (if triggerChange then CallsFor(event["change"], TreeArg(state.tree)) else [])
        + CallsFor(event["flush"], FlagArg(true))
    {
      if triggerChange {
        NotifyStateChange();
      }
      Notify("flush", FlagArg(true));
    }

    /** `notifyElementUpdate(element)` */
    method NotifyElementUpdate(element: Element)
      requires Valid()
      modifies this`calls
      ensures calls == old(calls) + CallsFor(event["updateElement"], ElementArg(element))
    {
      Notify("updateElement", ElementArg(element));
    }

    /** `notifyElementRemove(element)` */
    method NotifyElementRemove(element: Element)
      requires Valid()
      modifies this`calls
      ensures calls == old(calls) + CallsFor(event["removeElement"], ElementArg(element))
    {
      Notify("removeElement", ElementArg(element));
    }

    /**
     * `addEventListener(eventName, cb)`: a non-function gives `false`, an unknown
     * channel `null`; otherwise `cb` joins the end of its channel only.
     */
    method AddEventListener(eventName: string, cb: Callback) returns (r: AddResult)
      requires Valid()
      modifies this`event
      ensures Valid()
      ensures cb.NotAFunction? ==> r == False && event == old(event)
      ensures cb.Function? && eventName !in Channels ==> r == Null && event == old(event)
      ensures cb.Function? && eventName in Channels ==>
        && r == Registered(cb.handle)
        && event[eventName] == old(event[eventName]) + [cb.handle]
        && OthersUnchanged(old(event), event, eventName)
    {
      if cb.NotAFunction? {
        return False;
      }
      r := Null;
      if eventName in event {
        event := event[eventName := event[eventName] + [cb.handle]];
        r := Registered(cb.handle);
      }
    }

    /**
     * `removeEventListener(eventName, cb)`: every registration of `cb` leaves that
     * channel; an unknown channel changes nothing.
     */
    method RemoveEventListener(eventName: string, cb: Callback)
      requires Valid()
      modifies this`event
      ensures Valid()
      ensures eventName !in Channels ==> event == old(event)
      ensures eventName in Channels ==>
        && event[eventName] == Without(old(event[eventName]), cb)
        && OthersUnchanged(old(event), event, eventName)
    {
      if eventName in event {
        event := event[eventName := Without(event[eventName], cb)];
      }
    }
  }

  /**
   * The flush notification after a final change: every `change` listener precedes
   * every `flush` listener, and each flush listener receives `true`.
   */
  lemma FlushAfterChange(change: seq<Handle>, flush: seq<Handle>, tree: seq<Element>)
    ensures var calls := CallsFor(change, TreeArg(tree)) + CallsFor(flush, FlagArg(true));
      && |calls| == |change| + |flush|
      && (forall i :: 0 <= i < |change| ==> calls[i] == Invoke(change[i], TreeArg(tree)))
      && (forall i :: |change| <= i < |calls| ==> calls[i] == Invoke(flush[i - |change|], FlagArg(true)))
  {
  }
}
