// What the two listener registries (src/core/state.js and src/core/event.js) share:
// listeners are opaque handles standing for JavaScript function objects, and every
// call the registries make is recorded in order.

module Listeners {
  import opened Elements

  /** The identity of a JavaScript function object; `===` on functions is `==` here. */
  type Handle = nat

  /** An argument passed as a callback: a function, or any other value. */
  datatype Callback = Function(handle: Handle) | NotAFunction

  /** What `addEventListener` returns: `false`, `null`, or the registered callback. */
  datatype AddResult = False | Null | Registered(cb: Handle)

  /** The argument a listener is called with. */
  datatype Payload =
    | TreeArg(tree: seq<Element>)   // `change`: the whole tree
    | FlagArg(flag: bool)           // `flush`: always true
    | ElementArg(element: Element)  // `updateElement` and `removeElement`
    | NullArg                       // `cb(null)`

  /** One recorded call: a listener invoked with a payload, or an element's flush hook. */
  datatype Call = Invoke(listener: Handle, arg: Payload) | FlushHook(element: Element)

  /** `listeners.forEach(e => e(arg))`: each listener once, in registration order. */
  function CallsFor(listeners: seq<Handle>, arg: Payload): (r: seq<Call>)
    ensures |r| == |listeners|
    ensures forall i :: 0 <= i < |listeners| ==> r[i] == Invoke(listeners[i], arg)
  {
    if listeners == [] then [] else [Invoke(listeners[0], arg)] + CallsFor(listeners[1..], arg)
  }

  /** `listeners.filter(e => e !== cb)` */
  function Without(listeners: seq<Handle>, cb: Callback): (r: seq<Handle>)
    ensures |r| <= |listeners|
    ensures forall h :: h in r <==> h in listeners && Function(h) != cb
  {
    if listeners == [] then []
    else (if Function(listeners[0]) != cb then [listeners[0]] else []) + Without(listeners[1..], cb)
  }

  /** Removal keeps the remaining listeners in registration order. */
  lemma {:induction false} WithoutConcat(a: seq<Handle>, b: seq<Handle>, cb: Callback)
    ensures Without(a + b, cb) == Without(a, cb) + Without(b, cb)
  {
    if a != [] {
      assert (a + b)[0] == a[0];
      assert (a + b)[1..] == a[1..] + b;
      WithoutConcat(a[1..], b, cb);
    } else {
      assert a + b == b;
    }
  }

  /** Removing a callback that was never registered changes nothing. */
  lemma {:induction false} WithoutAbsent(listeners: seq<Handle>, cb: Callback)
    requires forall h :: h in listeners ==> Function(h) != cb
    ensures Without(listeners, cb) == listeners
  {
    if listeners != [] {
      WithoutAbsent(listeners[1..], cb);
    }
  }

  /** Registering then removing a fresh callback restores the list. */
  lemma AddThenRemove(listeners: seq<Handle>, h: Handle)
    requires h !in listeners
    ensures Without(listeners + [h], Function(h)) == listeners
  {
    WithoutConcat(listeners, [h], Function(h));
    WithoutAbsent(listeners, Function(h));
  }
}
