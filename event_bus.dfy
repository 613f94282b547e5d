/** The cross-screen event bus (utils/eventBus.ts): a registry keyed by event
    name holding an ordered list of listeners per name. Callbacks are opaque
    identities here; what a callback does when it runs is not modelled. */
module EventBus {

  /** A listener, known only by its identity (JavaScript's `===` on functions). */
  type Callback = nat

  /** The unsubscribe function `createEventListener` returns: it closes over
      the event name and the callback. */
  datatype Unsubscriber = Unsubscriber(eventName: string, callback: Callback)

  /** `Array.prototype.indexOf`: the first position of `x`, or -1. */
  function IndexOf(s: seq<Callback>, x: Callback): (r: int)
    ensures -1 <= r < |s|
    ensures r == -1 <==> x !in s
    ensures r >= 0 ==> s[r] == x && forall j :: 0 <= j < r ==> s[j] != x
  {
    if s == [] then -1
    else if s[0] == x then 0
    else
      var k := IndexOf(s[1..], x);
      if k == -1 then -1 else k + 1
  }

  /** `indexOf` followed by `splice(index, 1)` when found. */
  function RemoveFirst(s: seq<Callback>, x: Callback): (r: seq<Callback>)
    ensures x !in s ==> r == s
    ensures x in s ==> |r| == |s| - 1 && multiset(r) == multiset(s) - multiset{x}
    ensures x in s ==> forall j :: 0 <= j < |r| ==>
      r[j] == if j < IndexOf(s, x) then s[j] else s[j + 1]
  {
    var i := IndexOf(s, x);
    if i == -1 then s
    else
      SpliceOne(s, i);
      s[..i] + s[i + 1..]
  }

  /** `splice(i, 1)` removes exactly the element at `i` and shifts the rest left. */
  lemma SpliceOne(s: seq<Callback>, i: nat)
    requires i < |s|
    ensures multiset(s[..i] + s[i + 1..]) == multiset(s) - multiset{s[i]}
    ensures forall j :: 0 <= j < |s| - 1 ==> (s[..i] + s[i + 1..])[j] == if j < i then s[j] else s[j + 1]
  {
    assert s == s[..i] + [s[i]] + s[i + 1..];
  }

  /** Subscribing a callback that is not yet registered and then calling its
      unsubscriber gives back the list as it was. */
  lemma SubscribeThenUnsubscribe(s: seq<Callback>, x: Callback)
    requires x !in s
    ensures RemoveFirst(s + [x], x) == s
  {
    assert IndexOf(s + [x], x) == |s|;
    assert (s + [x])[..|s|] == s;
  }

  /** The first occurrence is the only position with `x` and none before it. */
  lemma IndexOfIsFirst(s: seq<Callback>, x: Callback, i: int)
    requires 0 <= i < |s| && s[i] == x
    requires forall j :: 0 <= j < i ==> s[j] != x
    ensures IndexOf(s, x) == i
  {
  }

  /** When the callback was already registered, unsubscribing removes the
      earlier registration instead: the same listeners remain, the new one
      now at the end. */
  lemma SubscribeThenUnsubscribeDuplicate(s: seq<Callback>, x: Callback)
    requires x in s
    ensures RemoveFirst(s + [x], x) == RemoveFirst(s, x) + [x]
    ensures multiset(RemoveFirst(s + [x], x)) == multiset(s)
  {
    var i := IndexOf(s, x);
    var t := s + [x];
    IndexOfIsFirst(t, x, i);
    calc {
      RemoveFirst(t, x);
      t[..i] + t[i + 1..];
      { assert t[..i] == s[..i]; assert t[i + 1..] == s[i + 1..] + [x]; }
      s[..i] + (s[i + 1..] + [x]);
      (s[..i] + s[i + 1..]) + [x];
      RemoveFirst(s, x) + [x];
    }
  }

  /** The global registry. */
  class Registry {
    var listeners: map<string, seq<Callback>>

    constructor ()
      ensures listeners == map[]
    {
      listeners := map[];
    }

    /** The list registered under `eventName`, empty when there is none. */
    function ListenersOf(eventName: string): seq<Callback>
      reads this
    {
      if eventName in listeners then listeners[eventName] else []
    }

    /** `createEventListener`: creates the event's list if absent, appends the
        callback at its end, and returns the unsubscriber. */
    method CreateEventListener(eventName: string, callback: Callback) returns (unsubscribe: Unsubscriber)
      modifies this
      ensures listeners == old(listeners)[eventName := old(ListenersOf(eventName)) + [callback]]
      ensures eventName in listeners && unsubscribe == Unsubscriber(eventName, callback)
    {
      if eventName !in listeners {
        listeners := listeners[eventName := []];
      }
      listeners := listeners[eventName := listeners[eventName] + [callback]];
      unsubscribe := Unsubscriber(eventName, callback);
    }

    /** Calling the unsubscriber: removes the first occurrence of its callback
        from its event's list, if present, and nothing else. Its event always
        has a list, since only CreateEventListener makes unsubscribers and no
        operation removes a list. */
    method Unsubscribe(u: Unsubscriber)
      requires u.eventName in listeners
      modifies this
      ensures listeners == old(listeners)[u.eventName := RemoveFirst(old(listeners)[u.eventName], u.callback)]
    {
      var list := listeners[u.eventName];
      var index := IndexOf(list, u.callback);
      if index != -1 {
        listeners := listeners[u.eventName := list[..index] + list[index + 1..]];
      }
    }

    /** `emitEvent`: invokes every listener of `eventName` once, in
        registration order; returns the invocations in the order they happen.
        An event without a list invokes nothing. */
    method EmitEvent(eventName: string) returns (invoked: seq<Callback>)
      ensures invoked == ListenersOf(eventName)
      ensures eventName !in listeners ==> invoked == []
    {
      invoked := [];
      if eventName in listeners {
        var list := listeners[eventName];
        var i := 0;
        while i < |list|
          invariant 0 <= i <= |list|
          invariant invoked == list[..i]
        {
          invoked := invoked + [list[i]];
          i := i + 1;
        }
      }
    }
  }
}
