/** The in-memory event bus: handlers run one after the other, in the publisher, on a
    copy of the list taken before the first one runs (internal/events/in_memory.go:20-58). */
module EventBus {
  import opened Identifiers

  /** The Go type of an event. */
  type Kind = nat

  datatype Event = Event(kind: Kind, payload: nat)

  type HandlerID = nat

  datatype Subscription = Subscription(kind: Kind, handler: HandlerID)

  /** What a handler does with an event: it may subscribe others, and may fail. */
  datatype Reaction = Reaction(subscribes: seq<Subscription>, error: Option<nat>)

  datatype Error = NilEvent | NilHandler | HandlerFailed(code: nat)

  type Handlers = map<Kind, seq<HandlerID>>

  function ListOf(handlers: Handlers, kind: Kind): seq<HandlerID> {
    if kind in handlers then handlers[kind] else []
  }

  function Subscribed(handlers: Handlers, s: Subscription): Handlers {
    handlers[s.kind := ListOf(handlers, s.kind) + [s.handler]]
  }

  function SubscribedAll(handlers: Handlers, subscriptions: seq<Subscription>): Handlers
    decreases |subscriptions|
  {
    if subscriptions == [] then handlers
    else SubscribedAll(Subscribed(handlers, subscriptions[0]), subscriptions[1..])
  }

  predicate Fails(h: HandlerID, e: Event, react: (HandlerID, Event) -> Reaction) {
    react(h, e).error.Some?
  }

  /** How many handlers of a list are called: all up to the first that fails. */
  function Calls(list: seq<HandlerID>, e: Event, react: (HandlerID, Event) -> Reaction): (n: nat)
    ensures n <= |list|
  {
    if list == [] then 0 else if Fails(list[0], e, react) then 1 else 1 + Calls(list[1..], e, react)
  }

  function After(handlers: Handlers, called: seq<HandlerID>, e: Event, react: (HandlerID, Event) -> Reaction): Handlers {
    if called == [] then handlers
    else SubscribedAll(After(handlers, called[..|called| - 1], e, react), react(called[|called| - 1], e).subscribes)
  }

  /** A handler is called exactly when none before it fails. */
  lemma {:induction false} CallsExactly(list: seq<HandlerID>, e: Event, react: (HandlerID, Event) -> Reaction, i: nat)
    requires i < |list|
    ensures i < Calls(list, e, react) <==> forall j :: 0 <= j < i ==> !Fails(list[j], e, react)
  {
    if i > 0 && !Fails(list[0], e, react) {
      CallsExactly(list[1..], e, react, i - 1);
      assert forall j :: 0 < j < i ==> list[1..][j - 1] == list[j];
      if forall j :: 0 <= j < i - 1 ==> !Fails(list[1..][j], e, react) {
        forall j | 0 <= j < i
          ensures !Fails(list[j], e, react)
        {
          assert j > 0 ==> !Fails(list[1..][j - 1], e, react);
        }
      }
    }
  }

  /** The handlers that these subscriptions add for an event type, in turn. */
  function AddedFor(subscriptions: seq<Subscription>, kind: Kind): seq<HandlerID> {
    if subscriptions == [] then []
    else (if subscriptions[0].kind == kind then [subscriptions[0].handler] else []) + AddedFor(subscriptions[1..], kind)
  }

  /** All that these handlers subscribe when they are called, in turn. */
  function AllSubscribed(called: seq<HandlerID>, e: Event, react: (HandlerID, Event) -> Reaction): seq<Subscription> {
    if called == [] then []
    else AllSubscribed(called[..|called| - 1], e, react) + react(called[|called| - 1], e).subscribes
  }

  lemma {:induction false} SubscribedAllAppends(handlers: Handlers, subscriptions: seq<Subscription>, kind: Kind)
    ensures ListOf(SubscribedAll(handlers, subscriptions), kind) == ListOf(handlers, kind) + AddedFor(subscriptions, kind)
    decreases |subscriptions|
  {
    if subscriptions != [] {
      SubscribedAllAppends(Subscribed(handlers, subscriptions[0]), subscriptions[1..], kind);
    }
  }

  lemma {:induction false} AddedForAppends(a: seq<Subscription>, b: seq<Subscription>, kind: Kind)
    ensures AddedFor(a + b, kind) == AddedFor(a, kind) + AddedFor(b, kind)
  {
    if a == [] {
      assert a + b == b;
    } else {
      assert (a + b)[1..] == a[1..] + b;
      AddedForAppends(a[1..], b, kind);
    }
  }

  /** Publishing takes no handler away and changes no order: each event type's list grows
      by what the handlers that were called subscribed to it, in turn. */
  lemma {:induction false} AfterAppends(handlers: Handlers, called: seq<HandlerID>, e: Event, react: (HandlerID, Event) -> Reaction, kind: Kind)
    ensures ListOf(After(handlers, called, e, react), kind) == ListOf(handlers, kind) + AddedFor(AllSubscribed(called, e, react), kind)
  {
    if called != [] {
      var n := |called| - 1;
      AfterAppends(handlers, called[..n], e, react, kind);
      SubscribedAllAppends(After(handlers, called[..n], e, react), react(called[n], e).subscribes, kind);
      AddedForAppends(AllSubscribed(called[..n], e, react), react(called[n], e).subscribes, kind);
    }
  }

  lemma {:induction false} NoneFailed(list: seq<HandlerID>, n: nat, e: Event, react: (HandlerID, Event) -> Reaction)
    requires n <= |list| && forall j :: 0 <= j < n ==> !Fails(list[j], e, react)
    ensures n < |list| && Fails(list[n], e, react) ==> Calls(list, e, react) == n + 1
    ensures n == |list| ==> Calls(list, e, react) == n
  {
    if n > 0 {
      NoneFailed(list[1..], n - 1, e, react);
    }
  }

  class InMemoryEventBus {
    var handlers: Handlers

    constructor ()
      ensures handlers == map[]
    {
      handlers := map[];
    }

    /** None stands for a nil event or handler. */
    method Subscribe(kind: Option<Kind>, handler: Option<HandlerID>) returns (error: Option<Error>)
      modifies this
      ensures error == if kind.None? then Some(NilEvent) else if handler.None? then Some(NilHandler) else None
      ensures handlers == if error.Some? then old(handlers) else Subscribed(old(handlers), Subscription(kind.value, handler.value))
      ensures error.None? ==>
                forall k: Kind :: ListOf(handlers, k) == ListOf(old(handlers), k) + if k == kind.value then [handler.value] else []
    {
      if kind.None? {
        return Some(NilEvent);
      }
      if handler.None? {
        return Some(NilHandler);
      }
      handlers := handlers[kind.value := ListOf(handlers, kind.value) + [handler.value]];
      error := None;
    }

    /** The handlers there at the start are called, in the order they subscribed, up to
        the first that fails, whose error is returned; those that subscribe meanwhile
        are not called for this event, but stay subscribed. */
    method Publish(event: Option<Event>, react: (HandlerID, Event) -> Reaction) returns (called: seq<HandlerID>, error: Option<Error>)
      modifies this
      ensures event.None? ==> called == [] && error == Some(NilEvent) && handlers == old(handlers)
      ensures event.Some? ==>
                var list, e := ListOf(old(handlers), event.value.kind), event.value;
                && called == list[..Calls(list, e, react)]
                && handlers == After(old(handlers), called, e, react)
                && error == (if called != [] && Fails(called[|called| - 1], e, react)
                             then Some(HandlerFailed(react(called[|called| - 1], e).error.value)) else None)
    {
      called := [];
      if event.None? {
        return called, Some(NilEvent);
      }
      var e := event.value;
      var copied := ListOf(handlers, e.kind);
      for i := 0 to |copied|
        invariant called == copied[..i] && handlers == After(old(handlers), called, e, react)
        invariant forall j :: 0 <= j < i ==> !Fails(copied[j], e, react)
      {
        called := called + [copied[i]];
        assert called[..|called| - 1] == copied[..i];
        var reaction := react(copied[i], e);
        handlers := SubscribedAll(handlers, reaction.subscribes);
        if reaction.error.Some? {
          NoneFailed(copied, i, e, react);
          return called, Some(HandlerFailed(reaction.error.value));
        }
      }
      NoneFailed(copied, |copied|, e, react);
      error := None;
    }
  }
}
