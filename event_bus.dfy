/** The refactored event bus (refacto/core/EventBus.js): a registry of
    callbacks per event name, updated in place. Callbacks are identified by
    a number; what they do is not modelled, only whether a call throws. */
module EventBus {
  import opened Listeners
  import Tree

  type Callback = nat

  /** The callbacks of s that throw, in order: the ones whose error
      `emit` logs. */
  function Failing(s: seq<Callback>, throws: set<Callback>): (r: seq<Callback>)
    ensures forall c :: c in r <==> c in s && c in throws
  {
    if s == [] then []
    else (if s[0] in throws then [s[0]] else []) + Failing(s[1..], throws)
  }

  lemma {:induction false} FailingAppend(a: seq<Callback>, b: seq<Callback>, throws: set<Callback>)
    ensures Failing(a + b, throws) == Failing(a, throws) + Failing(b, throws)
  {
    if a != [] {
      assert (a + b)[1..] == a[1..] + b;
      FailingAppend(a[1..], b, throws);
    } else {
      assert a + b == b;
    }
  }

  class EventBus {
    var events: Registry<Callback>

    constructor ()
      ensures events == map[]
    {
      events := map[];
    }

    /** `on(event, callback)`. */
    method On(event: string, callback: Callback)
      modifies this`events
      ensures events == Subscribe(old(events), event, callback)
    {
      if event !in events {
        events := events[event := []];
      }
      events := events[event := events[event] + [callback]];
    }

    /** `off(event, callback)`. */
    method Off(event: string, callback: Callback)
      modifies this`events
      ensures events == Unsubscribe(old(events), event, callback)
    {
      if event !in events {
        return;
      }
      var index := IndexOf(events[event], callback);
      if index > -1 {
        events := events[event := RemoveFirst(events[event], callback)];
      }
    }

    /** `emit(event, ...args)`: every listener of the event is called once,
        in registration order; a throwing one is logged and the loop goes
        on. Returns the calls made and the callbacks whose error was
        logged. */
    method Emit(event: string, throws: set<Callback>) returns (calls: seq<Callback>, logged: seq<Callback>)
      ensures calls == Of(events, event)
      ensures logged == Failing(Of(events, event), throws)
    {
      calls, logged := [], [];
      if event !in events {
        return;
      }
      var list := events[event];
      var i := 0;
      while i < |list|
        invariant 0 <= i <= |list|
        invariant calls == list[..i]
        invariant logged == Failing(list[..i], throws)
      {
        var callback := list[i];
        calls := calls + [callback];
        if callback in throws {
          logged := logged + [callback];
        }
        FailingAppend(list[..i], [callback], throws);
        assert list[..i + 1] == list[..i] + [callback];
        i := i + 1;
      }
      assert list[..i] == list;
    }

    /** `clear(event)`; `None` is a call without an argument. */
    method Clear(event: Tree.Option<string>)
      modifies this`events
      ensures events == Listeners.Clear(old(events), event)
    {
      if event.Some? && event.value != "" {
        events := events - {event.value};
      } else {
        events := map[];
      }
    }

    /** `listenerCount(event)`. */
    method ListenerCount(event: string) returns (n: nat)
      ensures n == Count(events, event)
    {
      if event !in events {
        return 0;
      }
      return |events[event]|;
    }
  }

  /** Example, mirroring the bus tests: a handler registered then emitted to is called; after
      `off` it is not; an unknown event calls nothing. */
  lemma BusExamples(handler: Callback, reg: Registry<Callback>)
    requires reg == map[]
    ensures Of(Subscribe(reg, "test", handler), "test") == [handler]
    ensures Of(Unsubscribe(Subscribe(reg, "test", handler), "test", handler), "test") == []
    ensures Of(Subscribe(reg, "test", handler), "inconnu") == []
  {
    RemoveFirstAfterAppend([], handler);
  }
}
