/** The archived event bus (refacto-archive/code-extraits/EventBus.js):
    the same registry as the refactored bus, plus an initialised flag,
    unsubscribe handles, one-shot listeners and the re-emission of
    `'error:occurred'` when a listener throws. Callbacks are numbers; which
    of them throw is a parameter, and a one-shot listener is the wrapper
    closure `once` registers, told apart from others by a token. */
module ArchiveEventBus {
  import opened Listeners
  import Tree

  type Callback = nat

  /** `EVENTS.ERROR_OCCURRED`. */
  const ErrorOccurred := "error:occurred"

  /** A registered function: a callback given to `on`, or the fresh
      wrapper `once` builds, which calls its callback and then takes
      itself off the event. */
  datatype Listener = Direct(callback: Callback) | OnceWrapper(callback: Callback, token: nat)

  /** What an `emit` leaves behind: the registry, the callbacks called in
      order (nested error emissions included), and whether the nesting
      exhausted the stack, which makes `emit` throw. */
  datatype Outcome = Outcome(events: Registry<Listener>, calls: seq<Callback>, overflow: bool)

  function Then(pre: seq<Callback>, o: Outcome): Outcome {
    Outcome(o.events, pre + o.calls, o.overflow)
  }

  function Callbacks(s: seq<Listener>): (r: seq<Callback>)
    ensures |r| == |s| && forall i :: 0 <= i < |s| ==> r[i] == s[i].callback
  {
    if s == [] then [] else [s[0].callback] + Callbacks(s[1..])
  }

  /** The listeners `on` registered, in order: what is left of a list once
      every one-shot wrapper has run. */
  function Directs(s: seq<Listener>): (r: seq<Listener>)
    ensures forall l :: l in r <==> l in s && l.Direct?
  {
    if s == [] then []
    else (if s[0].Direct? then [s[0]] else []) + Directs(s[1..])
  }

  // ---------------------------------------------------------------------
  // emit, as written: `forEach` over the live array
  // ---------------------------------------------------------------------

  /** `emit(event)` with a stack that allows `depth` nested re-emissions. */
  function EmitLive(reg: Registry<Listener>, event: string, throws: set<Callback>, depth: nat): Outcome
    decreases depth, 1, 0
  {
    if event !in reg then Outcome(reg, [], false)
    else EmitFrom(reg, event, 0, |reg[event]|, throws, depth)
  }

  /** `forEach` visits the indices below the length the array had when it
      started, skipping any the array no longer reaches; a wrapper that
      removes itself shifts its successor down to the index just visited. */
  function EmitFrom(reg: Registry<Listener>, event: string, k: nat, len: nat, throws: set<Callback>, depth: nat): Outcome
    decreases depth, 0, len - k
  {
    if k >= len then Outcome(reg, [], false)
    else if k >= |Of(reg, event)| then EmitFrom(reg, event, k + 1, len, throws, depth)
    else
      var l := Of(reg, event)[k];
      if l.callback in throws then
        if depth == 0 then Outcome(reg, [l.callback], true)
        else
          var e := EmitLive(reg, ErrorOccurred, throws, depth - 1);
          if e.overflow then Then([l.callback], e)
          else Then([l.callback] + e.calls, EmitFrom(e.events, event, k + 1, len, throws, depth))
      else
        var r := if l.OnceWrapper? then Unsubscribe(reg, event, l) else reg;
        Then([l.callback], EmitFrom(r, event, k + 1, len, throws, depth))
  }

  lemma ThenThen(a: seq<Callback>, b: seq<Callback>, o: Outcome)
    ensures Then(a, Then(b, o)) == Then(a + b, o)
  {
    assert a + (b + o.calls) == (a + b) + o.calls;
  }

  /** One visit of `forEach` to index k by a callback that does not throw. */
  lemma EmitFromQuiet(reg: Registry<Listener>, event: string, k: nat, len: nat, throws: set<Callback>, depth: nat)
    requires k < len && k < |Of(reg, event)| && Of(reg, event)[k].callback !in throws
    ensures var l := Of(reg, event)[k];
      var r := if l.OnceWrapper? then Unsubscribe(reg, event, l) else reg;
      EmitFrom(reg, event, k, len, throws, depth) == Then([l.callback], EmitFrom(r, event, k + 1, len, throws, depth))
  {
  }

  /** One visit of `forEach` to index k by a callback that throws. */
  lemma EmitFromThrow(reg: Registry<Listener>, event: string, k: nat, len: nat, throws: set<Callback>, depth: nat)
    requires k < len && k < |Of(reg, event)| && Of(reg, event)[k].callback in throws && depth > 0
    ensures var c := Of(reg, event)[k].callback;
      var e := EmitLive(reg, ErrorOccurred, throws, depth - 1);
      EmitFrom(reg, event, k, len, throws, depth) ==
        if e.overflow then Then([c], e) else Then([c] + e.calls, EmitFrom(e.events, event, k + 1, len, throws, depth))
  {
  }

  /** With only listeners from `on` and none throwing, `emit` calls each of
      them once, in order, and changes nothing. */
  lemma {:induction false} EmitFromPlain(reg: Registry<Listener>, event: string, k: nat, throws: set<Callback>, depth: nat)
    requires event in reg && k <= |reg[event]|
    requires forall i :: k <= i < |reg[event]| ==> reg[event][i].Direct? && reg[event][i].callback !in throws
    ensures EmitFrom(reg, event, k, |reg[event]|, throws, depth) == Outcome(reg, Callbacks(reg[event][k..]), false)
    decreases |reg[event]| - k
  {
    if k < |reg[event]| {
      EmitFromPlain(reg, event, k + 1, throws, depth);
      assert reg[event][k..] == [reg[event][k]] + reg[event][k + 1..];
    }
  }

  lemma EmitPlain(reg: Registry<Listener>, event: string, throws: set<Callback>, depth: nat)
    requires forall l :: l in Of(reg, event) ==> l.Direct? && l.callback !in throws
    ensures EmitLive(reg, event, throws, depth) == Outcome(reg, Callbacks(Of(reg, event)), false)
  {
    if event in reg {
      EmitFromPlain(reg, event, 0, throws, depth);
      assert reg[event][0..] == reg[event];
    }
  }

  /** A one-shot listener alone on its event runs on the first `emit`, is
      gone afterwards, and a second `emit` calls nothing. */
  lemma OnceRunsOnce(reg: Registry<Listener>, event: string, c: Callback, token: nat, throws: set<Callback>, depth: nat)
    requires Of(reg, event) == [OnceWrapper(c, token)] && c !in throws
    ensures var first := EmitLive(reg, event, throws, depth);
      && first == Outcome(reg[event := []], [c], false)
      && EmitLive(first.events, event, throws, depth).calls == []
  {
    var w := OnceWrapper(c, token);
    RemoveFirstAfterAppend([], w);
    assert [] + [w] == [w];
    var r := reg[event := []];
    assert EmitFrom(r, event, 1, 1, throws, depth) == Outcome(r, [], false);
  }

  /** A one-shot callback that throws never reaches its `off`: with no
      error listeners, the wrapper stays and runs again next time. */
  lemma OnceThrowingStays(reg: Registry<Listener>, event: string, c: Callback, token: nat, throws: set<Callback>, depth: nat)
    requires Of(reg, event) == [OnceWrapper(c, token)] && c in throws && depth > 0
    requires event != ErrorOccurred && ErrorOccurred !in reg
    ensures EmitLive(reg, event, throws, depth) == Outcome(reg, [c], false)
  {
    assert EmitLive(reg, ErrorOccurred, throws, depth - 1) == Outcome(reg, [], false);
    assert EmitFrom(reg, event, 1, 1, throws, depth) == Outcome(reg, [], false);
  }

  /** The re-emission recurses without bound once an error listener
      throws: whatever the stack allows, an `emit` whose first listener
      throws ends in overflow. */
  lemma {:induction false} ErrorLoopOverflows(reg: Registry<Listener>, event: string, throws: set<Callback>, depth: nat)
    requires Of(reg, ErrorOccurred) != [] && Of(reg, ErrorOccurred)[0].callback in throws
    requires Of(reg, event) != [] && Of(reg, event)[0].callback in throws
    ensures EmitLive(reg, event, throws, depth).overflow
    decreases depth
  {
    assert event in reg && reg[event][0].callback in throws;
    if depth > 0 {
      ErrorLoopOverflows(reg, ErrorOccurred, throws, depth - 1);
      EmitFromThrow(reg, event, 0, |reg[event]|, throws, depth);
    }
  }

  /** As written, a one-shot listener that removes itself makes the
      listener after it be skipped on that `emit`: with `once(e, a)` then
      `on(e, b)`, emitting e calls a and never b. */
  lemma OnceSkipsNext(event: string, a: Callback, b: Callback, token: nat, throws: set<Callback>, depth: nat)
    requires a !in throws && b !in throws
    ensures var reg := map[event := [OnceWrapper(a, token), Direct(b)]];
      EmitLive(reg, event, throws, depth) == Outcome(map[event := [Direct(b)]], [a], false)
  {
    var w := OnceWrapper(a, token);
    var s := [w, Direct(b)];
    var reg := map[event := s];
    assert IndexOf(s, w) == 0;
    assert RemoveFirst(s, w) == [Direct(b)] by {
      assert s[..0] + s[1..] == [Direct(b)];
    }
    var r := map[event := [Direct(b)]];
    assert Unsubscribe(reg, event, w) == r;
    EmitFromQuiet(reg, event, 0, 2, throws, depth);
    assert EmitFrom(r, event, 1, 2, throws, depth) == Outcome(r, [], false);
  }

  // ---------------------------------------------------------------------
  // emit, corrected: iterate over a copy of the array
  // ---------------------------------------------------------------------

  /** `[...this.events[event]].forEach(...)`: every listener registered
      when the emission starts is visited. */
  function EmitSnapshot(reg: Registry<Listener>, event: string, throws: set<Callback>, depth: nat): Outcome
    decreases depth, 1, 0
  {
    if event !in reg then Outcome(reg, [], false)
    else EmitList(reg, event, reg[event], throws, depth)
  }

  function EmitList(reg: Registry<Listener>, event: string, list: seq<Listener>, throws: set<Callback>, depth: nat): Outcome
    decreases depth, 0, |list|
  {
    if list == [] then Outcome(reg, [], false)
    else
      var l := list[0];
      if l.callback in throws then
        if depth == 0 then Outcome(reg, [l.callback], true)
        else
          var e := EmitSnapshot(reg, ErrorOccurred, throws, depth - 1);
          if e.overflow then Then([l.callback], e)
          else Then([l.callback] + e.calls, EmitList(e.events, event, list[1..], throws, depth))
      else
        var r := if l.OnceWrapper? then Unsubscribe(reg, event, l) else reg;
        Then([l.callback], EmitList(r, event, list[1..], throws, depth))
  }

  lemma EmitListQuiet(reg: Registry<Listener>, event: string, list: seq<Listener>, throws: set<Callback>, depth: nat)
    requires list != [] && list[0].callback !in throws
    ensures var r := if list[0].OnceWrapper? then Unsubscribe(reg, event, list[0]) else reg;
      EmitList(reg, event, list, throws, depth) == Then([list[0].callback], EmitList(r, event, list[1..], throws, depth))
  {
  }

  /** Taking off the first listener of the rest, when everything before
      it came from `on`, leaves the prefix and the tail. */
  lemma RemoveAfterDirects(done: seq<Listener>, w: Listener, rest: seq<Listener>)
    requires w.OnceWrapper? && forall l :: l in done ==> l.Direct?
    ensures RemoveFirst(done + [w] + rest, w) == done + rest
  {
    var s := done + [w] + rest;
    assert s[|done|] == w;
    assert s[..|done|] == done;
    assert w !in done;
    assert s[|done| + 1..] == rest;
  }

  lemma MapUpdateTwice<K, V>(m: map<K, V>, k: K, a: V, b: V)
    ensures m[k := a][k := b] == m[k := b]
  {
  }

  /** The visit of a one-shot wrapper, given the rest of the walk. */
  lemma OnceStep(reg: Registry<Listener>, event: string, done: seq<Listener>, l: Listener, rest: seq<Listener>, throws: set<Callback>, depth: nat)
    requires event in reg && reg[event] == done + [l] + rest
    requires l.OnceWrapper? && l.callback !in throws && forall x :: x in done ==> x.Direct?
    requires EmitList(reg[event := done + rest], event, rest, throws, depth) ==
      Outcome(reg[event := done + rest][event := done + Directs(rest)], Callbacks(rest), false)
    ensures EmitList(reg, event, [l] + rest, throws, depth) ==
      Outcome(reg[event := done + Directs([l] + rest)], Callbacks([l] + rest), false)
  {
    var list := [l] + rest;
    assert list[1..] == rest;
    RemoveAfterDirects(done, l, rest);
    var u := reg[event := done + rest];
    assert Unsubscribe(reg, event, l) == u;
    EmitListQuiet(reg, event, list, throws, depth);
    var tail := EmitList(u, event, rest, throws, depth);
    assert EmitList(reg, event, list, throws, depth) == Then([l.callback], tail);
    MapUpdateTwice(reg, event, done + rest, done + Directs(rest));
    assert tail.events == reg[event := done + Directs(rest)];
    assert Directs(list) == [] + Directs(rest);
    assert Directs(list) == Directs(rest);
    assert Callbacks(list) == [l.callback] + Callbacks(rest);
  }

  /** The visit of a listener from `on`, given the rest of the walk. */
  lemma DirectStep(reg: Registry<Listener>, event: string, done: seq<Listener>, l: Listener, rest: seq<Listener>, throws: set<Callback>, depth: nat)
    requires l.Direct? && l.callback !in throws
    requires EmitList(reg, event, rest, throws, depth) ==
      Outcome(reg[event := (done + [l]) + Directs(rest)], Callbacks(rest), false)
    ensures EmitList(reg, event, [l] + rest, throws, depth) ==
      Outcome(reg[event := done + Directs([l] + rest)], Callbacks([l] + rest), false)
  {
    var list := [l] + rest;
    assert list[1..] == rest;
    EmitListQuiet(reg, event, list, throws, depth);
    assert Directs(list) == [l] + Directs(rest);
    assert (done + [l]) + Directs(rest) == done + Directs(list);
    assert Callbacks(list) == [l.callback] + Callbacks(rest);
  }

  lemma {:induction false} EmitListNoThrow(reg: Registry<Listener>, event: string, done: seq<Listener>, list: seq<Listener>, throws: set<Callback>, depth: nat)
    requires event in reg && reg[event] == done + list
    requires forall l :: l in done ==> l.Direct?
    requires forall l :: l in list ==> l.callback !in throws
    ensures EmitList(reg, event, list, throws, depth) == Outcome(reg[event := done + Directs(list)], Callbacks(list), false)
    decreases |list|
  {
    if list == [] {
      assert done + list == done;
      assert reg[event := done] == reg;
    } else {
      var l, rest := list[0], list[1..];
      assert list == [l] + rest;
      if l.OnceWrapper? {
        assert done + list == done + [l] + rest;
        var r := reg[event := done + rest];
        EmitListNoThrow(r, event, done, rest, throws, depth);
        OnceStep(reg, event, done, l, rest, throws, depth);
      } else {
        assert done + list == (done + [l]) + rest;
        EmitListNoThrow(reg, event, done + [l], rest, throws, depth);
        DirectStep(reg, event, done, l, rest, throws, depth);
      }
    }
  }

  /** Corrected: with no listener throwing, every listener registered at
      the start is called once, in order, and exactly the one-shot
      wrappers are gone afterwards, so a second `emit` calls only the
      `on` listeners. */
  lemma EmitSnapshotCallsAll(reg: Registry<Listener>, event: string, throws: set<Callback>, depth: nat)
    requires forall l :: l in Of(reg, event) ==> l.callback !in throws
    ensures var o := EmitSnapshot(reg, event, throws, depth);
      && o == Outcome(if event in reg then reg[event := Directs(reg[event])] else reg, Callbacks(Of(reg, event)), false)
      && EmitSnapshot(o.events, event, throws, depth).calls == Callbacks(Directs(Of(reg, event)))
  {
    if event in reg {
      EmitListNoThrow(reg, event, [], reg[event], throws, depth);
      assert [] + reg[event] == reg[event];
      var o := reg[event := Directs(reg[event])];
      EmitListNoThrow(o, event, [], o[event], throws, depth);
      assert [] + o[event] == o[event];
    }
  }

  // ---------------------------------------------------------------------
  // The bus
  // ---------------------------------------------------------------------

  /** The function `on` returns: calling it is `off(event, callback)`. */
  datatype Unsubscriber = Unsubscriber(event: string, listener: Listener)

  /** What `getState()` reports; `events` is the set of event names (their
      insertion order is not modelled). */
  datatype State = State(isInitialized: bool, eventCount: nat, totalListeners: nat, events: set<string>)

  /** No wrapper with this token is registered: the closure `once` builds
      is a new function. */
  predicate FreshToken(reg: Registry<Listener>, token: nat) {
    forall e, i :: e in reg && 0 <= i < |reg[e]| ==> reg[e][i] != OnceWrapper(reg[e][i].callback, token)
  }

  class EventBus {
    var events: Registry<Listener>
    var isInitialized: bool

    constructor ()
      ensures events == map[] && !isInitialized
    {
      events := map[];
      isInitialized := false;
    }

    /** `init()`: a second call only warns and keeps the listeners. */
    method Init()
      modifies this
      ensures old(isInitialized) ==> unchanged(this)
      ensures !old(isInitialized) ==> events == map[] && isInitialized
    {
      if isInitialized {
        return;
      }
      events := map[];
      isInitialized := true;
    }

    /** `on(event, callback)`, returning its unsubscribe function. */
    method On(event: string, callback: Callback) returns (unsubscribe: Unsubscriber)
      modifies this`events
      ensures events == Subscribe(old(events), event, Direct(callback))
      ensures unsubscribe == Unsubscriber(event, Direct(callback))
    {
      if event !in events {
        events := events[event := []];
      }
      events := events[event := events[event] + [Direct(callback)]];
      unsubscribe := Unsubscriber(event, Direct(callback));
    }

    /** Calling the function `on` returned. */
    method Unsubscribe(u: Unsubscriber)
      modifies this`events
      ensures events == Listeners.Unsubscribe(old(events), u.event, u.listener)
    {
      Off(u.event, u.listener);
    }

    /** `off(event, callback)`. */
    method Off(event: string, listener: Listener)
      modifies this`events
      ensures events == Listeners.Unsubscribe(old(events), event, listener)
    {
      if event !in events {
        return;
      }
      var index := IndexOf(events[event], listener);
      if index > -1 {
        events := events[event := RemoveFirst(events[event], listener)];
      }
    }

    /** `once(event, callback)`: registers a new wrapper. */
    method Once(event: string, callback: Callback, token: nat)
      requires FreshToken(events, token)
      modifies this`events
      ensures events == Subscribe(old(events), event, OnceWrapper(callback, token))
    {
      events := events[event := Of(events, event) + [OnceWrapper(callback, token)]];
    }

    /** `emit(event)`: the `forEach` over the live array, each throwing
        callback re-emitting `'error:occurred'` from its `catch`. */
    method Emit(event: string, throws: set<Callback>, depth: nat) returns (calls: seq<Callback>, overflow: bool)
      modifies this`events
      ensures Outcome(events, calls, overflow) == EmitLive(old(events), event, throws, depth)
      decreases depth
    {
      calls, overflow := [], false;
      if event !in events {
        return;
      }
      var len := |events[event]|;
      var k := 0;
      while k < len
        invariant 0 <= k <= len
        invariant Then(calls, EmitFrom(events, event, k, len, throws, depth)) == EmitLive(old(events), event, throws, depth)
      {
        var live := Of(events, event);
        if k < |live| {
          var l := live[k];
          ghost var pre := calls;
          if l.callback in throws {
            calls := calls + [l.callback];
            if depth == 0 {
              overflow := true;
              return;
            }
            EmitFromThrow(events, event, k, len, throws, depth);
            var inner, innerOverflow := Emit(ErrorOccurred, throws, depth - 1);
            ThenThen(pre, [l.callback] + inner, EmitFrom(events, event, k + 1, len, throws, depth));
            calls := calls + inner;
            assert calls == pre + ([l.callback] + inner);
            if innerOverflow {
              overflow := true;
              return;
            }
          } else {
            EmitFromQuiet(events, event, k, len, throws, depth);
            if l.OnceWrapper? {
              Off(event, l);
            }
            ThenThen(pre, [l.callback], EmitFrom(events, event, k + 1, len, throws, depth));
            calls := calls + [l.callback];
          }
        }
        k := k + 1;
      }
    }

    /** `clear(event)`; `None` is a call without an argument. */
    method Clear(event: Tree.Option<string>)
      modifies this`events
      ensures events == Listeners.Clear(old(events), event)
    {
      if event.Some? && event.value != "" {
        events := events - {event.value};
      } else {
        events := map[];
      }
    }

    /** `listenerCount(event)`. */
    method ListenerCount(event: string) returns (n: nat)
      ensures n == Count(events, event)
    {
      n := if event in events then |events[event]| else 0;
    }

    /** `getState()`: the listener total is the `reduce` over the lists. */
    method GetState() returns (s: State)
      ensures s == State(isInitialized, |events.Keys|, Total(events), events.Keys)
    {
      var rest := events;
      var total := 0;
      while rest != map[]
        invariant total + Total(rest) == Total(events)
        decreases |rest.Keys|
      {
        var k :| k in rest;
        TotalWithout(rest, k);
        total := total + |rest[k]|;
        rest := rest - {k};
      }
      s := State(isInitialized, |events.Keys|, total, events.Keys);
    }

    /** `destroy()`: only an initialised bus is cleared and reset. */
    method Destroy()
      modifies this
      ensures !old(isInitialized) ==> unchanged(this)
      ensures old(isInitialized) ==> events == map[] && !isInitialized
    {
      if !isInitialized {
        return;
      }
      events := map[];
      isInitialized := false;
    }
  }
}
