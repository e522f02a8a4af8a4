/** The listener registry both event buses keep in `this.events`: a
    dictionary from event name to the list of callbacks registered for it,
    in registration order. Callbacks are opaque values compared by identity,
    as `indexOf` compares functions. */
module Listeners {
  import Tree

  type Registry<T> = map<string, seq<T>>

  /** `this.events[event] || []`. */
  function Of<T>(reg: Registry<T>, event: string): seq<T> {
    if event in reg then reg[event] else []
  }

  /** `list.indexOf(x)`: the first position holding x, or -1. */
  function IndexOf<T(==)>(s: seq<T>, x: T): (i: int)
    ensures -1 <= i < |s|
    ensures i == -1 <==> x !in s
    ensures i >= 0 ==> s[i] == x && x !in s[..i]
  {
    if s == [] then -1
    else if s[0] == x then 0
    else
      var j := IndexOf(s[1..], x);
      if j == -1 then -1
      else
        assert s[..j + 1] == [s[0]] + s[1..][..j];
        j + 1
  }

  /** `if (index > -1) list.splice(index, 1)`: the first occurrence of x
      is dropped and nothing else moves out of order. */
  function RemoveFirst<T(==)>(s: seq<T>, x: T): (r: seq<T>)
    ensures x !in s ==> r == s
    ensures x in s ==> |r| == |s| - 1
    ensures multiset(r) == multiset(s) - multiset{x}
  {
    var i := IndexOf(s, x);
    if i < 0 then s
    else
      assert s == s[..i] + [s[i]] + s[i + 1..];
      s[..i] + s[i + 1..]
  }

  /** `on` then `off` with a callback not yet registered for that event
      gives back the list it started from. */
  lemma {:induction false} RemoveFirstAfterAppend<T>(s: seq<T>, x: T)
    requires x !in s
    ensures RemoveFirst(s + [x], x) == s
  {
    var i := IndexOf(s + [x], x);
    assert (s + [x])[|s|] == x;
    assert (s + [x])[..|s|] == s;
  }

  /** With a duplicate, `off` drops the earliest registration, not the one
      `on` just added. */
  lemma RemoveFirstTakesEarliest<T>(s: seq<T>, x: T)
    requires x in s
    ensures RemoveFirst(s + [x], x) == RemoveFirst(s, x) + [x]
  {
    var i := IndexOf(s, x);
    var t := s + [x];
    assert t[..i] == s[..i];
    IndexOfPrefix(s, [x], x);
    assert t[i + 1..] == s[i + 1..] + [x];
  }

  lemma IndexOfPrefix<T>(s: seq<T>, u: seq<T>, x: T)
    requires x in s
    ensures IndexOf(s + u, x) == IndexOf(s, x)
  {
    var i := IndexOf(s, x);
    var j := IndexOf(s + u, x);
    assert (s + u)[i] == x;
    assert (s + u)[..i] == s[..i];
  }

  /** `on(event, x)`: x goes to the end of that event's list, which is
      created when missing; duplicates are kept. */
  function Subscribe<T>(reg: Registry<T>, event: string, x: T): (r: Registry<T>)
    ensures r.Keys == reg.Keys + {event}
  {
    reg[event := Of(reg, event) + [x]]
  }

  /** `off(event, x)`: nothing for an unknown event; otherwise the first
      occurrence of x leaves the list, and the (possibly empty) list stays. */
  function Unsubscribe<T(==)>(reg: Registry<T>, event: string, x: T): (r: Registry<T>)
    ensures r.Keys == reg.Keys
  {
    if event !in reg then reg else reg[event := RemoveFirst(reg[event], x)]
  }

  /** `clear(event)`: a truthy name deletes that list; `clear()` — and, as
      the test is on truthiness, `clear('')` — empties the registry. */
  function Clear<T>(reg: Registry<T>, event: Tree.Option<string>): (r: Registry<T>)
    ensures r.Keys <= reg.Keys
  {
    if event.None? || event.value == "" then map[] else reg - {event.value}
  }

  /** `listenerCount(event)`. */
  function Count<T>(reg: Registry<T>, event: string): nat {
    |Of(reg, event)|
  }

  /** `on`, `off` and `clear(event)` touch only the named event's list. */
  lemma OthersUntouched<T>(reg: Registry<T>, event: string, x: T, other: string)
    requires other != event
    ensures Of(Subscribe(reg, event, x), other) == Of(reg, other)
    ensures Of(Unsubscribe(reg, event, x), other) == Of(reg, other)
    ensures event != "" ==> Of(Clear(reg, Tree.Some(event)), other) == Of(reg, other)
  {
  }

  /** The counts `listenerCount` reports across the three updates. */
  lemma CountUpdates<T>(reg: Registry<T>, event: string, x: T)
    ensures Count(Subscribe(reg, event, x), event) == Count(reg, event) + 1
    ensures Count(Unsubscribe(reg, event, x), event) ==
      if x in Of(reg, event) then Count(reg, event) - 1 else Count(reg, event)
    ensures Count(Clear(reg, Tree.Some(event)), event) == 0
    ensures Count(Clear(reg, Tree.None), event) == 0
  {
  }

  /** Subscribing then unsubscribing a new callback restores the registry,
      except that the event now has a (possibly empty) list. */
  lemma OffUndoesOn<T>(reg: Registry<T>, event: string, x: T)
    requires x !in Of(reg, event)
    ensures Unsubscribe(Subscribe(reg, event, x), event, x) == reg[event := Of(reg, event)]
  {
    RemoveFirstAfterAppend(Of(reg, event), x);
  }

  /** The sum of all list lengths: `Object.values(events).reduce((s, l) =>
      s + l.length, 0)`. */
  ghost function Total<T>(reg: Registry<T>): nat
    decreases |reg.Keys|
  {
    if reg.Keys == {} then 0
    else
      var k := PickKey(reg);
      |reg[k]| + Total(reg - {k})
  }

  ghost function PickKey<T>(reg: Registry<T>): (k: string)
    requires reg.Keys != {}
    ensures k in reg
  {
    var k :| k in reg; k
  }

  /** The sum does not depend on the key taken first. */
  lemma {:induction false} TotalWithout<T>(reg: Registry<T>, k: string)
    requires k in reg
    ensures Total(reg) == |reg[k]| + Total(reg - {k})
    decreases |reg.Keys|
  {
    var p := PickKey(reg);
    if p != k {
      var rest := reg - {p};
      var short := reg - {k};
      assert Total(reg) == |reg[p]| + Total(rest);
      TotalWithout(rest, k);
      TotalWithout(short, p);
      assert rest - {k} == short - {p};
      assert rest[k] == reg[k] && short[p] == reg[p];
    }
  }

  /** Replacing one list changes the total by the difference in length. */
  lemma TotalUpdate<T>(reg: Registry<T>, k: string, s: seq<T>)
    ensures Total(reg[k := s]) + Count(reg, k) == Total(reg) + |s|
  {
    var r := reg[k := s];
    TotalWithout(r, k);
    assert r - {k} == reg - {k};
    if k in reg {
      TotalWithout(reg, k);
    } else {
      assert reg - {k} == reg;
    }
  }

  /** The listener totals `getState` reports across the three updates. */
  lemma TotalUpdates<T>(reg: Registry<T>, event: string, x: T)
    ensures Total(Subscribe(reg, event, x)) == Total(reg) + 1
    ensures Total(Unsubscribe(reg, event, x)) ==
      if x in Of(reg, event) then Total(reg) - 1 else Total(reg)
    ensures event != "" ==> Total(Clear(reg, Tree.Some(event))) == Total(reg) - Count(reg, event)
    ensures Total(Clear(reg, Tree.None)) == 0
  {
    TotalUpdate(reg, event, Of(reg, event) + [x]);
    if event in reg {
      TotalUpdate(reg, event, RemoveFirst(reg[event], x));
      TotalWithout(reg, event);
    } else {
      assert reg - {event} == reg;
    }
  }
}
