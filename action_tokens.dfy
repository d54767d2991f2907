/**
 * The timeline the tokenizer produces (the ActionTokens class): slots keyed
 * by a millisecond delta, in increasing delta order, each holding the input
 * event records injected at that moment. Recording `null` creates an empty
 * slot. The event records are the server's KeyInputEventParams and
 * MotionInputEventParams.
 */
module ActionTokens {
  import opened Common
  import opened ActionsData

  // android.view.KeyEvent actions
  const KEY_ACTION_DOWN := 0
  const KEY_ACTION_UP := 1

  // android.view.MotionEvent actions
  const MOTION_ACTION_DOWN := 0
  const MOTION_ACTION_UP := 1
  const MOTION_ACTION_MOVE := 2
  const MOTION_ACTION_HOVER_MOVE := 7
  const MOTION_ACTION_HOVER_ENTER := 9
  const MOTION_ACTION_HOVER_EXIT := 10

  // android.view.MotionEvent tool types
  const TOOL_TYPE_FINGER := 1
  const TOOL_TYPE_STYLUS := 2
  const TOOL_TYPE_MOUSE := 3

  // android.view.MotionEvent buttons
  const BUTTON_PRIMARY := 1
  const BUTTON_SECONDARY := 2
  const BUTTON_TERTIARY := 4
  const BUTTON_STYLUS_PRIMARY := 32
  const BUTTON_STYLUS_SECONDARY := 64

  /** MotionEvent.PointerCoords, position only. */
  datatype Coords = Coords(x: real, y: real)

  datatype EventParams =
    | KeyParams(startDelta: int, keyAction: int, keyCode: int)
    | MotionParams(startDelta: int, actionCode: int, coords: Coords, button: int, pointerId: int, toolType: int)

  datatype Slot = Slot(delta: int, events: seq<EventParams>)

  /** Slots are kept in strictly increasing delta order (a sparse array keyed by delta). */
  predicate Sorted(slots: seq<Slot>)
  {
    forall i, j :: 0 <= i < j < |slots| ==> slots[i].delta < slots[j].delta
  }

  /** The deltas that have a slot. */
  function Deltas(slots: seq<Slot>): set<int>
  {
    set i | 0 <= i < |slots| :: slots[i].delta
  }

  /** The events recorded at a delta, or None when there is no slot for it. */
  function EventsAt(slots: seq<Slot>, t: int): Option<seq<EventParams>>
  {
    if slots == [] then None else if slots[0].delta == t then Some(slots[0].events) else EventsAt(slots[1..], t)
  }

  function OptList(ev: Option<EventParams>): seq<EventParams>
  {
    if ev.Some? then [ev.value] else []
  }

  /** ActionTokens.addEventAt: open the slot for t if needed, then append the event when there is one. */
  function AddEventAt(slots: seq<Slot>, t: int, ev: Option<EventParams>): (r: seq<Slot>)
    ensures |r| > 0
    ensures r[0].delta == t || (slots != [] && r[0].delta == slots[0].delta)
  {
    if slots == [] then [Slot(t, OptList(ev))]
    else if slots[0].delta == t then [Slot(t, slots[0].events + OptList(ev))] + slots[1..]
    else if t < slots[0].delta then [Slot(t, OptList(ev))] + slots
    else [slots[0]] + AddEventAt(slots[1..], t, ev)
  }

  lemma SortedCons(x: Slot, rest: seq<Slot>)
    requires Sorted(rest) && (rest == [] || x.delta < rest[0].delta)
    ensures Sorted([x] + rest)
  {
    forall i, j | 0 <= i < j < |[x] + rest|
      ensures ([x] + rest)[i].delta < ([x] + rest)[j].delta
    {
      if i == 0 && j > 1 {
        assert rest[0].delta < rest[j - 1].delta;
      }
    }
  }

  lemma {:induction false} AddEventAtSorted(slots: seq<Slot>, t: int, ev: Option<EventParams>)
    requires Sorted(slots)
    ensures Sorted(AddEventAt(slots, t, ev))
    decreases |slots|
  {
    if slots != [] {
      if slots[0].delta == t {
        SortedCons(Slot(t, slots[0].events + OptList(ev)), slots[1..]);
      } else if t < slots[0].delta {
        SortedCons(Slot(t, OptList(ev)), slots);
      } else {
        AddEventAtSorted(slots[1..], t, ev);
        SortedCons(slots[0], AddEventAt(slots[1..], t, ev));
      }
    }
  }

  lemma DeltasCons(x: Slot, rest: seq<Slot>)
    ensures Deltas([x] + rest) == {x.delta} + Deltas(rest)
  {
    var xs := [x] + rest;
    forall d | d in Deltas(xs)
      ensures d in {x.delta} + Deltas(rest)
    {
      var i :| 0 <= i < |xs| && xs[i].delta == d;
      if i > 0 {
        assert rest[i - 1].delta == d;
      }
    }
    forall d | d in Deltas(rest)
      ensures d in Deltas(xs)
    {
      var i :| 0 <= i < |rest| && rest[i].delta == d;
      assert xs[i + 1].delta == d;
    }
    assert xs[0].delta == x.delta;
  }

  lemma {:induction false} AddEventAtDeltas(slots: seq<Slot>, t: int, ev: Option<EventParams>)
    ensures Deltas(AddEventAt(slots, t, ev)) == Deltas(slots) + {t}
    decreases |slots|
  {
    if slots == [] {
      DeltasCons(Slot(t, OptList(ev)), []);
    } else {
      assert slots == [slots[0]] + slots[1..];
      DeltasCons(slots[0], slots[1..]);
      if slots[0].delta == t {
        DeltasCons(Slot(t, slots[0].events + OptList(ev)), slots[1..]);
      } else if t < slots[0].delta {
        DeltasCons(Slot(t, OptList(ev)), slots);
      } else {
        AddEventAtDeltas(slots[1..], t, ev);
        DeltasCons(slots[0], AddEventAt(slots[1..], t, ev));
      }
    }
  }

  /** After addEventAt the slot for t holds its old events followed by the new one; every other slot is unchanged. */
  lemma EventsAtAdd(slots: seq<Slot>, t: int, ev: Option<EventParams>, u: int)
    requires Sorted(slots)
    ensures EventsAt(AddEventAt(slots, t, ev), t) ==
      Some((if EventsAt(slots, t).Some? then EventsAt(slots, t).value else []) + OptList(ev))
    ensures u != t ==> EventsAt(AddEventAt(slots, t, ev), u) == EventsAt(slots, u)
  {
    EventsAtAddSame(slots, t, ev);
    if u != t {
      EventsAtAddOther(slots, t, ev, u);
    }
  }

  lemma SortedTail(slots: seq<Slot>)
    requires Sorted(slots) && slots != []
    ensures Sorted(slots[1..])
  {
    forall i, j | 0 <= i < j < |slots| - 1
      ensures slots[1..][i].delta < slots[1..][j].delta
    {
      assert slots[1..][i] == slots[i + 1] && slots[1..][j] == slots[j + 1];
    }
  }

  lemma {:induction false} EventsAtAddSame(slots: seq<Slot>, t: int, ev: Option<EventParams>)
    requires Sorted(slots)
    ensures EventsAt(AddEventAt(slots, t, ev), t) ==
      Some((if EventsAt(slots, t).Some? then EventsAt(slots, t).value else []) + OptList(ev))
    decreases |slots|
  {
    if slots != [] {
      var r := AddEventAt(slots, t, ev);
      if slots[0].delta == t {
        assert r[0] == Slot(t, slots[0].events + OptList(ev));
        assert EventsAt(slots, t) == Some(slots[0].events);
      } else if t < slots[0].delta {
        EventsAtAbsentBelow(slots, t);
        assert r[0] == Slot(t, OptList(ev));
        assert [] + OptList(ev) == OptList(ev);
      } else {
        SortedTail(slots);
        EventsAtAddSame(slots[1..], t, ev);
        assert EventsAt(slots, t) == EventsAt(slots[1..], t);
        assert r[0].delta != t && r[1..] == AddEventAt(slots[1..], t, ev);
      }
    } else {
      assert AddEventAt(slots, t, ev)[0] == Slot(t, OptList(ev));
      assert [] + OptList(ev) == OptList(ev);
    }
  }

  lemma {:induction false} EventsAtAddOther(slots: seq<Slot>, t: int, ev: Option<EventParams>, u: int)
    requires u != t
    ensures EventsAt(AddEventAt(slots, t, ev), u) == EventsAt(slots, u)
    decreases |slots|
  {
    var r := AddEventAt(slots, t, ev);
    if slots == [] {
      assert r == [Slot(t, OptList(ev))] && r[1..] == [];
    } else if slots[0].delta == t {
      assert r[0].delta != u && r[1..] == slots[1..];
    } else if t < slots[0].delta {
      assert r[0].delta != u && r[1..] == slots;
    } else {
      EventsAtAddOther(slots[1..], t, ev, u);
      assert r[0] == slots[0] && r[1..] == AddEventAt(slots[1..], t, ev);
    }
  }

  lemma {:induction false} EventsAtAbsentBelow(slots: seq<Slot>, t: int)
    requires Sorted(slots) && slots != [] && t < slots[0].delta
    ensures EventsAt(slots, t) == None
    decreases |slots|
  {
    if |slots| > 1 {
      EventsAtAbsentBelow(slots[1..], t);
    }
  }

  /** A time on the injection grid: non-negative and a multiple of D. */
  predicate OnGrid(t: int)
  {
    t >= 0 && t % D == 0
  }

  /** An event recorded at delta is well timed: its start delta is on the grid and not after delta. */
  predicate WellTimed(delta: int, e: EventParams)
  {
    OnGrid(e.startDelta) && e.startDelta <= delta
  }

  /** Every slot delta is on the grid and every event in it is well timed. */
  predicate WellFormed(slots: seq<Slot>)
  {
    && (forall i :: 0 <= i < |slots| ==> OnGrid(slots[i].delta))
    && forall i, j :: 0 <= i < |slots| && 0 <= j < |slots[i].events| ==> WellTimed(slots[i].delta, slots[i].events[j])
  }

  lemma {:induction false} AddEventAtWellFormed(slots: seq<Slot>, t: int, ev: Option<EventParams>)
    requires WellFormed(slots) && OnGrid(t)
    requires ev.Some? ==> WellTimed(t, ev.value)
    ensures WellFormed(AddEventAt(slots, t, ev))
    decreases |slots|
  {
    if slots != [] && slots[0].delta != t && t >= slots[0].delta {
      AddEventAtWellFormed(slots[1..], t, ev);
    }
  }
}
