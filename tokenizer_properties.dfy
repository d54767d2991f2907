/**
 * What the tokenizer promises about the timelines it builds: every slot and
 * every event start lies on the D-millisecond grid and no event starts after
 * the slot that holds it; a `none` source only opens empty slots at its
 * cumulative pause times; key events carry the documented start deltas;
 * pointer downs and ups alternate; a move stays inside its time window.
 */
module TokenizerProperties {
  import opened Common
  import opened Json
  import opened ActionsData
  import opened ActionTokens
  import opened ActionsTokenizer

  /** A timeline as tokenize promises it: sorted by delta, on the grid, every event well timed. */
  predicate GoodTimeline(slots: seq<Slot>)
  {
    Sorted(slots) && WellFormed(slots)
  }

  // -----------------------------------------------------------------------
  // The entry point of a secondary action is an earlier slot
  // -----------------------------------------------------------------------

  lemma {:induction false} CountEventsResult(b: Balance, delta: int, events: seq<EventParams>, n: nat)
    requires n <= |events|
    ensures CountEvents(b, delta, events, n).result in {b.result, Some(delta)}
  {
    if n > 0 {
      CountEventsResult(b, delta, events, n - 1);
    }
  }

  lemma {:induction false} ScanSlotsResult(slots: seq<Slot>, t: int, n: nat)
    requires n <= |slots|
    ensures var r := ScanSlots(slots, t, n).0.result;
      r.Some? ==> r.value <= t && exists i :: 0 <= i < n && slots[i].delta == r.value
  {
    if n > 0 {
      ScanSlotsResult(slots, t, n - 1);
      var (b, stopped) := ScanSlots(slots, t, n - 1);
      if !stopped && slots[n - 1].delta <= t {
        CountEventsResult(b, slots[n - 1].delta, slots[n - 1].events, |slots[n - 1].events|);
      }
    }
  }

  /** findEntryPointDeltaForSecondaryAction returns the delta of an existing slot at or before t. */
  lemma EntryPointBound(slots: seq<Slot>, t: int)
    ensures EntryPoint(slots, t).Some? ==> EntryPoint(slots, t).value <= t && EntryPoint(slots, t).value in Deltas(slots)
  {
    ScanSlotsResult(slots, t, |slots|);
    if EntryPoint(slots, t).Some? {
      var i :| 0 <= i < |slots| && slots[i].delta == EntryPoint(slots, t).value;
      assert slots[i].delta in Deltas(slots);
    }
  }

  /** Recording keeps a good timeline good when the time is on the grid and the event is well timed. */
  lemma RecordGood(slots: seq<Slot>, t: int, ev: Option<EventParams>)
    requires GoodTimeline(slots) && OnGrid(t) && (ev.Some? ==> WellTimed(t, ev.value))
    ensures GoodTimeline(Record(slots, t, ev))
  {
    EntryPointBound(slots, t);
    var entry := EntryPoint(slots, t);
    if entry.Some? {
      var i :| 0 <= i < |slots| && slots[i].delta == entry.value;
      assert OnGrid(slots[i].delta);
    }
    AddEventAtSorted(slots, t, EntryAdjusted(slots, t, ev));
    AddEventAtWellFormed(slots, t, EntryAdjusted(slots, t, ev));
  }

  // -----------------------------------------------------------------------
  // Every fold keeps the timeline good
  // -----------------------------------------------------------------------

  lemma EmptyStepGood(action: Action, tokens: seq<Slot>, timeDelta: int, item: Item)
    requires GoodTimeline(tokens) && OnGrid(timeDelta)
    ensures var r := EmptyStep(action, tokens, timeDelta, item); r.Ok? ==> GoodTimeline(r.value.0) && OnGrid(r.value.1)
  {
    if EmptyStep(action, tokens, timeDelta, item).Ok? {
      RecordGood(tokens, timeDelta + AlignDuration(item.duration.value), None);
    }
  }

  lemma {:induction false} EmptyFoldGood(action: Action, items: seq<Item>, tokens: seq<Slot>, n: nat)
    requires n <= |items| && GoodTimeline(tokens)
    ensures var r := EmptyFold(action, items, tokens, n); r.Ok? ==> GoodTimeline(r.value.0) && OnGrid(r.value.1)
  {
    if n > 0 {
      EmptyFoldGood(action, items, tokens, n - 1);
      var prev := EmptyFold(action, items, tokens, n - 1);
      if prev.Ok? {
        EmptyStepGood(action, prev.value.0, prev.value.1, items[n - 1]);
        assert EmptyFold(action, items, tokens, n) == EmptyStep(action, prev.value.0, prev.value.1, items[n - 1]);
      }
    }
  }

  /** The invariant of applyKeyActionToEventsMapping's locals. */
  predicate KeyInv(st: KeyState)
  {
    GoodTimeline(st.tokens) && OnGrid(st.timeDelta) && OnGrid(st.chainEntry) && st.chainEntry <= st.timeDelta
  }

  lemma KeyStepGood(action: Action, st: KeyState, item: Item)
    requires KeyInv(st)
    ensures KeyStep(action, st, item).Ok? ==> KeyInv(KeyStep(action, st, item).value)
  {
    var r := KeyStep(action, st, item);
    if r.Ok? {
      if item.itemType.value == ITEM_PAUSE {
        RecordGood(st.tokens, st.timeDelta + AlignDuration(item.duration.value), None);
      } else {
        var down := item.itemType.value == ITEM_KEY_DOWN;
        var ev := KeyParams(if down then st.timeDelta else st.chainEntry,
                            if down then KEY_ACTION_DOWN else KEY_ACTION_UP, item.value.value[0] as int);
        RecordGood(st.tokens, st.timeDelta, Some(ev));
      }
    }
  }

  lemma {:induction false} KeyFoldGood(action: Action, items: seq<Item>, tokens: seq<Slot>, n: nat)
    requires n <= |items| && GoodTimeline(tokens)
    ensures KeyFold(action, items, tokens, n).Ok? ==> KeyInv(KeyFold(action, items, tokens, n).value)
  {
    if n > 0 {
      KeyFoldGood(action, items, tokens, n - 1);
      var prev := KeyFold(action, items, tokens, n - 1);
      if prev.Ok? {
        KeyStepGood(action, prev.value, items[n - 1]);
      }
    }
  }

  /** The invariant of applyPointerActionToEventsMapping's locals. */
  predicate PointerInv(st: PointerState)
  {
    GoodTimeline(st.tokens) && OnGrid(st.timeDelta) && OnGrid(st.chainEntry) && st.chainEntry <= st.timeDelta
  }

  /** Step k of a move is recorded on the grid, and its event starts no later. */
  lemma StepTimed(m: Move, k: int)
    requires m.steps > 0 && k >= 2
    requires OnGrid(m.first) && OnGrid(m.chainEntry) && m.chainEntry <= m.first
    ensures OnGrid(m.first + D * (k - 1)) && WellTimed(m.first + D * (k - 1), StepEvent(m, k))
  {
    var t := m.first + D * (k - 1);
    assert t % D == 0 by {
      assert t == D * (m.first / D + k - 1);
    }
  }

  lemma StepRecordGood(slots: seq<Slot>, m: Move, k: int)
    requires m.steps > 0 && k >= 2 && GoodTimeline(slots)
    requires OnGrid(m.first) && OnGrid(m.chainEntry) && m.chainEntry <= m.first
    ensures GoodTimeline(Record(slots, m.first + D * (k - 1), Some(StepEvent(m, k))))
  {
    StepTimed(m, k);
    RecordGood(slots, m.first + D * (k - 1), Some(StepEvent(m, k)));
  }

  lemma {:induction false} MoveStepsGood(tokens: seq<Slot>, m: Move, k: int)
    requires m.steps > 0 && GoodTimeline(tokens)
    requires OnGrid(m.first) && OnGrid(m.chainEntry) && m.chainEntry <= m.first
    ensures GoodTimeline(MoveSteps(tokens, m, k))
    decreases k
  {
    if k >= 2 {
      MoveStepsGood(tokens, m, k - 1);
      StepRecordGood(MoveSteps(tokens, m, k - 1), m, k);
    }
  }

  /** The first event of a move is recorded on the grid, at or after the chain entry. */
  lemma FirstMoveTimed(p: Pointer, st: PointerState, duration: int, start: Coords, end: Coords)
    requires PointerInv(st) && OnGrid(duration)
    ensures var first := FirstMoveDelta(st);
      && OnGrid(first) && st.chainEntry <= first && OnGrid(st.timeDelta + duration)
      && WellTimed(first, FirstMoveEvent(p, st, duration, start, end))
  {
  }

  lemma MoveStepGood(p: Pointer, st: PointerState, duration: int, start: Coords, end: Coords)
    requires PointerInv(st) && OnGrid(duration)
    ensures PointerInv(MoveStep(p, st, duration, start, end))
  {
    FirstMoveTimed(p, st, duration, start, end);
    if HoverTooShort(p, st, duration) {
      RecordGood(st.tokens, st.timeDelta + duration, None);
    } else {
      var first := FirstMoveDelta(st);
      var firstEvent := FirstMoveEvent(p, st, duration, start, end);
      var afterFirst := Record(st.tokens, first, Some(firstEvent));
      RecordGood(st.tokens, first, Some(firstEvent));
      if StepsCount(st, duration) > 0 {
        var m := MoveOf(p, st, duration, start, end);
        assert m.first == first && m.chainEntry == st.chainEntry && m.steps > 0;
        MoveStepsGood(afterFirst, m, StepsCount(st, duration));
      }
    }
  }

  lemma DownStepGood(p: Pointer, idx: nat, st: PointerState)
    requires idx < |p.items| && PointerInv(st)
    ensures DownStep(p, idx, st).Ok? ==> PointerInv(DownStep(p, idx, st).value)
  {
    if DownStep(p, idx, st).Ok? {
      var c := ExtractCoordinates(p.actionId, p.items, idx, p.env).value;
      var button := ExtractButton(p.items[idx], p.toolType, p.env.sdkInt);
      RecordGood(st.tokens, st.timeDelta, Some(MotionParams(st.timeDelta, MOTION_ACTION_DOWN, c, button, p.pointerId, p.toolType)));
    }
  }

  lemma UpStepGood(p: Pointer, idx: nat, st: PointerState)
    requires idx < |p.items| && PointerInv(st)
    ensures UpStep(p, idx, st).Ok? ==> PointerInv(UpStep(p, idx, st).value)
  {
    if UpStep(p, idx, st).Ok? {
      var c := ExtractCoordinates(p.actionId, p.items, idx, p.env).value;
      var button := ExtractButton(p.items[idx], p.toolType, p.env.sdkInt);
      RecordGood(st.tokens, st.timeDelta, Some(MotionParams(st.chainEntry, MOTION_ACTION_UP, c, button, p.pointerId, p.toolType)));
    }
  }

  lemma MoveItemStepGood(p: Pointer, idx: nat, st: PointerState)
    requires idx < |p.items| && PointerInv(st)
    ensures MoveItemStep(p, idx, st).Ok? ==> PointerInv(MoveItemStep(p, idx, st).value)
  {
    if MoveItemStep(p, idx, st).Ok? {
      var duration := AlignDuration(p.items[idx].duration.value);
      if duration >= D && idx == 0 {
        RecordGood(st.tokens, st.timeDelta + duration, None);
      } else if duration >= D {
        MoveStepGood(p, st, duration, ExtractCoordinates(p.actionId, p.items, idx - 1, p.env).value,
                     ExtractCoordinates(p.actionId, p.items, idx, p.env).value);
      }
    }
  }

  lemma PauseStepGood(p: Pointer, idx: nat, st: PointerState)
    requires idx < |p.items| && PointerInv(st)
    requires p.items[idx].itemType == Some(ITEM_PAUSE)
    ensures PointerStep(p, idx, st).Ok? ==> PointerInv(PointerStep(p, idx, st).value)
  {
    var item := p.items[idx];
    if ExtractDuration(Some(p.actionId), item).Ok? {
      var t := st.timeDelta + AlignDuration(ExtractDuration(Some(p.actionId), item).value);
      assert PointerStep(p, idx, st) == Ok(st.(tokens := Record(st.tokens, t, None), timeDelta := t));
      RecordGood(st.tokens, t, None);
    }
  }

  lemma PointerStepGood(p: Pointer, idx: nat, st: PointerState)
    requires idx < |p.items| && PointerInv(st)
    ensures PointerStep(p, idx, st).Ok? ==> PointerInv(PointerStep(p, idx, st).value)
  {
    var item := p.items[idx];
    if item.itemType.Some? {
      var itemType := item.itemType.value;
      if itemType == ITEM_PAUSE {
        PauseStepGood(p, idx, st);
      } else if itemType == ITEM_POINTER_DOWN {
        assert PointerStep(p, idx, st) == DownStep(p, idx, st);
        DownStepGood(p, idx, st);
      } else if itemType == ITEM_POINTER_UP {
        assert PointerStep(p, idx, st) == UpStep(p, idx, st);
        UpStepGood(p, idx, st);
      } else if itemType == ITEM_POINTER_MOVE {
        assert PointerStep(p, idx, st) == MoveItemStep(p, idx, st);
        MoveItemStepGood(p, idx, st);
      }
    }
  }

  lemma {:induction false} PointerFoldGood(p: Pointer, tokens: seq<Slot>, n: nat)
    requires n <= |p.items| && GoodTimeline(tokens)
    ensures PointerFold(p, tokens, n).Ok? ==> PointerInv(PointerFold(p, tokens, n).value)
  {
    if n == 0 {
      assert PointerFold(p, tokens, n) == Ok(InitialPointerState(tokens));
      assert OnGrid(0);
    } else {
      PointerFoldGood(p, tokens, n - 1);
      var prev := PointerFold(p, tokens, n - 1);
      if prev.Ok? {
        var next := PointerStep(p, n - 1, prev.value);
        PointerStepGood(p, n - 1, prev.value);
        assert PointerFold(p, tokens, n) == next;
      } else {
        assert PointerFold(p, tokens, n).Err?;
      }
    }
  }

  lemma {:induction false} AllEmptyGood(tokens: seq<Slot>, actions: seq<Action>, n: nat)
    requires n <= |actions| && GoodTimeline(tokens)
    ensures ApplyAllEmpty(tokens, actions, n).Ok? ==> GoodTimeline(ApplyAllEmpty(tokens, actions, n).value)
  {
    if n > 0 {
      AllEmptyGood(tokens, actions, n - 1);
      var prev := ApplyAllEmpty(tokens, actions, n - 1);
      if prev.Ok? && actions[n - 1].items.Some? {
        EmptyFoldGood(actions[n - 1], actions[n - 1].items.value, prev.value, |actions[n - 1].items.value|);
      }
    }
  }

  lemma {:induction false} AllKeyGood(tokens: seq<Slot>, actions: seq<Action>, n: nat)
    requires n <= |actions| && GoodTimeline(tokens)
    ensures ApplyAllKey(tokens, actions, n).Ok? ==> GoodTimeline(ApplyAllKey(tokens, actions, n).value)
  {
    if n > 0 {
      AllKeyGood(tokens, actions, n - 1);
      var prev := ApplyAllKey(tokens, actions, n - 1);
      if prev.Ok? && actions[n - 1].items.Some? {
        KeyFoldGood(actions[n - 1], actions[n - 1].items.value, prev.value, |actions[n - 1].items.value|);
      }
    }
  }

  lemma {:induction false} AllPointerGood(tokens: seq<Slot>, actions: seq<Action>, n: nat, env: Env)
    requires n <= |actions| && GoodTimeline(tokens)
    ensures ApplyAllPointer(tokens, actions, n, env).Ok? ==> GoodTimeline(ApplyAllPointer(tokens, actions, n, env).value)
  {
    if n > 0 {
      AllPointerGood(tokens, actions, n - 1, env);
      var prev := ApplyAllPointer(tokens, actions, n - 1, env);
      var a := actions[n - 1];
      if prev.Ok? && a.id.Some? && a.items.Some? {
        var p := Pointer(a.id.value, a.items.value, ActionToToolType(a), n - 1, env);
        PointerFoldGood(p, prev.value, |p.items|);
      }
    }
  }

  /**
   * tokenize: the timeline is sorted, every slot delta and every event start
   * is on the D-millisecond grid, and no event starts after its slot.
   */
  lemma TokenizeGood(actions: seq<Action>, env: Env)
    ensures TokenizeActions(actions, env).Ok? ==> GoodTimeline(TokenizeActions(actions, env).value)
  {
    var empties := FilterByType(actions, ACTION_TYPE_NONE, |actions|);
    if empties.Ok? {
      AllEmptyGood([], empties.value, |empties.value|);
      var t1 := ApplyAllEmpty([], empties.value, |empties.value|);
      var keys := FilterByType(actions, ACTION_TYPE_KEY, |actions|);
      if t1.Ok? && keys.Ok? {
        AllKeyGood(t1.value, keys.value, |keys.value|);
        var t2 := ApplyAllKey(t1.value, keys.value, |keys.value|);
        var pointers := FilterByType(actions, ACTION_TYPE_POINTER, |actions|);
        if t2.Ok? && pointers.Ok? {
          AllPointerGood(t2.value, pointers.value, |pointers.value|, env);
        }
      }
    }
  }

  // -----------------------------------------------------------------------
  // A pointerMove stays inside its time window
  // -----------------------------------------------------------------------

  lemma RecordDeltas(slots: seq<Slot>, t: int, ev: Option<EventParams>)
    ensures Deltas(Record(slots, t, ev)) == Deltas(slots) + {t}
  {
    AddEventAtDeltas(slots, t, EntryAdjusted(slots, t, ev));
  }

  lemma {:induction false} MoveStepsDeltas(tokens: seq<Slot>, m: Move, k: int)
    requires m.steps > 0
    ensures Deltas(tokens) <= Deltas(MoveSteps(tokens, m, k))
    ensures forall t :: t in Deltas(MoveSteps(tokens, m, k)) && t !in Deltas(tokens) ==> m.first + D <= t <= m.first + D * (k - 1)
    decreases k
  {
    if k >= 2 {
      MoveStepsDeltas(tokens, m, k - 1);
      RecordDeltas(MoveSteps(tokens, m, k - 1), m.first + D * (k - 1), Some(StepEvent(m, k)));
    }
  }

  /**
   * A move of aligned duration at least D records only in
   * [FirstMoveDelta, start + duration], opens the slot of its first event
   * unless it is a short hover, keeps the pointer state, and ends the clock at
   * start + duration.
   */
  lemma MoveStepWindow(p: Pointer, st: PointerState, duration: int, start: Coords, end: Coords)
    requires duration >= D
    ensures var r := MoveStep(p, st, duration, start, end);
      && r.timeDelta == st.timeDelta + duration
      && r.isDown == st.isDown && r.chainEntry == st.chainEntry
      && Deltas(st.tokens) <= Deltas(r.tokens)
      && (forall t :: t in Deltas(r.tokens) && t !in Deltas(st.tokens) ==>
            FirstMoveDelta(st) <= t <= st.timeDelta + duration)
      && (!HoverTooShort(p, st, duration) ==> FirstMoveDelta(st) in Deltas(r.tokens))
  {
    var first := FirstMoveDelta(st);
    if HoverTooShort(p, st, duration) {
      RecordDeltas(st.tokens, st.timeDelta + duration, None);
    } else {
      var firstEvent := FirstMoveEvent(p, st, duration, start, end);
      var afterFirst := Record(st.tokens, first, Some(firstEvent));
      RecordDeltas(st.tokens, first, Some(firstEvent));
      var steps := StepsCount(st, duration);
      if steps > 0 {
        MoveStepsDeltas(afterFirst, MoveOf(p, st, duration, start, end), steps);
        assert D * steps <= st.timeDelta + duration - first;
      }
    }
  }

  // -----------------------------------------------------------------------
  // Downs and ups of one pointer alternate
  // -----------------------------------------------------------------------

  /** Whether the most recent pointerDown/pointerUp among the first n items is a down. */
  function PressedAfter(items: seq<Item>, n: nat): bool
    requires n <= |items|
  {
    if n == 0 then false
    else if items[n - 1].itemType == Some(ITEM_POINTER_DOWN) then true
    else if items[n - 1].itemType == Some(ITEM_POINTER_UP) then false
    else PressedAfter(items, n - 1)
  }

  /** Item k presses only a released pointer and releases only a pressed one. */
  predicate PressLegal(items: seq<Item>, k: nat)
    requires k < |items|
  {
    && (items[k].itemType == Some(ITEM_POINTER_DOWN) ==> !PressedAfter(items, k))
    && (items[k].itemType == Some(ITEM_POINTER_UP) ==> PressedAfter(items, k))
  }

  /** An accepted item presses only a released pointer and releases only a pressed one. */
  lemma PointerStepAlternates(p: Pointer, idx: nat, st: PointerState)
    requires idx < |p.items| && st.isDown == PressedAfter(p.items, idx)
    ensures PointerStep(p, idx, st).Ok? ==>
      PointerStep(p, idx, st).value.isDown == PressedAfter(p.items, idx + 1) && PressLegal(p.items, idx)
  {
    if PointerStep(p, idx, st).Ok? {
      var itemType := p.items[idx].itemType.value;
      if itemType == ITEM_POINTER_DOWN {
        assert DownStep(p, idx, st).Ok?;
      } else if itemType == ITEM_POINTER_UP {
        assert UpStep(p, idx, st).Ok?;
      } else if itemType == ITEM_POINTER_MOVE {
        assert MoveItemStep(p, idx, st).Ok?;
      }
    }
  }

  /** An accepted pointer chain alternates downs and ups, starting from released. */
  lemma {:induction false} PointerFoldAlternates(p: Pointer, tokens: seq<Slot>, n: nat)
    requires n <= |p.items|
    ensures PointerFold(p, tokens, n).Ok? ==>
      PointerFold(p, tokens, n).value.isDown == PressedAfter(p.items, n)
      && forall k :: 0 <= k < n ==> PressLegal(p.items, k)
  {
    if n > 0 {
      PointerFoldAlternates(p, tokens, n - 1);
      var prev := PointerFold(p, tokens, n - 1);
      if prev.Ok? {
        PointerStepAlternates(p, n - 1, prev.value);
        assert PointerFold(p, tokens, n) == PointerStep(p, n - 1, prev.value);
        if PointerFold(p, tokens, n).Ok? {
          assert PressLegal(p.items, n - 1);
          assert forall k :: 0 <= k < n - 1 ==> PressLegal(p.items, k);
        }
      } else {
        assert PointerFold(p, tokens, n).Err?;
      }
    }
  }

  // -----------------------------------------------------------------------
  // The clock of a source and what none and key sources record
  // -----------------------------------------------------------------------

  /** How far a pause item moves the clock: its aligned duration. */
  function PauseLength(item: Item): int
  {
    if item.itemType == Some(ITEM_PAUSE) && item.duration.Some? then AlignDuration(item.duration.value) else 0
  }

  /** The clock of a none or key source after its first n items. */
  function Clock(items: seq<Item>, n: nat): int
    requires n <= |items|
  {
    if n == 0 then 0 else Clock(items, n - 1) + PauseLength(items[n - 1])
  }

  /** u is the clock after one of the first n items. */
  predicate ClockReaches(items: seq<Item>, n: nat, u: int)
    requires n <= |items|
  {
    exists k :: 1 <= k <= n && Clock(items, k) == u
  }

  lemma ClockReachesStep(items: seq<Item>, n: nat, u: int)
    requires 0 < n <= |items|
    ensures ClockReaches(items, n, u) <==> ClockReaches(items, n - 1, u) || Clock(items, n) == u
  {
    if ClockReaches(items, n, u) && Clock(items, n) != u {
      var k :| 1 <= k <= n && Clock(items, k) == u;
      assert 1 <= k <= n - 1;
    }
  }

  /** Opening an empty slot at t adds t to the times that read as an empty slot. */
  lemma AddEmptySlot(base: seq<Slot>, slots: seq<Slot>, t: int, u: int, reachedBefore: bool)
    requires Sorted(slots)
    requires EventsAt(slots, u) == (if EventsAt(base, u).None? && reachedBefore then Some([]) else EventsAt(base, u))
    ensures EventsAt(AddEventAt(slots, t, None), u) ==
      (if EventsAt(base, u).None? && (reachedBefore || u == t) then Some([]) else EventsAt(base, u))
  {
    EventsAtAdd(slots, t, None, u);
    if u == t {
      var none: seq<EventParams> := [];
      assert none + OptList(None) == none;
      if EventsAt(base, u).Some? {
        assert EventsAt(base, u).value + OptList(None) == EventsAt(base, u).value;
      }
    }
  }

  /**
   * A none source is accepted exactly when every item is a pause with a valid
   * duration; it then opens an empty slot at every cumulative pause time and
   * changes nothing else.
   */
  lemma {:induction false} EmptyFoldMeaning(action: Action, items: seq<Item>, tokens: seq<Slot>, n: nat)
    requires n <= |items| && Sorted(tokens)
    ensures EmptyFold(action, items, tokens, n).Ok? <==>
      forall k :: 0 <= k < n ==> items[k].itemType == Some(ITEM_PAUSE) && ExtractDuration(action.id, items[k]).Ok?
    ensures EmptyFold(action, items, tokens, n).Ok? ==>
      var (tk, td) := EmptyFold(action, items, tokens, n).value;
      && td == Clock(items, n) && Sorted(tk)
      && forall u :: EventsAt(tk, u) ==
           (if EventsAt(tokens, u).None? && ClockReaches(items, n, u) then Some([]) else EventsAt(tokens, u))
  {
    if n > 0 {
      EmptyFoldMeaning(action, items, tokens, n - 1);
      var prev := EmptyFold(action, items, tokens, n - 1);
      if prev.Ok? {
        var (tk0, td0) := prev.value;
        if EmptyStep(action, tk0, td0, items[n - 1]).Ok? {
          var t := Clock(items, n);
          AddEventAtSorted(tk0, t, None);
          forall u
            ensures EventsAt(AddEventAt(tk0, t, None), u) ==
              (if EventsAt(tokens, u).None? && ClockReaches(items, n, u) then Some([]) else EventsAt(tokens, u))
          {
            ClockReachesStep(items, n, u);
            AddEmptySlot(tokens, tk0, t, u, ClockReaches(items, n - 1, u));
          }
        }
      }
    }
  }

  /** The clock value when the most recent keyDown/keyUp among the first n items happened; 0 before any. */
  function LastKeyTime(items: seq<Item>, n: nat): int
    requires n <= |items|
  {
    if n == 0 then 0
    else if items[n - 1].itemType in {Some(ITEM_KEY_DOWN), Some(ITEM_KEY_UP)} then Clock(items, n - 1)
    else LastKeyTime(items, n - 1)
  }

  lemma {:induction false} KeyFoldClock(action: Action, items: seq<Item>, tokens: seq<Slot>, n: nat)
    requires n <= |items|
    ensures KeyFold(action, items, tokens, n).Ok? ==>
      KeyFold(action, items, tokens, n).value.timeDelta == Clock(items, n)
      && KeyFold(action, items, tokens, n).value.chainEntry == LastKeyTime(items, n)
  {
    if n > 0 {
      KeyFoldClock(action, items, tokens, n - 1);
    }
  }

  /**
   * Item n of a key source, a keyDown or keyUp, appends one key event at the
   * current clock: its code is the first character of the non-empty value, a
   * keyDown starts at its own time and a keyUp at the time of the previous key
   * item.
   */
  lemma KeyEventRecorded(action: Action, items: seq<Item>, tokens: seq<Slot>, n: nat)
    requires n < |items| && items[n].itemType in {Some(ITEM_KEY_DOWN), Some(ITEM_KEY_UP)}
    ensures KeyFold(action, items, tokens, n + 1).Ok? ==>
      var down := items[n].itemType == Some(ITEM_KEY_DOWN);
      && items[n].value.Some? && items[n].value.value != []
      && KeyFold(action, items, tokens, n + 1).value.tokens ==
         AddEventAt(KeyFold(action, items, tokens, n).value.tokens, Clock(items, n),
                    Some(KeyParams(if down then Clock(items, n) else LastKeyTime(items, n),
                                   if down then KEY_ACTION_DOWN else KEY_ACTION_UP,
                                   items[n].value.value[0] as int)))
  {
    KeyFoldClock(action, items, tokens, n);
  }

  // -----------------------------------------------------------------------
  // Coordinates need a preceding move
  // -----------------------------------------------------------------------

  /** With no pointerMove among items 0..idx, their coordinates cannot be resolved. */
  lemma {:induction false} NoMoveNoCoordinates(actionId: string, items: seq<Item>, idx: nat, env: Env)
    requires idx < |items|
    requires forall j :: 0 <= j <= idx ==> items[j].itemType.Some? && items[j].itemType.value != ITEM_POINTER_MOVE
    ensures ExtractCoordinates(actionId, items, idx, env) == Err(Parse(NoPrecedingCoordinates(actionId)))
  {
    if idx > 0 {
      NoMoveNoCoordinates(actionId, items, idx - 1, env);
    }
  }
}
