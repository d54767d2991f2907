/**
 * ActionsTokenizer: compiles a preprocessed W3C action chain (W3C WebDriver
 * Recommendation, section 17) into a timeline of key and motion events keyed
 * by millisecond deltas on the D-millisecond injection grid.
 *
 * The pure helpers (duration alignment, button and tool-type mapping,
 * coordinate resolution) are functions. The `apply*` loops and the
 * timeline field are a class whose methods are proved equal to fold
 * functions over the action items (`EmptyFold`, `KeyFold`, `PointerFold`).
 * Properties of the folds are proved in module TokenizerProperties.
 */
module ActionsTokenizer {
  import opened Common
  import opened Json
  import opened ActionsData
  import opened ActionTokens

  /**
   * What looking up an element id and reading its bounds gives: the bounds;
   * nothing usable (no cached element, whose null is dereferenced, or a
   * UiObjectNotFoundException from getBounds); or an exception that is passed on.
   */
  datatype ElementLookup = Bounds(rect: Rect) | NotFound | Thrown(exception: LookupException)

  /** What the tokenizer reads from the device: Build.VERSION.SDK_INT and the element lookup per id. */
  datatype Env = Env(sdkInt: int, elementBounds: map<string, ElementLookup>)

  /** The lookup of an element id; an id the cache does not know gives null, hence NotFound. */
  function LookupElement(env: Env, elementId: string): ElementLookup
  {
    if elementId in env.elementBounds then env.elementBounds[elementId] else NotFound
  }

  /** An ActionsParseException whose message needs the action id; a missing id raises a JSONException instead. */
  function ParseErr(id: Option<string>, reason: string -> ParseError): ActionsError
  {
    if id.None? then MissingKey("id") else Parse(reason(id.value))
  }

  /** alignDuration: round a duration up to the injection grid. */
  function AlignDuration(ms: int): (r: int)
    ensures ms <= 0 ==> r == 0
    ensures ms > 0 ==> r >= ms && r - ms < D && r % D == 0
  {
    if ms <= 0 then 0
    else if ms < D then D
    else
      var modResult := ms % D;
      if modResult == 0 then ms else ms + D - modResult
  }

  /** extractDuration: the item's duration, which must be present and not negative. */
  function ExtractDuration(id: Option<string>, item: Item): (r: Result<int, ActionsError>)
    ensures r.Ok? <==> item.duration.Some? && item.duration.value >= 0
    ensures r.Ok? ==> r.value == item.duration.value
  {
    if item.duration.None? then Err(ParseErr(id, (i: string) => MissingDuration(i)))
    else if item.duration.value < 0 then Err(ParseErr(id, (i: string) => NegativeDuration(i)))
    else Ok(item.duration.value)
  }

  /** extractButton: W3C button codes mapped to Android ones; a finger passes the code through. */
  function ExtractButton(item: Item, toolType: int, sdkInt: int): (b: int)
    ensures toolType == TOOL_TYPE_FINGER ==> b == (if item.button.Some? then item.button.value else 0)
    ensures toolType != TOOL_TYPE_FINGER && item.button.None? ==>
      b == (if toolType == TOOL_TYPE_STYLUS && sdkInt >= 23 then BUTTON_STYLUS_PRIMARY else BUTTON_PRIMARY)
    ensures toolType != TOOL_TYPE_FINGER && item.button == Some(MOUSE_BUTTON_LEFT) ==>
      b == (if toolType == TOOL_TYPE_STYLUS && sdkInt >= 23 then BUTTON_STYLUS_PRIMARY else BUTTON_PRIMARY)
    ensures toolType != TOOL_TYPE_FINGER && item.button == Some(MOUSE_BUTTON_MIDDLE) ==> b == BUTTON_TERTIARY
    ensures toolType != TOOL_TYPE_FINGER && item.button == Some(MOUSE_BUTTON_RIGHT) ==>
      b == (if toolType == TOOL_TYPE_STYLUS && sdkInt >= 23 then BUTTON_STYLUS_SECONDARY else BUTTON_SECONDARY)
    ensures toolType != TOOL_TYPE_FINGER && item.button.Some? && item.button.value !in {0, 1, 2} ==>
      b == item.button.value
  {
    if toolType == TOOL_TYPE_FINGER then
      if item.button.Some? then item.button.value else 0
    else
      var button := if item.button.Some? then item.button.value else MOUSE_BUTTON_LEFT;
      if button == MOUSE_BUTTON_LEFT then
        (if toolType == TOOL_TYPE_STYLUS && sdkInt >= 23 then BUTTON_STYLUS_PRIMARY else BUTTON_PRIMARY)
      else if button == MOUSE_BUTTON_MIDDLE then BUTTON_TERTIARY
      else if button == MOUSE_BUTTON_RIGHT then
        (if toolType == TOOL_TYPE_STYLUS && sdkInt >= 23 then BUTTON_STYLUS_SECONDARY else BUTTON_SECONDARY)
      else button
  }

  /** actionToToolType: mouse, pen and touch pointers; anything else is a finger. */
  function ActionToToolType(action: Action): (t: int)
    ensures t in {TOOL_TYPE_FINGER, TOOL_TYPE_STYLUS, TOOL_TYPE_MOUSE}
    ensures t == TOOL_TYPE_MOUSE <==>
      action.parameters.Some? && action.parameters.value.pointerType == Some(POINTER_TYPE_MOUSE)
    ensures t == TOOL_TYPE_STYLUS <==>
      action.parameters.Some? && action.parameters.value.pointerType == Some(POINTER_TYPE_PEN)
  {
    if action.parameters.Some? && action.parameters.value.pointerType.Some? then
      var pt := action.parameters.value.pointerType.value;
      if pt == POINTER_TYPE_MOUSE then TOOL_TYPE_MOUSE
      else if pt == POINTER_TYPE_PEN then TOOL_TYPE_STYLUS
      else TOOL_TYPE_FINGER
    else TOOL_TYPE_FINGER
  }

  /** assertPointersCount: a mouse or a pen may only be the first pointer source. */
  function AssertPointersCount(toolType: int, pointerIndex: int): (r: Option<ActionsError>)
    ensures r.Some? <==> (toolType == TOOL_TYPE_MOUSE || toolType == TOOL_TYPE_STYLUS) && pointerIndex > 0
  {
    if (toolType == TOOL_TYPE_MOUSE || toolType == TOOL_TYPE_STYLUS) && pointerIndex > 0 then
      Some(Parse(TooManyPointers(toolType)))
    else None
  }

  /** The element id an `origin` names: a string, or an object whose first key starts with "element". */
  function OriginElementId(origin: JValue): (r: Option<string>)
    ensures origin.JString? ==> r == Some(origin.s)
    ensures origin.JObject? ==>
      (r.Some? <==> origin.members != [] && StartsWith(LowerAsciiString(origin.members[0].0), "element"))
    ensures origin.JObject? && r.Some? ==> r.value == ValueOf(origin.members[0].1)
    ensures !origin.JString? && !origin.JObject? ==> r == None
  {
    match origin
    case JString(s) => Some(s)
    case JObject(ms) =>
      if ms != [] && StartsWith(LowerAsciiString(ms[0].0), "element") then Some(ValueOf(ms[0].1)) else None
    case _ => None
  }

  /**
   * extractElementCoordinates: the centre of the element's bounds, shifted by
   * the optional x and y. An unknown element and a zero-sized one are
   * ActionsParseExceptions; a lookup exception other than the caught
   * NullPointerException and UiObjectNotFoundException is passed on.
   */
  function ExtractElementCoordinates(actionId: string, item: Item, origin: JValue, env: Env): (r: Result<Coords, ActionsError>)
    ensures OriginElementId(origin).None? ==> r == Err(Parse(UnknownElement(actionId)))
    ensures OriginElementId(origin).Some? ==>
      var elementId := OriginElementId(origin).value;
      match LookupElement(env, elementId)
      case NotFound => r == Err(Parse(UnknownElementId(actionId, elementId)))
      case Thrown(e) => r == Err(Uncaught(e))
      case Bounds(bounds) =>
        && (r.Ok? <==> bounds.Width() != 0 && bounds.Height() != 0)
        && (r.Err? ==> r == Err(Parse(ZeroSizeElement(actionId, elementId))))
        && (r.Ok? ==> r.value == Coords((bounds.left + JavaDiv(bounds.Width(), 2)) as real + OffsetX(item),
                                        (bounds.top + JavaDiv(bounds.Height(), 2)) as real + OffsetY(item)))
  {
    var elementId := OriginElementId(origin);
    if elementId.None? then Err(Parse(UnknownElement(actionId)))
    else
      match LookupElement(env, elementId.value)
      case NotFound => Err(Parse(UnknownElementId(actionId, elementId.value)))
      case Thrown(e) => Err(Uncaught(e))
      case Bounds(bounds) =>
        if bounds.Width() == 0 || bounds.Height() == 0 then Err(Parse(ZeroSizeElement(actionId, elementId.value)))
        else
          var cx := (bounds.left + JavaDiv(bounds.Width(), 2)) as real;
          var cy := (bounds.top + JavaDiv(bounds.Height(), 2)) as real;
          Ok(Coords(cx + OffsetX(item), cy + OffsetY(item)))
  }

  /** The `origin` of a move item; the viewport when the key is absent. */
  function OriginOf(item: Item): JValue
  {
    if item.origin.Some? then item.origin.value else JString(ORIGIN_VIEWPORT)
  }

  function OffsetX(item: Item): real { if item.x.Some? then item.x.value else 0.0 }

  function OffsetY(item: Item): real { if item.y.Some? then item.y.value else 0.0 }

  /**
   * extractCoordinates: the coordinates an item denotes. Non-move items take
   * those of the nearest preceding item; a move is relative to the viewport,
   * to the previous coordinates, or to an element.
   */
  function ExtractCoordinates(actionId: string, items: seq<Item>, idx: int, env: Env): (r: Result<Coords, ActionsError>)
    requires idx < |items|
    ensures idx < 0 ==> r == Err(Parse(NoStartCoordinates(actionId)))
    ensures 0 <= idx && items[idx].itemType == Some(ITEM_POINTER_MOVE) && OriginOf(items[idx]) == JString(ORIGIN_VIEWPORT) ==>
      (r.Ok? <==> items[idx].x.Some? && items[idx].y.Some?)
      && (r.Ok? ==> r.value == Coords(items[idx].x.value, items[idx].y.value))
    ensures idx == 0 && items[0].itemType == Some(ITEM_POINTER_MOVE) && OriginOf(items[0]) == JString(ORIGIN_POINTER) ==>
      r == Err(Parse(NoPrecedingAbsoluteCoordinates(actionId)))
    ensures 0 < idx && items[idx].itemType == Some(ITEM_POINTER_MOVE) && OriginOf(items[idx]) == JString(ORIGIN_POINTER) ==>
      var recent := ExtractCoordinates(actionId, items, idx - 1, env);
      (r.Ok? <==> recent.Ok?)
      && (r.Ok? ==> r.value == Coords(recent.value.x + OffsetX(items[idx]), recent.value.y + OffsetY(items[idx])))
    decreases idx + 1
  {
    if idx < 0 then Err(Parse(NoStartCoordinates(actionId)))
    else
      var item := items[idx];
      if item.itemType.None? then Err(MissingKey("type"))
      else if item.itemType.value != ITEM_POINTER_MOVE then
        if idx > 0 then ExtractCoordinates(actionId, items, idx - 1, env)
        else Err(Parse(NoPrecedingCoordinates(actionId)))
      else
        var origin := OriginOf(item);
        if origin == JString(ORIGIN_VIEWPORT) then
          if item.x.None? || item.y.None? then Err(Parse(MissingViewportCoordinate(actionId)))
          else Ok(Coords(item.x.value, item.y.value))
        else if origin == JString(ORIGIN_POINTER) then
          if idx > 0 then
            match ExtractCoordinates(actionId, items, idx - 1, env)
            case Err(e) => Err(e)
            case Ok(recent) => Ok(Coords(recent.x + OffsetX(item), recent.y + OffsetY(item)))
          else Err(Parse(NoPrecedingAbsoluteCoordinates(actionId)))
        else ExtractElementCoordinates(actionId, item, origin, env)
  }

  // -----------------------------------------------------------------------
  // findEntryPointDeltaForSecondaryAction and recordEventParams
  // -----------------------------------------------------------------------

  /** The entry-point scan state: the candidate delta and the down/up balance. */
  datatype Balance = Balance(result: Option<int>, upDownBalance: int)

  function CountEvent(b: Balance, delta: int, e: EventParams): Balance
  {
    if e.MotionParams? && e.actionCode == MOTION_ACTION_DOWN then
      Balance(if b.upDownBalance == 0 then Some(delta) else b.result, b.upDownBalance + 1)
    else if e.MotionParams? && e.actionCode == MOTION_ACTION_UP then
      Balance(b.result, b.upDownBalance - 1)
    else b
  }

  /** The scan state after the first n events of one slot. */
  function CountEvents(b: Balance, delta: int, events: seq<EventParams>, n: nat): Balance
    requires n <= |events|
  {
    if n == 0 then b else CountEvent(CountEvents(b, delta, events, n - 1), delta, events[n - 1])
  }

  /** The scan state after the first n slots, and whether the scan stopped at a slot later than t. */
  function ScanSlots(slots: seq<Slot>, t: int, n: nat): (Balance, bool)
    requires n <= |slots|
  {
    if n == 0 then (Balance(None, 0), false)
    else
      var (b, stopped) := ScanSlots(slots, t, n - 1);
      if stopped || slots[n - 1].delta > t then (b, true)
      else (CountEvents(b, slots[n - 1].delta, slots[n - 1].events, |slots[n - 1].events|), false)
  }

  /** The delta of the first down of the current multi-touch gesture, when more than one pointer is down at t. */
  function EntryPoint(slots: seq<Slot>, t: int): Option<int>
  {
    var (b, _) := ScanSlots(slots, t, |slots|);
    if b.upDownBalance > 1 then b.result else None
  }

  /** The same event record with another start delta. */
  function WithStartDelta(e: EventParams, d: int): EventParams
  {
    match e
    case KeyParams(_, keyAction, keyCode) => KeyParams(d, keyAction, keyCode)
    case MotionParams(_, actionCode, coords, button, pointerId, toolType) =>
      MotionParams(d, actionCode, coords, button, pointerId, toolType)
  }

  /** The event recordEventParams stores: a secondary down, up or move starts at the gesture's entry point. */
  function EntryAdjusted(slots: seq<Slot>, t: int, ev: Option<EventParams>): Option<EventParams>
  {
    var entry := EntryPoint(slots, t);
    if ev.Some? && ev.value.MotionParams?
      && ev.value.actionCode in {MOTION_ACTION_UP, MOTION_ACTION_DOWN, MOTION_ACTION_MOVE} && entry.Some?
    then Some(WithStartDelta(ev.value, entry.value))
    else ev
  }

  /** recordEventParams */
  function Record(slots: seq<Slot>, t: int, ev: Option<EventParams>): seq<Slot>
  {
    AddEventAt(slots, t, EntryAdjusted(slots, t, ev))
  }

  lemma {:induction false} ScanStopSticks(slots: seq<Slot>, t: int, n: nat, m: nat)
    requires n <= m <= |slots| && ScanSlots(slots, t, n).1
    ensures ScanSlots(slots, t, m) == ScanSlots(slots, t, n)
    decreases m - n
  {
    if n < m {
      ScanStopSticks(slots, t, n, m - 1);
    }
  }

  // -----------------------------------------------------------------------
  // The folds over action items
  // -----------------------------------------------------------------------

  /** One item of a `none` source: only pauses, each advancing the clock and opening a slot. */
  function EmptyStep(action: Action, tokens: seq<Slot>, timeDelta: int, item: Item): (r: Result<(seq<Slot>, int), ActionsError>)
    ensures r.Ok? <==> item.itemType == Some(ITEM_PAUSE) && ExtractDuration(action.id, item).Ok?
    ensures r.Ok? ==> (r.value.1 == timeDelta + AlignDuration(item.duration.value)
                       && r.value.0 == AddEventAt(tokens, r.value.1, None))
  {
    if item.itemType.None? then Err(MissingKey("type"))
    else if item.itemType.value != ITEM_PAUSE then
      Err(ParseErr(action.id, (i: string) => UnexpectedItem(i, item.itemType.value)))
    else
      match ExtractDuration(action.id, item)
      case Err(e) => Err(e)
      case Ok(d) =>
        var t := timeDelta + AlignDuration(d);
        Ok((Record(tokens, t, None), t))
  }

  function EmptyFold(action: Action, items: seq<Item>, tokens: seq<Slot>, n: nat): Result<(seq<Slot>, int), ActionsError>
    requires n <= |items|
  {
    if n == 0 then Ok((tokens, 0))
    else
      match EmptyFold(action, items, tokens, n - 1)
      case Err(e) => Err(e)
      case Ok(st) => EmptyStep(action, st.0, st.1, items[n - 1])
  }

  /** applyEmptyActionToEventsMapping */
  function ApplyEmpty(tokens: seq<Slot>, action: Action): Result<seq<Slot>, ActionsError>
  {
    if action.items.None? then Err(MissingKey("actions"))
    else
      match EmptyFold(action, action.items.value, tokens, |action.items.value|)
      case Err(e) => Err(e)
      case Ok(st) => Ok(st.0)
  }

  datatype KeyState = KeyState(tokens: seq<Slot>, timeDelta: int, chainEntry: int)

  /** One item of a `key` source. A keyDown first moves the chain entry point to now. */
  function KeyStep(action: Action, st: KeyState, item: Item): (r: Result<KeyState, ActionsError>)
    ensures r.Ok? ==> item.itemType.Some? && item.itemType.value in {ITEM_PAUSE, ITEM_KEY_DOWN, ITEM_KEY_UP}
    ensures r.Ok? && item.itemType.value != ITEM_PAUSE ==>
      item.value.Some? && item.value.value != [] && r.value.timeDelta == st.timeDelta && r.value.chainEntry == st.timeDelta
    ensures r.Ok? && item.itemType.value == ITEM_PAUSE ==>
      ExtractDuration(action.id, item).Ok? && r.value.timeDelta == st.timeDelta + AlignDuration(item.duration.value)
  {
    if item.itemType.None? then Err(MissingKey("type"))
    else
      var itemType := item.itemType.value;
      if itemType == ITEM_PAUSE then
        match ExtractDuration(action.id, item)
        case Err(e) => Err(e)
        case Ok(d) =>
          var t := st.timeDelta + AlignDuration(d);
          Ok(KeyState(Record(st.tokens, t, None), t, st.chainEntry))
      else if itemType == ITEM_KEY_DOWN || itemType == ITEM_KEY_UP then
        var chainEntry := if itemType == ITEM_KEY_DOWN then st.timeDelta else st.chainEntry;
        if item.value.None? then Err(ParseErr(action.id, (i: string) => MissingKeyValue(i)))
        else if item.value.value == [] then Err(ParseErr(action.id, (i: string) => EmptyKeyValue(i)))
        else
          var ev := KeyParams(chainEntry, if itemType == ITEM_KEY_DOWN then KEY_ACTION_DOWN else KEY_ACTION_UP,
                              item.value.value[0] as int);
          Ok(KeyState(Record(st.tokens, st.timeDelta, Some(ev)), st.timeDelta, st.timeDelta))
      else Err(ParseErr(action.id, (i: string) => UnexpectedItem(i, itemType)))
  }

  function KeyFold(action: Action, items: seq<Item>, tokens: seq<Slot>, n: nat): Result<KeyState, ActionsError>
    requires n <= |items|
  {
    if n == 0 then Ok(KeyState(tokens, 0, 0))
    else
      match KeyFold(action, items, tokens, n - 1)
      case Err(e) => Err(e)
      case Ok(st) => KeyStep(action, st, items[n - 1])
  }

  /** applyKeyActionToEventsMapping */
  function ApplyKey(tokens: seq<Slot>, action: Action): Result<seq<Slot>, ActionsError>
  {
    if action.items.None? then Err(MissingKey("actions"))
    else
      match KeyFold(action, action.items.value, tokens, |action.items.value|)
      case Err(e) => Err(e)
      case Ok(st) => Ok(st.tokens)
  }

  /** The local variables of applyPointerActionToEventsMapping. */
  datatype PointerState = PointerState(
    tokens: seq<Slot>, timeDelta: int, chainEntry: int,
    recentUp: int, recentDown: int, isDown: bool, recentButton: int)

  /** The fixed parameters of one pointer source. */
  datatype Pointer = Pointer(actionId: string, items: seq<Item>, toolType: int, pointerId: int, env: Env)

  /** What one pointerMove schedules after its first event: steps 2..steps, D apart. */
  datatype Move = Move(hover: bool, first: int, steps: int, chainEntry: int,
                       start: Coords, end: Coords, button: int, pointerId: int, toolType: int)

  /** The share `step/steps` of the way from a to b. */
  function Interpolate(a: real, b: real, step: int, steps: int): real
    requires steps > 0
  {
    a + (b - a) / (steps as real) * (step as real)
  }

  /** The event of one intermediate step; the last step of a hover is the hover exit. */
  function StepEvent(m: Move, step: int): EventParams
    requires m.steps > 0
  {
    if step == m.steps && m.hover then
      MotionParams(m.first, MOTION_ACTION_HOVER_EXIT, m.end, 0, m.pointerId, m.toolType)
    else
      MotionParams(if m.hover then m.first else m.chainEntry,
                   if m.hover then MOTION_ACTION_HOVER_MOVE else MOTION_ACTION_MOVE,
                   Coords(Interpolate(m.start.x, m.end.x, step, m.steps), Interpolate(m.start.y, m.end.y, step, m.steps)),
                   m.button, m.pointerId, m.toolType)
  }

  /** The timeline after steps 2..k of a move; step s is recorded at first + D * (s - 1). */
  function MoveSteps(tokens: seq<Slot>, m: Move, k: int): seq<Slot>
    requires m.steps > 0
    decreases k
  {
    if k < 2 then tokens else Record(MoveSteps(tokens, m, k - 1), m.first + D * (k - 1), Some(StepEvent(m, k)))
  }

  /** When the move's first event happens: one step late if a down or up was just recorded. */
  function FirstMoveDelta(st: PointerState): int
  {
    if st.recentDown == st.timeDelta || st.recentUp == st.timeDelta then st.timeDelta + D else st.timeDelta
  }

  /** How many D-steps fit between the first event and the end of the move. */
  function StepsCount(st: PointerState, duration: int): int
  {
    (st.timeDelta + duration - FirstMoveDelta(st)) / D
  }

  /** A short hover of a mouse that is not pressed only books its time. */
  function HoverTooShort(p: Pointer, st: PointerState, duration: int): bool
  {
    !st.isDown && p.toolType == TOOL_TYPE_MOUSE && duration <= D * 3
  }

  function IsHover(p: Pointer, st: PointerState): bool
  {
    !st.isDown && p.toolType == TOOL_TYPE_MOUSE
  }

  /** The first event of a move: a hover enter, or a move to the start (or straight to the end for one step). */
  function FirstMoveEvent(p: Pointer, st: PointerState, duration: int, start: Coords, end: Coords): EventParams
  {
    if IsHover(p, st) then
      MotionParams(FirstMoveDelta(st), MOTION_ACTION_HOVER_ENTER, start, 0, p.pointerId, p.toolType)
    else
      MotionParams(st.chainEntry, MOTION_ACTION_MOVE, if StepsCount(st, duration) <= 1 then end else start,
                   st.recentButton, p.pointerId, p.toolType)
  }

  function MoveOf(p: Pointer, st: PointerState, duration: int, start: Coords, end: Coords): Move
  {
    Move(IsHover(p, st), FirstMoveDelta(st), StepsCount(st, duration), st.chainEntry, start, end,
         st.recentButton, p.pointerId, p.toolType)
  }

  /** A pointerMove item of duration `duration` (already aligned, at least D) that is not the first item. */
  function MoveStep(p: Pointer, st: PointerState, duration: int, start: Coords, end: Coords): PointerState
  {
    if HoverTooShort(p, st, duration) then
      st.(tokens := Record(st.tokens, st.timeDelta + duration, None), timeDelta := st.timeDelta + duration)
    else
      var afterFirst := Record(st.tokens, FirstMoveDelta(st), Some(FirstMoveEvent(p, st, duration, start, end)));
      if StepsCount(st, duration) > 0 then
        st.(tokens := MoveSteps(afterFirst, MoveOf(p, st, duration, start, end), StepsCount(st, duration)),
            timeDelta := st.timeDelta + duration)
      else st.(tokens := afterFirst, timeDelta := st.timeDelta + duration)
  }

  /** A pointerDown: refused while the pointer is down or when a down was just recorded at this moment. */
  function DownStep(p: Pointer, idx: nat, st: PointerState): (r: Result<PointerState, ActionsError>)
    requires idx < |p.items|
    ensures st.isDown || st.recentDown == st.timeDelta ==> r == Err(Parse(DownWithoutPause(p.actionId, st.timeDelta)))
    ensures r.Ok? ==> (!st.isDown && r.value.isDown && r.value.timeDelta == st.timeDelta
                       && r.value.chainEntry == st.timeDelta && r.value.recentDown == st.timeDelta)
  {
    if st.isDown || st.recentDown == st.timeDelta then Err(Parse(DownWithoutPause(p.actionId, st.timeDelta)))
    else
      var button := ExtractButton(p.items[idx], p.toolType, p.env.sdkInt);
      match ExtractCoordinates(p.actionId, p.items, idx, p.env)
      case Err(e) => Err(e)
      case Ok(c) =>
        var ev := MotionParams(st.timeDelta, MOTION_ACTION_DOWN, c, button, p.pointerId, p.toolType);
        Ok(st.(tokens := Record(st.tokens, st.timeDelta, Some(ev)), chainEntry := st.timeDelta,
               recentButton := button, isDown := true, recentDown := st.timeDelta))
  }

  /** A pointerUp: refused unless the pointer is down, and when an up was just recorded at this moment. */
  function UpStep(p: Pointer, idx: nat, st: PointerState): (r: Result<PointerState, ActionsError>)
    requires idx < |p.items|
    ensures !st.isDown ==> r == Err(Parse(UpWithoutDown(p.actionId, st.timeDelta)))
    ensures st.isDown && st.recentUp == st.timeDelta ==> r == Err(Parse(UpWithoutPause(p.actionId, st.timeDelta)))
    ensures r.Ok? ==> (st.isDown && !r.value.isDown && r.value.recentButton == 0 && r.value.timeDelta == st.timeDelta
                       && r.value.chainEntry == st.timeDelta && r.value.recentUp == st.timeDelta)
  {
    if !st.isDown then Err(Parse(UpWithoutDown(p.actionId, st.timeDelta)))
    else if st.recentUp == st.timeDelta then Err(Parse(UpWithoutPause(p.actionId, st.timeDelta)))
    else
      var button := ExtractButton(p.items[idx], p.toolType, p.env.sdkInt);
      match ExtractCoordinates(p.actionId, p.items, idx, p.env)
      case Err(e) => Err(e)
      case Ok(c) =>
        var ev := MotionParams(st.chainEntry, MOTION_ACTION_UP, c, button, p.pointerId, p.toolType);
        Ok(st.(tokens := Record(st.tokens, st.timeDelta, Some(ev)), isDown := false, recentButton := 0,
               chainEntry := st.timeDelta, recentUp := st.timeDelta))
  }

  /** A pointerMove: nothing when its aligned duration is 0; a plain pause when it is the first item. */
  function MoveItemStep(p: Pointer, idx: nat, st: PointerState): (r: Result<PointerState, ActionsError>)
    requires idx < |p.items|
    ensures r.Ok? <==> (ExtractDuration(Some(p.actionId), p.items[idx]).Ok?
                        && (AlignDuration(p.items[idx].duration.value) < D || idx == 0
                            || (ExtractCoordinates(p.actionId, p.items, idx - 1, p.env).Ok?
                                && ExtractCoordinates(p.actionId, p.items, idx, p.env).Ok?)))
    ensures r.Ok? ==> (r.value.isDown == st.isDown
                       && r.value.timeDelta == st.timeDelta + AlignDuration(p.items[idx].duration.value))
    ensures r.Ok? && AlignDuration(p.items[idx].duration.value) < D ==> r.value == st
    ensures r.Ok? && AlignDuration(p.items[idx].duration.value) >= D && idx == 0 ==>
      r.value == st.(tokens := AddEventAt(st.tokens, r.value.timeDelta, None), timeDelta := r.value.timeDelta)
  {
    match ExtractDuration(Some(p.actionId), p.items[idx])
    case Err(e) => Err(e)
    case Ok(d) =>
      var duration := AlignDuration(d);
      if duration < D then Ok(st)
      else if idx == 0 then
        Ok(st.(tokens := Record(st.tokens, st.timeDelta + duration, None), timeDelta := st.timeDelta + duration))
      else
        match ExtractCoordinates(p.actionId, p.items, idx - 1, p.env)
        case Err(e) => Err(e)
        case Ok(start) =>
          match ExtractCoordinates(p.actionId, p.items, idx, p.env)
          case Err(e) => Err(e)
          case Ok(end) => Ok(MoveStep(p, st, duration, start, end))
  }

  /** One item of a pointer source. */
  function PointerStep(p: Pointer, idx: nat, st: PointerState): Result<PointerState, ActionsError>
    requires idx < |p.items|
  {
    var item := p.items[idx];
    if item.itemType.None? then Err(MissingKey("type"))
    else
      var itemType := item.itemType.value;
      if itemType == ITEM_PAUSE then
        match ExtractDuration(Some(p.actionId), item)
        case Err(e) => Err(e)
        case Ok(d) =>
          var t := st.timeDelta + AlignDuration(d);
          Ok(st.(tokens := Record(st.tokens, t, None), timeDelta := t))
      else if itemType == ITEM_POINTER_DOWN then DownStep(p, idx, st)
      else if itemType == ITEM_POINTER_UP then UpStep(p, idx, st)
      else if itemType == ITEM_POINTER_MOVE then MoveItemStep(p, idx, st)
      else Err(Parse(UnexpectedItem(p.actionId, itemType)))
  }

  function InitialPointerState(tokens: seq<Slot>): PointerState
  {
    PointerState(tokens, 0, 0, -1, -1, false, 0)
  }

  function PointerFold(p: Pointer, tokens: seq<Slot>, n: nat): Result<PointerState, ActionsError>
    requires n <= |p.items|
  {
    if n == 0 then Ok(InitialPointerState(tokens))
    else
      match PointerFold(p, tokens, n - 1)
      case Err(e) => Err(e)
      case Ok(st) => PointerStep(p, n - 1, st)
  }

  /** applyPointerActionToEventsMapping */
  function ApplyPointer(tokens: seq<Slot>, action: Action, pointerIndex: nat, env: Env): (r: Result<seq<Slot>, ActionsError>)
    ensures action.id.None? ==> r == Err(MissingKey("id"))
    ensures action.id.Some? && ActionToToolType(action) in {TOOL_TYPE_MOUSE, TOOL_TYPE_STYLUS} && pointerIndex > 0 ==>
      r == Err(Parse(TooManyPointers(ActionToToolType(action))))
  {
    if action.id.None? then Err(MissingKey("id"))
    else
      var toolType := ActionToToolType(action);
      var tooMany := AssertPointersCount(toolType, pointerIndex);
      if tooMany.Some? then Err(tooMany.value)
      else if action.items.None? then Err(MissingKey("actions"))
      else
        var p := Pointer(action.id.value, action.items.value, toolType, pointerIndex, env);
        match PointerFold(p, tokens, |p.items|)
        case Err(e) => Err(e)
        case Ok(st) => Ok(st.tokens)
  }

  // -----------------------------------------------------------------------
  // tokenize
  // -----------------------------------------------------------------------

  /** filterActionsByType: the actions of one source type, in order; an action without a type is a JSONException. */
  function FilterByType(actions: seq<Action>, actionType: string, n: nat): Result<seq<Action>, ActionsError>
    requires n <= |actions|
  {
    if n == 0 then Ok([])
    else
      match FilterByType(actions, actionType, n - 1)
      case Err(e) => Err(e)
      case Ok(acc) =>
        var a := actions[n - 1];
        if a.actionType.None? then Err(MissingKey("type"))
        else if a.actionType.value == actionType then Ok(acc + [a])
        else Ok(acc)
  }

  function ApplyAllEmpty(tokens: seq<Slot>, actions: seq<Action>, n: nat): Result<seq<Slot>, ActionsError>
    requires n <= |actions|
  {
    if n == 0 then Ok(tokens)
    else
      match ApplyAllEmpty(tokens, actions, n - 1)
      case Err(e) => Err(e)
      case Ok(t) => ApplyEmpty(t, actions[n - 1])
  }

  function ApplyAllKey(tokens: seq<Slot>, actions: seq<Action>, n: nat): Result<seq<Slot>, ActionsError>
    requires n <= |actions|
  {
    if n == 0 then Ok(tokens)
    else
      match ApplyAllKey(tokens, actions, n - 1)
      case Err(e) => Err(e)
      case Ok(t) => ApplyKey(t, actions[n - 1])
  }

  /** The k-th pointer source is pointer number k. */
  function ApplyAllPointer(tokens: seq<Slot>, actions: seq<Action>, n: nat, env: Env): Result<seq<Slot>, ActionsError>
    requires n <= |actions|
  {
    if n == 0 then Ok(tokens)
    else
      match ApplyAllPointer(tokens, actions, n - 1, env)
      case Err(e) => Err(e)
      case Ok(t) => ApplyPointer(t, actions[n - 1], n - 1, env)
  }

  /** tokenize: `none` sources first, then `key` sources, then pointers, all on one fresh timeline. */
  function TokenizeActions(actions: seq<Action>, env: Env): Result<seq<Slot>, ActionsError>
  {
    match FilterByType(actions, ACTION_TYPE_NONE, |actions|)
    case Err(e) => Err(e)
    case Ok(empties) =>
      match ApplyAllEmpty([], empties, |empties|)
      case Err(e) => Err(e)
      case Ok(t1) =>
        match FilterByType(actions, ACTION_TYPE_KEY, |actions|)
        case Err(e) => Err(e)
        case Ok(keys) =>
          match ApplyAllKey(t1, keys, |keys|)
          case Err(e) => Err(e)
          case Ok(t2) =>
            match FilterByType(actions, ACTION_TYPE_POINTER, |actions|)
            case Err(e) => Err(e)
            case Ok(pointers) => ApplyAllPointer(t2, pointers, |pointers|, env)
  }

  method FilterActionsByType(actions: seq<Action>, actionType: string) returns (r: Result<seq<Action>, ActionsError>)
    ensures r == FilterByType(actions, actionType, |actions|)
  {
    var result: seq<Action> := [];
    var i := 0;
    while i < |actions|
      invariant 0 <= i <= |actions|
      invariant FilterByType(actions, actionType, i) == Ok(result)
    {
      var action := actions[i];
      if action.actionType.None? {
        r := Err(MissingKey("type"));
        FilterErrorSticks(actions, actionType, i + 1, |actions|);
        return;
      }
      if action.actionType.value == actionType {
        result := result + [action];
      }
      i := i + 1;
    }
    r := Ok(result);
  }

  lemma {:induction false} FilterErrorSticks(actions: seq<Action>, actionType: string, n: nat, m: nat)
    requires n <= m <= |actions| && FilterByType(actions, actionType, n).Err?
    ensures FilterByType(actions, actionType, m) == FilterByType(actions, actionType, n)
    decreases m - n
  {
    if n < m {
      FilterErrorSticks(actions, actionType, n, m - 1);
    }
  }

  // -----------------------------------------------------------------------
  // The tokenizer object
  // -----------------------------------------------------------------------

  class Tokenizer {
    /** The tokenizedActions field: the timeline being built. */
    var tokenizedActions: seq<Slot>

    constructor ()
      ensures tokenizedActions == []
    {
      tokenizedActions := [];
    }

    method FindEntryPointDeltaForSecondaryAction(timeDeltaMs: int) returns (r: Option<int>)
      ensures r == EntryPoint(tokenizedActions, timeDeltaMs)
    {
      var result: Option<int> := None;
      var upDownBalance := 0;
      var i := 0;
      while i < |tokenizedActions|
        invariant 0 <= i <= |tokenizedActions|
        invariant ScanSlots(tokenizedActions, timeDeltaMs, i) == (Balance(result, upDownBalance), false)
      {
        var currentDelta := tokenizedActions[i].delta;
        if currentDelta > timeDeltaMs {
          ScanStopSticks(tokenizedActions, timeDeltaMs, i + 1, |tokenizedActions|);
          break;
        }
        var allParams := tokenizedActions[i].events;
        var j := 0;
        while j < |allParams|
          invariant 0 <= j <= |allParams|
          invariant CountEvents(ScanSlots(tokenizedActions, timeDeltaMs, i).0, currentDelta, allParams, j)
            == Balance(result, upDownBalance)
        {
          var params := allParams[j];
          if params.MotionParams? {
            if params.actionCode == MOTION_ACTION_DOWN {
              if upDownBalance == 0 {
                result := Some(currentDelta);
              }
              upDownBalance := upDownBalance + 1;
            } else if params.actionCode == MOTION_ACTION_UP {
              upDownBalance := upDownBalance - 1;
            }
          }
          j := j + 1;
        }
        i := i + 1;
      }
      r := if upDownBalance > 1 then result else None;
    }

    method RecordEventParams(timeDeltaMs: int, newParam: Option<EventParams>)
      modifies this
      ensures tokenizedActions == Record(old(tokenizedActions), timeDeltaMs, newParam)
    {
      var param := newParam;
      if param.Some? && param.value.MotionParams? {
        var code := param.value.actionCode;
        if code == MOTION_ACTION_UP || code == MOTION_ACTION_DOWN || code == MOTION_ACTION_MOVE {
          var entryPointDelta := FindEntryPointDeltaForSecondaryAction(timeDeltaMs);
          if entryPointDelta.Some? {
            param := Some(WithStartDelta(param.value, entryPointDelta.value));
          }
        }
      }
      tokenizedActions := AddEventAt(tokenizedActions, timeDeltaMs, param);
    }

    method ApplyEmptyActionToEventsMapping(action: Action) returns (r: Result<(), ActionsError>)
      modifies this
      ensures ApplyEmpty(old(tokenizedActions), action).Ok? ==>
        r.Ok? && tokenizedActions == ApplyEmpty(old(tokenizedActions), action).value
      ensures ApplyEmpty(old(tokenizedActions), action).Err? ==> r == Err(ApplyEmpty(old(tokenizedActions), action).error)
    {
      if action.items.None? {
        return Err(MissingKey("actions"));
      }
      var actionItems := action.items.value;
      ghost var start := tokenizedActions;
      var timeDelta := 0;
      var i := 0;
      while i < |actionItems|
        invariant 0 <= i <= |actionItems|
        invariant EmptyFold(action, actionItems, start, i) == Ok((tokenizedActions, timeDelta))
      {
        var actionItem := actionItems[i];
        if actionItem.itemType.None? {
          EmptyErrorSticks(action, actionItems, start, i + 1, |actionItems|);
          return Err(MissingKey("type"));
        }
        var itemType := actionItem.itemType.value;
        if itemType != ITEM_PAUSE {
          EmptyErrorSticks(action, actionItems, start, i + 1, |actionItems|);
          return Err(ParseErr(action.id, (id: string) => UnexpectedItem(id, itemType)));
        }
        var duration := ExtractDuration(action.id, actionItem);
        if duration.Err? {
          EmptyErrorSticks(action, actionItems, start, i + 1, |actionItems|);
          return Err(duration.error);
        }
        timeDelta := timeDelta + AlignDuration(duration.value);
        RecordEventParams(timeDelta, None);
        i := i + 1;
      }
      r := Ok(());
    }

    /** One iteration of applyKeyActionToEventsMapping's loop. */
    method ApplyKeyItem(action: Action, st: KeyState, actionItem: Item) returns (r: Result<KeyState, ActionsError>)
      requires st.tokens == tokenizedActions
      modifies this
      ensures r == KeyStep(action, st, actionItem)
      ensures r.Ok? ==> tokenizedActions == r.value.tokens
    {
      if actionItem.itemType.None? {
        return Err(MissingKey("type"));
      }
      var itemType := actionItem.itemType.value;
      var timeDelta := st.timeDelta;
      var chainEntryPointDelta := st.chainEntry;
      if itemType == ITEM_PAUSE {
        var duration := ExtractDuration(action.id, actionItem);
        if duration.Err? {
          return Err(duration.error);
        }
        timeDelta := timeDelta + AlignDuration(duration.value);
        RecordEventParams(timeDelta, None);
        r := Ok(KeyState(tokenizedActions, timeDelta, chainEntryPointDelta));
      } else if itemType == ITEM_KEY_DOWN || itemType == ITEM_KEY_UP {
        if itemType == ITEM_KEY_DOWN {
          chainEntryPointDelta := timeDelta;
        }
        if actionItem.value.None? {
          return Err(ParseErr(action.id, (id: string) => MissingKeyValue(id)));
        }
        var value := actionItem.value.value;
        if value == [] {
          return Err(ParseErr(action.id, (id: string) => EmptyKeyValue(id)));
        }
        var evtParams := KeyParams(chainEntryPointDelta,
          if itemType == ITEM_KEY_DOWN then KEY_ACTION_DOWN else KEY_ACTION_UP, value[0] as int);
        RecordEventParams(timeDelta, Some(evtParams));
        chainEntryPointDelta := timeDelta;
        r := Ok(KeyState(tokenizedActions, timeDelta, chainEntryPointDelta));
      } else {
        r := Err(ParseErr(action.id, (id: string) => UnexpectedItem(id, itemType)));
      }
    }

    method ApplyKeyActionToEventsMapping(action: Action) returns (r: Result<(), ActionsError>)
      modifies this
      ensures ApplyKey(old(tokenizedActions), action).Ok? ==>
        r.Ok? && tokenizedActions == ApplyKey(old(tokenizedActions), action).value
      ensures ApplyKey(old(tokenizedActions), action).Err? ==> r == Err(ApplyKey(old(tokenizedActions), action).error)
    {
      if action.items.None? {
        return Err(MissingKey("actions"));
      }
      var actionItems := action.items.value;
      ghost var start := tokenizedActions;
      var st := KeyState(tokenizedActions, 0, 0);
      var i := 0;
      while i < |actionItems|
        invariant 0 <= i <= |actionItems|
        invariant KeyFold(action, actionItems, start, i) == Ok(st) && st.tokens == tokenizedActions
      {
        var next := ApplyKeyItem(action, st, actionItems[i]);
        if next.Err? {
          KeyErrorSticks(action, actionItems, start, i + 1, |actionItems|);
          return Err(next.error);
        }
        st := next.value;
        i := i + 1;
      }
      r := Ok(());
    }

    /** The inner loop of a pointerMove: steps 2..m.steps. */
    method RecordMoveSteps(m: Move)
      requires m.steps > 0
      modifies this
      ensures tokenizedActions == MoveSteps(old(tokenizedActions), m, m.steps)
    {
      ghost var start := tokenizedActions;
      var timeDelta := m.first + D;
      var step := 2;
      while step <= m.steps
        invariant 2 <= step <= if m.steps < 2 then 2 else m.steps + 1
        invariant timeDelta == m.first + D * (step - 1)
        invariant tokenizedActions == MoveSteps(start, m, step - 1)
      {
        RecordEventParams(timeDelta, Some(StepEvent(m, step)));
        timeDelta := timeDelta + D;
        step := step + 1;
      }
    }

    method ApplyPointerDown(p: Pointer, idx: nat, st: PointerState) returns (r: Result<PointerState, ActionsError>)
      requires idx < |p.items| && st.tokens == tokenizedActions
      modifies this
      ensures r == DownStep(p, idx, st)
      ensures r.Ok? ==> tokenizedActions == r.value.tokens
    {
      var timeDelta := st.timeDelta;
      if st.isDown || st.recentDown == timeDelta {
        return Err(Parse(DownWithoutPause(p.actionId, timeDelta)));
      }
      var chainEntryPointDelta := timeDelta;
      var recentButton := ExtractButton(p.items[idx], p.toolType, p.env.sdkInt);
      var coords := ExtractCoordinates(p.actionId, p.items, idx, p.env);
      if coords.Err? {
        return Err(coords.error);
      }
      RecordEventParams(timeDelta, Some(MotionParams(chainEntryPointDelta, MOTION_ACTION_DOWN, coords.value,
                                                     recentButton, p.pointerId, p.toolType)));
      r := Ok(st.(tokens := tokenizedActions, chainEntry := chainEntryPointDelta, recentButton := recentButton,
                  isDown := true, recentDown := timeDelta));
    }

    method ApplyPointerUp(p: Pointer, idx: nat, st: PointerState) returns (r: Result<PointerState, ActionsError>)
      requires idx < |p.items| && st.tokens == tokenizedActions
      modifies this
      ensures r == UpStep(p, idx, st)
      ensures r.Ok? ==> tokenizedActions == r.value.tokens
    {
      var timeDelta := st.timeDelta;
      if !st.isDown {
        return Err(Parse(UpWithoutDown(p.actionId, timeDelta)));
      }
      if st.recentUp == timeDelta {
        return Err(Parse(UpWithoutPause(p.actionId, timeDelta)));
      }
      var recentButton := ExtractButton(p.items[idx], p.toolType, p.env.sdkInt);
      var coords := ExtractCoordinates(p.actionId, p.items, idx, p.env);
      if coords.Err? {
        return Err(coords.error);
      }
      RecordEventParams(timeDelta, Some(MotionParams(st.chainEntry, MOTION_ACTION_UP, coords.value,
                                                     recentButton, p.pointerId, p.toolType)));
      r := Ok(st.(tokens := tokenizedActions, isDown := false, recentButton := 0,
                  chainEntry := timeDelta, recentUp := timeDelta));
    }

    /** The body of a pointerMove once its duration and both coordinates are known. */
    method RecordMove(p: Pointer, st: PointerState, duration: int, start: Coords, end: Coords)
      returns (r: PointerState)
      requires st.tokens == tokenizedActions
      modifies this
      ensures r == MoveStep(p, st, duration, start, end) && tokenizedActions == r.tokens
    {
      var timeDelta := st.timeDelta;
      var startDelta := timeDelta;
      var firstActionDelta := if st.recentDown == startDelta || st.recentUp == startDelta then startDelta + D else startDelta;
      var stepsCount := (startDelta + duration - firstActionDelta) / D;
      assert firstActionDelta == FirstMoveDelta(st) && stepsCount == StepsCount(st, duration);
      var hover := false;
      if !st.isDown && p.toolType == TOOL_TYPE_MOUSE {
        if duration <= D * 3 {
          timeDelta := timeDelta + duration;
          RecordEventParams(timeDelta, None);
          return st.(tokens := tokenizedActions, timeDelta := timeDelta);
        }
        RecordEventParams(firstActionDelta, Some(MotionParams(firstActionDelta, MOTION_ACTION_HOVER_ENTER, start, 0,
                                                              p.pointerId, p.toolType)));
        hover := true;
      } else {
        RecordEventParams(firstActionDelta, Some(MotionParams(st.chainEntry, MOTION_ACTION_MOVE,
                                                              if stepsCount <= 1 then end else start,
                                                              st.recentButton, p.pointerId, p.toolType)));
      }
      ghost var afterFirst := tokenizedActions;
      assert afterFirst == Record(st.tokens, FirstMoveDelta(st), Some(FirstMoveEvent(p, st, duration, start, end)));
      assert !HoverTooShort(p, st, duration);
      if stepsCount > 0 {
        var m := Move(hover, firstActionDelta, stepsCount, st.chainEntry, start, end, st.recentButton,
                      p.pointerId, p.toolType);
        assert m == MoveOf(p, st, duration, start, end);
        RecordMoveSteps(m);
      }
      timeDelta := startDelta + duration;
      r := st.(tokens := tokenizedActions, timeDelta := timeDelta);
    }

    method ApplyPointerMove(p: Pointer, idx: nat, st: PointerState) returns (r: Result<PointerState, ActionsError>)
      requires idx < |p.items| && st.tokens == tokenizedActions
      modifies this
      ensures r == MoveItemStep(p, idx, st)
      ensures r.Ok? ==> tokenizedActions == r.value.tokens
    {
      var extracted := ExtractDuration(Some(p.actionId), p.items[idx]);
      if extracted.Err? {
        return Err(extracted.error);
      }
      var duration := AlignDuration(extracted.value);
      if duration < D {
        return Ok(st);
      }
      if idx == 0 {
        var timeDelta := st.timeDelta + duration;
        RecordEventParams(timeDelta, None);
        return Ok(st.(tokens := tokenizedActions, timeDelta := timeDelta));
      }
      var startCoordinates := ExtractCoordinates(p.actionId, p.items, idx - 1, p.env);
      if startCoordinates.Err? {
        return Err(startCoordinates.error);
      }
      var endCoordinates := ExtractCoordinates(p.actionId, p.items, idx, p.env);
      if endCoordinates.Err? {
        return Err(endCoordinates.error);
      }
      var next := RecordMove(p, st, duration, startCoordinates.value, endCoordinates.value);
      r := Ok(next);
    }

    /** One iteration of applyPointerActionToEventsMapping's loop: the switch on the item type. */
    method ApplyPointerItem(p: Pointer, idx: nat, st: PointerState) returns (r: Result<PointerState, ActionsError>)
      requires idx < |p.items| && st.tokens == tokenizedActions
      modifies this
      ensures r == PointerStep(p, idx, st)
      ensures r.Ok? ==> tokenizedActions == r.value.tokens
    {
      var actionItem := p.items[idx];
      if actionItem.itemType.None? {
        return Err(MissingKey("type"));
      }
      var itemType := actionItem.itemType.value;
      if itemType == ITEM_PAUSE {
        var duration := ExtractDuration(Some(p.actionId), actionItem);
        if duration.Err? {
          return Err(duration.error);
        }
        var timeDelta := st.timeDelta + AlignDuration(duration.value);
        RecordEventParams(timeDelta, None);
        r := Ok(st.(tokens := tokenizedActions, timeDelta := timeDelta));
      } else if itemType == ITEM_POINTER_DOWN {
        r := ApplyPointerDown(p, idx, st);
      } else if itemType == ITEM_POINTER_UP {
        r := ApplyPointerUp(p, idx, st);
      } else if itemType == ITEM_POINTER_MOVE {
        r := ApplyPointerMove(p, idx, st);
      } else {
        r := Err(Parse(UnexpectedItem(p.actionId, itemType)));
      }
    }

    method ApplyPointerActionToEventsMapping(action: Action, pointerIndex: nat, env: Env) returns (r: Result<(), ActionsError>)
      modifies this
      ensures ApplyPointer(old(tokenizedActions), action, pointerIndex, env).Ok? ==>
        r.Ok? && tokenizedActions == ApplyPointer(old(tokenizedActions), action, pointerIndex, env).value
      ensures ApplyPointer(old(tokenizedActions), action, pointerIndex, env).Err? ==>
        r == Err(ApplyPointer(old(tokenizedActions), action, pointerIndex, env).error)
    {
      if action.id.None? {
        return Err(MissingKey("id"));
      }
      var actionId := action.id.value;
      var toolType := ActionToToolType(action);
      var tooMany := AssertPointersCount(toolType, pointerIndex);
      if tooMany.Some? {
        return Err(tooMany.value);
      }
      if action.items.None? {
        return Err(MissingKey("actions"));
      }
      var p := Pointer(actionId, action.items.value, toolType, pointerIndex, env);
      ghost var start := tokenizedActions;
      var st := InitialPointerState(tokenizedActions);
      var i := 0;
      while i < |p.items|
        invariant 0 <= i <= |p.items|
        invariant PointerFold(p, start, i) == Ok(st) && st.tokens == tokenizedActions
      {
        var next := ApplyPointerItem(p, i, st);
        if next.Err? {
          PointerErrorSticks(p, start, i + 1, |p.items|);
          return Err(next.error);
        }
        st := next.value;
        i := i + 1;
      }
      r := Ok(());
    }

    /** The `for (emptyAction : emptyActions)` loop of tokenize. */
    method ApplyEmptyActions(actions: seq<Action>) returns (r: Result<(), ActionsError>)
      modifies this
      ensures ApplyAllEmpty(old(tokenizedActions), actions, |actions|).Ok? ==>
        r.Ok? && tokenizedActions == ApplyAllEmpty(old(tokenizedActions), actions, |actions|).value
      ensures ApplyAllEmpty(old(tokenizedActions), actions, |actions|).Err? ==>
        r == Err(ApplyAllEmpty(old(tokenizedActions), actions, |actions|).error)
    {
      ghost var start := tokenizedActions;
      var i := 0;
      while i < |actions|
        invariant 0 <= i <= |actions|
        invariant ApplyAllEmpty(start, actions, i) == Ok(tokenizedActions)
      {
        var applied := ApplyEmptyActionToEventsMapping(actions[i]);
        if applied.Err? {
          AllEmptyErrorSticks(start, actions, i + 1, |actions|);
          return Err(applied.error);
        }
        i := i + 1;
      }
      r := Ok(());
    }

    /** The `for (keyAction : keyInputActions)` loop of tokenize. */
    method ApplyKeyActions(actions: seq<Action>) returns (r: Result<(), ActionsError>)
      modifies this
      ensures ApplyAllKey(old(tokenizedActions), actions, |actions|).Ok? ==>
        r.Ok? && tokenizedActions == ApplyAllKey(old(tokenizedActions), actions, |actions|).value
      ensures ApplyAllKey(old(tokenizedActions), actions, |actions|).Err? ==>
        r == Err(ApplyAllKey(old(tokenizedActions), actions, |actions|).error)
    {
      ghost var start := tokenizedActions;
      var i := 0;
      while i < |actions|
        invariant 0 <= i <= |actions|
        invariant ApplyAllKey(start, actions, i) == Ok(tokenizedActions)
      {
        var applied := ApplyKeyActionToEventsMapping(actions[i]);
        if applied.Err? {
          AllKeyErrorSticks(start, actions, i + 1, |actions|);
          return Err(applied.error);
        }
        i := i + 1;
      }
      r := Ok(());
    }

    /** The `for (pointerIdx ...)` loop of tokenize. */
    method ApplyPointerActions(actions: seq<Action>, env: Env) returns (r: Result<(), ActionsError>)
      modifies this
      ensures ApplyAllPointer(old(tokenizedActions), actions, |actions|, env).Ok? ==>
        r.Ok? && tokenizedActions == ApplyAllPointer(old(tokenizedActions), actions, |actions|, env).value
      ensures ApplyAllPointer(old(tokenizedActions), actions, |actions|, env).Err? ==>
        r == Err(ApplyAllPointer(old(tokenizedActions), actions, |actions|, env).error)
    {
      ghost var start := tokenizedActions;
      var pointerIdx := 0;
      while pointerIdx < |actions|
        invariant 0 <= pointerIdx <= |actions|
        invariant ApplyAllPointer(start, actions, pointerIdx, env) == Ok(tokenizedActions)
      {
        var applied := ApplyPointerActionToEventsMapping(actions[pointerIdx], pointerIdx, env);
        if applied.Err? {
          AllPointerErrorSticks(start, actions, pointerIdx + 1, |actions|, env);
          return Err(applied.error);
        }
        pointerIdx := pointerIdx + 1;
      }
      r := Ok(());
    }

    method Tokenize(preprocessedActions: seq<Action>, env: Env) returns (r: Result<seq<Slot>, ActionsError>)
      modifies this
      ensures r == TokenizeActions(preprocessedActions, env)
    {
      tokenizedActions := [];
      var emptyActions := FilterActionsByType(preprocessedActions, ACTION_TYPE_NONE);
      if emptyActions.Err? {
        return Err(emptyActions.error);
      }
      var applied := ApplyEmptyActions(emptyActions.value);
      if applied.Err? {
        return Err(applied.error);
      }
      var keyInputActions := FilterActionsByType(preprocessedActions, ACTION_TYPE_KEY);
      if keyInputActions.Err? {
        return Err(keyInputActions.error);
      }
      applied := ApplyKeyActions(keyInputActions.value);
      if applied.Err? {
        return Err(applied.error);
      }
      var pointerActions := FilterActionsByType(preprocessedActions, ACTION_TYPE_POINTER);
      if pointerActions.Err? {
        return Err(pointerActions.error);
      }
      applied := ApplyPointerActions(pointerActions.value, env);
      if applied.Err? {
        return Err(applied.error);
      }
      r := Ok(tokenizedActions);
    }
  }

  // -----------------------------------------------------------------------
  // An exception ends every fold
  // -----------------------------------------------------------------------

  lemma {:induction false} EmptyErrorSticks(action: Action, items: seq<Item>, tokens: seq<Slot>, n: nat, m: nat)
    requires n <= m <= |items| && EmptyFold(action, items, tokens, n).Err?
    ensures EmptyFold(action, items, tokens, m) == EmptyFold(action, items, tokens, n)
    decreases m - n
  {
    if n < m { EmptyErrorSticks(action, items, tokens, n, m - 1); }
  }

  lemma {:induction false} KeyErrorSticks(action: Action, items: seq<Item>, tokens: seq<Slot>, n: nat, m: nat)
    requires n <= m <= |items| && KeyFold(action, items, tokens, n).Err?
    ensures KeyFold(action, items, tokens, m) == KeyFold(action, items, tokens, n)
    decreases m - n
  {
    if n < m { KeyErrorSticks(action, items, tokens, n, m - 1); }
  }

  lemma {:induction false} PointerErrorSticks(p: Pointer, tokens: seq<Slot>, n: nat, m: nat)
    requires n <= m <= |p.items| && PointerFold(p, tokens, n).Err?
    ensures PointerFold(p, tokens, m) == PointerFold(p, tokens, n)
    decreases m - n
  {
    if n < m { PointerErrorSticks(p, tokens, n, m - 1); }
  }

  lemma {:induction false} AllEmptyErrorSticks(tokens: seq<Slot>, actions: seq<Action>, n: nat, m: nat)
    requires n <= m <= |actions| && ApplyAllEmpty(tokens, actions, n).Err?
    ensures ApplyAllEmpty(tokens, actions, m) == ApplyAllEmpty(tokens, actions, n)
    decreases m - n
  {
    if n < m { AllEmptyErrorSticks(tokens, actions, n, m - 1); }
  }

  lemma {:induction false} AllKeyErrorSticks(tokens: seq<Slot>, actions: seq<Action>, n: nat, m: nat)
    requires n <= m <= |actions| && ApplyAllKey(tokens, actions, n).Err?
    ensures ApplyAllKey(tokens, actions, m) == ApplyAllKey(tokens, actions, n)
    decreases m - n
  {
    if n < m { AllKeyErrorSticks(tokens, actions, n, m - 1); }
  }

  lemma {:induction false} AllPointerErrorSticks(tokens: seq<Slot>, actions: seq<Action>, n: nat, m: nat, env: Env)
    requires n <= m <= |actions| && ApplyAllPointer(tokens, actions, n, env).Err?
    ensures ApplyAllPointer(tokens, actions, m, env) == ApplyAllPointer(tokens, actions, n, env)
    decreases m - n
  {
    if n < m { AllPointerErrorSticks(tokens, actions, n, m - 1, env); }
  }
}
