/**
 * GetElementAttribute: the "get attribute" command. A cached element answers
 * its string attributes verbatim, its boolean attributes as "true"/"false",
 * and "contentSize" as a JSON text with its bounds, its touch padding and its
 * scrollable offset. The offset comes from the scroll data a short swipe in
 * the element produces: maxScrollY directly, or else the item count turned
 * into pixels with the row height and items per row read off the element's
 * children.
 *
 * The device is an oracle: the element's attributes, bounds and children,
 * and the scroll data the session holds after a swipe, are given.
 */
module GetElementAttributeHandler {
  import opened Common
  import opened Json
  import opened AppiumResponses
  import SafeRequestHandler

  const MINI_SWIPE_PIXELS := 200
  /** numRowsToExamine: the top rows often have bad offsets, so a few are examined. */
  const NUM_ROWS_TO_EXAMINE := 3

  /** The statuses this handler answers with (WDStatus; their numeric codes are not part of this model). */
  datatype WDStatus = Success | NoSuchElement | UnknownError | UnknownCommand | StaleElementReference

  /** The response: the session id, a status and a value. */
  datatype Reply = Reply(sessionId: Option<string>, status: WDStatus, value: Payload)

  const NO_ATTRIBUTE_FOUND := "io.appium.uiautomator2.common.exceptions.NoAttributeFoundException"
  const ARITHMETIC := "java.lang.ArithmeticException"

  /** ReflectiveOperationException and its subclasses in java.lang and java.lang.reflect. */
  const REFLECTIVE: set<string> := {
    "java.lang.ReflectiveOperationException", "java.lang.ClassNotFoundException",
    "java.lang.IllegalAccessException", "java.lang.InstantiationException",
    "java.lang.NoSuchFieldException", "java.lang.NoSuchMethodException",
    "java.lang.reflect.InvocationTargetException"}

  const NO_NODE_INFO: Throwable := UiAutomator2(Generic, Some("Could not find accessibility node info for the view"))
  const NO_SCROLL_DATA: Throwable :=
    UiAutomator2(Generic, Some("Could not retrieve accessibility scroll data; unable to determine scrollable offset"))
  const NO_SCROLL_METRICS: Throwable :=
    UiAutomator2(Generic, Some("Did not get either scrollY or itemCount from accessibility scroll data"))
  const DIVIDE_BY_ZERO: Throwable := Other(ARITHMETIC, Some("/ by zero"))

  /** A swipe from (startX, startY) to (endX, endY). */
  datatype Swipe = Swipe(startX: int, startY: int, endX: int, endY: int)
  {
    /** The swipe back to where this one started. */
    function Back(): Swipe
    {
      Swipe(endX, endY, startX, startY)
    }
  }

  /** AccessibilityScrollData: -1 stands for a value the view did not report. */
  datatype ScrollData = ScrollData(maxScrollY: int, itemCount: int)

  /**
   * What the child generator yields: a null item, an item whose accessibility
   * node cannot be found, or an item whose bounds in the screen start at `y`.
   */
  datatype Child = Missing | NoNodeInfo | Top(y: int)

  /**
   * A cached element, as the handler sees it: its string and boolean
   * attributes (each may throw), getBounds(), the paging touch slop its
   * UiObject2's gesture configuration holds (read reflectively), its bounds
   * in the screen (None when its accessibility node cannot be found), the
   * session's last scroll data after a swipe, and its children (None when the
   * child generator cannot be built for the object's class).
   */
  datatype Element = Element(
    stringAttribute: string -> Result<Option<string>, Throwable>,
    boolAttribute: string -> Result<bool, Throwable>,
    bounds: Result<Rect, Throwable>,
    pagingTouchSlop: Result<int, Throwable>,
    screenBounds: Option<Rect>,
    scrollAfter: Swipe -> Option<ScrollData>,
    children: Option<seq<Child>>)

  // ---------------------------------------------------------------------
  // The swipe that generates scroll data
  // ---------------------------------------------------------------------

  /** floor(height * SWIPE_DEAD_ZONE_PCT), with the percentage 0.1 taken exactly. */
  function Margin(height: int): int
  {
    height / 10
  }

  /** The swipe points as getScrollableOffset computes them: the clamps compare screen coordinates with the height. */
  function SwipeAsWritten(b: Rect): (s: Swipe)
    ensures s.startX == s.endX == b.CenterX()
    ensures b.Height() >= 0 ==> 0 <= s.endY && s.startY <= b.CenterY() + MINI_SWIPE_PIXELS
    ensures b.Height() >= 0 && s.startY != b.CenterY() + MINI_SWIPE_PIXELS ==> s.startY <= b.Height()
  {
    var x1 := b.CenterX();
    var y1 := b.CenterY() + MINI_SWIPE_PIXELS;
    var y2 := y1 - MINI_SWIPE_PIXELS * 2;
    var yMargin := Margin(b.Height());
    var y1' := if y1 > b.Height() then b.Height() - yMargin else y1;
    var y2' := if y2 < 0 then yMargin else y2;
    Swipe(x1, y1', x1, y2')
  }

  /** An element lower on the screen than it is tall: the as-written swipe starts above it and runs the wrong way. */
  lemma SwipeAsWrittenLeavesElement()
    ensures var b := Rect(0, 1000, 100, 1500);
      var s := SwipeAsWritten(b);
      && s == Swipe(50, 450, 50, 1050)
      && s.startY < b.top
      && s.startY < s.endY
  {
  }

  /**
   * The swipe points clamped to the element's own edges, as the comment at
   * the clamp says is meant: an upward swipe of up to 400 pixels through the
   * centre, kept inside the element.
   */
  function SwipePoints(b: Rect): (s: Swipe)
    ensures s.startX == s.endX == b.CenterX()
    ensures b.left <= b.right ==> b.left <= s.startX <= b.right
    ensures b.top <= b.bottom ==> b.top <= s.endY <= s.startY <= b.bottom
    ensures s.startY <= b.CenterY() + MINI_SWIPE_PIXELS && s.endY >= b.CenterY() - MINI_SWIPE_PIXELS
  {
    var x1 := b.CenterX();
    var y1 := b.CenterY() + MINI_SWIPE_PIXELS;
    var y2 := y1 - MINI_SWIPE_PIXELS * 2;
    var yMargin := Margin(b.Height());
    var y1' := if y1 > b.bottom then b.bottom - yMargin else y1;
    var y2' := if y2 < b.top then b.top + yMargin else y2;
    Swipe(x1, y1', x1, y2')
  }

  /** The corrected swipe agrees with the as-written one for an element at the top of the screen. */
  lemma SwipePointsAtScreenTop(b: Rect)
    requires b.top == 0
    ensures SwipePoints(b) == SwipeAsWritten(b)
  {
  }

  // ---------------------------------------------------------------------
  // getScrollableOffsetByItemCount
  // ---------------------------------------------------------------------

  /** The loop's variables: itemsPerRow, rowHeight, lastExaminedItemY, numRowsExamined, and whether an item was examined. */
  datatype Scan = Scan(itemsPerRow: int, rowHeight: int, lastY: int, rows: nat, examined: bool)

  /** How the loop over the children ends: a null child, a child without bounds, or the variables after the loop. */
  datatype ScanOutcome = NullChild | BoundsMissing | Scanned(scan: Scan)

  /** lastExaminedItemY starts at Integer.MIN_VALUE, "impossibly negative". */
  const SCAN_START := Scan(0, 0, INT_MIN, 0, false)

  /** The loop from child `i` on, from the variables `s`. */
  function ScanFrom(items: seq<Child>, i: nat, s: Scan): ScanOutcome
    requires i <= |items|
    decreases |items| - i
  {
    if i == |items| then Scanned(s)
    else match items[i]
      case Missing => NullChild
      case NoNodeInfo => BoundsMissing
      case Top(y) =>
        var perRow := s.itemsPerRow + 1;
        if s.lastY != INT_MIN && y > s.lastY then
          var rows := s.rows + 1;
          var height := ToInt32(y - s.lastY);
          if rows >= NUM_ROWS_TO_EXAMINE then Scanned(Scan(perRow, height, s.lastY, rows, true))
          else ScanFrom(items, i + 1, Scan(0, height, y, rows, true))
        else ScanFrom(items, i + 1, Scan(perRow, s.rowHeight, y, s.rows, true))
  }

  /** The loop over the children: a row starts where a child's top exceeds the previous one's; it stops at the third. */
  method ScanChildren(items: seq<Child>) returns (r: ScanOutcome)
    ensures r == ScanFrom(items, 0, SCAN_START)
  {
    var itemsPerRow := 0;
    var rowHeight := 0;
    var lastExaminedItemY := INT_MIN;
    var numRowsExamined: nat := 0;
    var examined := false;
    var i := 0;
    while i < |items|
      invariant 0 <= i <= |items|
      invariant ScanFrom(items, i, Scan(itemsPerRow, rowHeight, lastExaminedItemY, numRowsExamined, examined))
        == ScanFrom(items, 0, SCAN_START)
    {
      match items[i]
      case Missing =>
        return NullChild;
      case NoNodeInfo =>
        return BoundsMissing;
      case Top(top) =>
        itemsPerRow := itemsPerRow + 1;
        examined := true;
        if lastExaminedItemY != INT_MIN && top > lastExaminedItemY {
          numRowsExamined := numRowsExamined + 1;
          rowHeight := ToInt32(top - lastExaminedItemY);
          if numRowsExamined >= NUM_ROWS_TO_EXAMINE {
            return Scanned(Scan(itemsPerRow, rowHeight, lastExaminedItemY, numRowsExamined, examined));
          }
          itemsPerRow := 0;
        }
        lastExaminedItemY := top;
      i := i + 1;
    }
    return Scanned(Scan(itemsPerRow, rowHeight, lastExaminedItemY, numRowsExamined, examined));
  }

  /** numRows: the item count over the items per row, rounded up. */
  function NumRows(itemCount: int, perRow: int): (n: int)
    requires perRow > 0
    ensures itemCount >= 0 ==> (n - 1) * perRow < itemCount <= n * perRow
  {
    var q := JavaDiv(itemCount, perRow);
    var n := q + (if JavaRem(itemCount, perRow) > 0 then 1 else 0);
    if itemCount >= 0 then
      assert q == itemCount / perRow;
      assert itemCount == q * perRow + itemCount % perRow;
      n
    else n
  }

  /** totalHeight - scrollBounds.height(), in int arithmetic. */
  function OffsetOf(numRows: int, rowHeight: int, height: int): int
  {
    ToInt32(ToInt32(numRows * rowHeight) - height)
  }

  /** The offset as the source computes it: the items per row the loop leaves, which can be 0. */
  function OffsetByItemCountAsWritten(children: Option<seq<Child>>, itemCount: int, height: int): (r: Result<int, Throwable>)
    ensures r.Err? ==> r.error == NO_NODE_INFO || r.error == DIVIDE_BY_ZERO
    ensures r == Err(DIVIDE_BY_ZERO) <==>
      children.Some? && ScanFrom(children.value, 0, SCAN_START).Scanned?
      && ScanFrom(children.value, 0, SCAN_START).scan.examined && ScanFrom(children.value, 0, SCAN_START).scan.itemsPerRow == 0
    ensures children.None? ==> r == OffsetByItemCount(children, itemCount, height)
    ensures children.Some? ==>
      var o := ScanFrom(children.value, 0, SCAN_START);
      (o.Scanned? && o.scan.examined && 0 < o.scan.rows < NUM_ROWS_TO_EXAMINE) || r == OffsetByItemCount(children, itemCount, height)
  {
    if children.None? then Ok(0)
    else match ScanFrom(children.value, 0, SCAN_START)
      case NullChild => Ok(0)
      case BoundsMissing => Err(NO_NODE_INFO)
      case Scanned(s) =>
        ScanPositive(children.value);
        if !s.examined then Ok(0)
        else if s.itemsPerRow == 0 then Err(DIVIDE_BY_ZERO)
        else Ok(OffsetOf(NumRows(itemCount, s.itemsPerRow), s.rowHeight, height))
  }

  /** Two children on two rows: the loop resets itemsPerRow at the second and ends, and the division throws. */
  lemma OffsetDividesByZero()
    ensures ScanFrom([Top(0), Top(100)], 0, SCAN_START) == Scanned(Scan(0, 100, 100, 1, true))
    ensures OffsetByItemCountAsWritten(Some([Top(0), Top(100)]), 10, 500) == Err(DIVIDE_BY_ZERO)
    ensures OffsetByItemCount(Some([Top(0), Top(100)]), 10, 500) == Ok(500)
  {
  }

  /**
   * The items in the last row examined: the loop counts a row's first child
   * only when the next row's first child ends the loop, so when the children
   * run out after a row started, that first child is added back.
   */
  function ItemsPerRow(s: Scan): int
  {
    if 0 < s.rows < NUM_ROWS_TO_EXAMINE then s.itemsPerRow + 1 else s.itemsPerRow
  }

  /** What holds of the loop's variables before child `i`, whatever the tops. */
  ghost predicate ScanSane(i: nat, s: Scan)
  {
    && s.itemsPerRow >= 0 && s.rows < NUM_ROWS_TO_EXAMINE
    && (s.examined <==> i > 0)
    && (s.rows == 0 ==> s.itemsPerRow == i)
  }

  lemma {:induction false} ScanPositiveFrom(items: seq<Child>, i: nat, s: Scan)
    requires i <= |items| && ScanSane(i, s)
    ensures var o := ScanFrom(items, i, s);
      o.Scanned? ==> o.scan.itemsPerRow >= 0 && (o.scan.examined ==> ItemsPerRow(o.scan) >= 1)
    decreases |items| - i
  {
    if i < |items| && items[i].Top? {
      var y := items[i].y;
      if !(s.lastY != INT_MIN && y > s.lastY) {
        ScanPositiveFrom(items, i + 1, Scan(s.itemsPerRow + 1, s.rowHeight, y, s.rows, true));
      } else if s.rows + 1 < NUM_ROWS_TO_EXAMINE {
        ScanPositiveFrom(items, i + 1, Scan(0, ToInt32(y - s.lastY), y, s.rows + 1, true));
      }
    }
  }

  /** With the correction, a loop that examined a child never leaves 0 items per row. */
  lemma ScanPositive(items: seq<Child>)
    ensures var o := ScanFrom(items, 0, SCAN_START);
      o.Scanned? ==> o.scan.itemsPerRow >= 0 && (o.scan.examined ==> ItemsPerRow(o.scan) >= 1)
  {
    ScanPositiveFrom(items, 0, SCAN_START);
  }

  /**
   * getScrollableOffsetByItemCount, with the items per row corrected: no
   * generator or no child examined, or a null child, gives 0; a child without
   * bounds throws; otherwise the rows the items fill, times the row height,
   * less the scroll view's height.
   */
  function OffsetByItemCount(children: Option<seq<Child>>, itemCount: int, height: int): (r: Result<int, Throwable>)
    ensures r.Err? ==> r.error == NO_NODE_INFO
    ensures children.None? || children == Some([]) ==> r == Ok(0)
    ensures children.Some? && |children.value| > 0 && children.value[0].Missing? ==> r == Ok(0)
  {
    if children.None? then Ok(0)
    else match ScanFrom(children.value, 0, SCAN_START)
      case NullChild => Ok(0)
      case BoundsMissing => Err(NO_NODE_INFO)
      case Scanned(s) =>
        if !s.examined then Ok(0)
        else
          ScanPositive(children.value);
          Ok(OffsetOf(NumRows(itemCount, ItemsPerRow(s)), s.rowHeight, height))
  }

  // ---------------------------------------------------------------------
  // Rows of children: a reference for what the loop reads off
  // ---------------------------------------------------------------------

  /** All children have bounds, none at the sentinel Integer.MIN_VALUE. */
  ghost predicate AllPlaced(items: seq<Child>)
  {
    forall j :: 0 <= j < |items| ==> items[j].Top? && items[j].y != INT_MIN
  }

  /** Child `j` starts a new row: its top is below the previous child's. */
  ghost predicate RowStart(items: seq<Child>, j: int)
    requires AllPlaced(items)
  {
    0 < j < |items| && items[j].y > items[j - 1].y
  }

  /** The number of row starts among the first `n` children. */
  ghost function RowStarts(items: seq<Child>, n: nat): nat
    requires AllPlaced(items) && n <= |items|
  {
    if n <= 1 then 0 else RowStarts(items, n - 1) + (if RowStart(items, n - 1) then 1 else 0)
  }

  /** Where the last row among the first `n` children starts (0 when they all share one). */
  ghost function LastRowStart(items: seq<Child>, n: nat): (k: nat)
    requires AllPlaced(items) && n <= |items|
    ensures k == 0 || (k < n && RowStart(items, k))
    ensures k == 0 <==> RowStarts(items, n) == 0
  {
    if n <= 1 then 0 else if RowStart(items, n - 1) then n - 1 else LastRowStart(items, n - 1)
  }

  /** How far child `k`'s top lies below the previous child's, in int arithmetic. */
  ghost function Rise(items: seq<Child>, k: int): int
    requires AllPlaced(items) && 0 < k < |items|
  {
    ToInt32(items[k].y - items[k - 1].y)
  }

  /** Child `k` starts the third row, where the loop stops. */
  ghost predicate StopsAt(items: seq<Child>, k: int)
    requires AllPlaced(items)
  {
    RowStart(items, k) && RowStarts(items, k) == NUM_ROWS_TO_EXAMINE - 1
  }

  lemma {:induction false} RowStartsMonotone(items: seq<Child>, m: nat, n: nat)
    requires AllPlaced(items) && m <= n <= |items|
    ensures RowStarts(items, m) <= RowStarts(items, n)
    decreases n - m
  {
    if m < n {
      RowStartsMonotone(items, m, n - 1);
    }
  }

  /** The loop's variables before child `i` of placed children. */
  ghost predicate ScanInv(items: seq<Child>, i: nat, s: Scan)
    requires AllPlaced(items) && i <= |items|
  {
    && (i == 0 ==> s == SCAN_START)
    && (i > 0 ==> s.lastY == items[i - 1].y && s.examined)
    && s.rows == RowStarts(items, i) < NUM_ROWS_TO_EXAMINE
    && s.itemsPerRow == (if s.rows == 0 then i else i - LastRowStart(items, i) - 1)
    && (s.rows > 0 ==> s.rowHeight == Rise(items, LastRowStart(items, i)))
  }

  /** Fewer than three rows: their number, the items of the last one, and the rise where it starts. */
  ghost predicate ReadsFewRows(items: seq<Child>, s: Scan)
    requires AllPlaced(items)
  {
    var last := LastRowStart(items, |items|);
    && s.rows == RowStarts(items, |items|)
    && ItemsPerRow(s) == |items| - last
    && (s.rows > 0 ==> s.rowHeight == Rise(items, last))
  }

  /** Stopped at the third row start `k`: three rows, the items of the row before `k`, and the rise at `k`. */
  ghost predicate ReadsThirdRow(items: seq<Child>, k: int, s: Scan)
    requires AllPlaced(items) && 0 < k < |items|
  {
    && s.rows == NUM_ROWS_TO_EXAMINE
    && ItemsPerRow(s) == k - LastRowStart(items, k)
    && s.rowHeight == Rise(items, k)
  }

  /** The loop's variables after a child with top `y` that does not end the loop. */
  ghost function NextScan(s: Scan, y: int): Scan
  {
    if s.lastY != INT_MIN && y > s.lastY then Scan(0, ToInt32(y - s.lastY), y, s.rows + 1, true)
    else Scan(s.itemsPerRow + 1, s.rowHeight, y, s.rows, true)
  }

  /** One child that does not start the third row: the loop goes on, keeping its invariant. */
  lemma ScanStep(items: seq<Child>, i: nat, s: Scan)
    requires AllPlaced(items) && i < |items| && ScanInv(items, i, s)
    requires RowStarts(items, i + 1) < NUM_ROWS_TO_EXAMINE
    ensures ScanFrom(items, i, s) == ScanFrom(items, i + 1, NextScan(s, items[i].y))
    ensures ScanInv(items, i + 1, NextScan(s, items[i].y))
  {
    var y := items[i].y;
    assert RowStart(items, i) <==> s.lastY != INT_MIN && y > s.lastY;
    assert RowStarts(items, i + 1) == s.rows + (if RowStart(items, i) then 1 else 0);
  }

  lemma {:induction false} ScanFewRowsFrom(items: seq<Child>, i: nat, s: Scan)
    requires AllPlaced(items) && i <= |items| && ScanInv(items, i, s)
    requires RowStarts(items, |items|) < NUM_ROWS_TO_EXAMINE
    ensures var o := ScanFrom(items, i, s);
      o.Scanned? && ReadsFewRows(items, o.scan)
    decreases |items| - i
  {
    if i < |items| {
      RowStartsMonotone(items, i + 1, |items|);
      ScanStep(items, i, s);
      ScanFewRowsFrom(items, i + 1, NextScan(s, items[i].y));
    }
  }

  lemma {:induction false} ScanThirdRowFrom(items: seq<Child>, i: nat, s: Scan, k: nat)
    requires AllPlaced(items) && i <= k < |items| && ScanInv(items, i, s) && StopsAt(items, k)
    ensures var o := ScanFrom(items, i, s);
      o.Scanned? && ReadsThirdRow(items, k, o.scan)
    decreases |items| - i
  {
    if i < k {
      RowStartsMonotone(items, i + 1, k);
      ScanStep(items, i, s);
      ScanThirdRowFrom(items, i + 1, NextScan(s, items[i].y), k);
    } else {
      var y := items[i].y;
      assert RowStart(items, i) <==> s.lastY != INT_MIN && y > s.lastY;
    }
  }

  /** Where the third row starts, among children with three row starts or more. */
  lemma {:induction false} ThirdRowStart(items: seq<Child>, n: nat) returns (k: nat)
    requires AllPlaced(items) && n <= |items| && RowStarts(items, n) >= NUM_ROWS_TO_EXAMINE
    ensures 0 < k < n && StopsAt(items, k)
  {
    if RowStarts(items, n - 1) >= NUM_ROWS_TO_EXAMINE {
      k := ThirdRowStart(items, n - 1);
    } else {
      k := n - 1;
    }
  }

  /**
   * What the loop reads off placed children, stated on the children alone: if
   * fewer than three rows start, their number, the items of the last row
   * (corrected) and the rise where it starts; otherwise, stopping at the third
   * row start, the items of the row before it and the rise there.
   */
  lemma ScanReadsRows(items: seq<Child>, k: nat)
    requires AllPlaced(items)
    ensures var o := ScanFrom(items, 0, SCAN_START);
      && o.Scanned?
      && (RowStarts(items, |items|) < NUM_ROWS_TO_EXAMINE ==> ReadsFewRows(items, o.scan))
      && (k < |items| && StopsAt(items, k) ==> ReadsThirdRow(items, k, o.scan))
  {
    if RowStarts(items, |items|) < NUM_ROWS_TO_EXAMINE {
      ScanFewRowsFrom(items, 0, SCAN_START);
    } else {
      var k0 := ThirdRowStart(items, |items|);
      ScanThirdRowFrom(items, 0, SCAN_START, k0);
    }
    if k < |items| && StopsAt(items, k) {
      ScanThirdRowFrom(items, 0, SCAN_START, k);
    }
  }

  // ---------------------------------------------------------------------
  // getScrollableOffset and contentSize
  // ---------------------------------------------------------------------

  /** The scroll data after the down swipe, or else after the swipe back. */
  function ObservedScroll(e: Element, s: Swipe): (d: Option<ScrollData>)
    ensures e.scrollAfter(s).Some? ==> d == e.scrollAfter(s)
    ensures e.scrollAfter(s).None? ==> d == e.scrollAfter(s.Back())
  {
    if e.scrollAfter(s).Some? then e.scrollAfter(s) else e.scrollAfter(s.Back())
  }

  /**
   * getScrollableOffset: the element's bounds in the screen, a swipe and the
   * scroll data it leaves; maxScrollY when reported, else the offset by item
   * count, and an exception when neither is reported.
   */
  function ScrollableOffset(e: Element): (r: Result<int, Throwable>)
    ensures e.screenBounds.None? ==> r == Err(NO_NODE_INFO)
    ensures r.Err? ==> r.error in {NO_NODE_INFO, NO_SCROLL_DATA, NO_SCROLL_METRICS}
    ensures e.screenBounds.Some? ==>
      var d := ObservedScroll(e, SwipePoints(e.screenBounds.value));
      && (r == Err(NO_SCROLL_DATA) <==> d.None?)
      && (d.Some? && d.value.maxScrollY != -1 ==> r == Ok(d.value.maxScrollY))
      && (r == Err(NO_SCROLL_METRICS) <==> d.Some? && d.value.maxScrollY == -1 && d.value.itemCount == -1)
  {
    if e.screenBounds.None? then Err(NO_NODE_INFO)
    else
      var bounds := e.screenBounds.value;
      var data := ObservedScroll(e, SwipePoints(bounds));
      if data.None? then Err(NO_SCROLL_DATA)
      else if data.value.maxScrollY != -1 then Ok(data.value.maxScrollY)
      else if data.value.itemCount == -1 then Err(NO_SCROLL_METRICS)
      else OffsetByItemCount(e.children, data.value.itemCount, bounds.Height())
  }

  /** getTouchPadding: half the scaled paging touch slop, truncated. */
  function TouchPadding(slop: int): (p: int)
    ensures slop >= 0 ==> 2 * p <= slop < 2 * p + 2
  {
    JavaDiv(slop, 2)
  }

  /** ContentSize.toString's object: the bounds, then the scrollable offset and the touch padding. */
  function ContentSizeJson(b: Rect, touchPadding: int, scrollableOffset: int): (j: JValue)
    ensures j.JObject? && Keys(j.members) == ["width", "height", "top", "left", "scrollableOffset", "touchPadding"]
  {
    JObject([("width", JInt(b.Width())), ("height", JInt(b.Height())), ("top", JInt(b.top)), ("left", JInt(b.left)),
             ("scrollableOffset", JInt(scrollableOffset)), ("touchPadding", JInt(touchPadding))])
  }

  /** In an object whose keys are distinct, each key holds the value stored with it. */
  lemma {:induction false} GetStored(m: seq<(string, JValue)>, i: nat)
    requires UniqueKeys(m) && i < |m|
    ensures Get(m, m[i].0) == Some(m[i].1)
  {
    if i > 0 {
      assert m[1..][i - 1] == m[i];
      assert UniqueKeys(m[1..]) by {
        forall a, b | 0 <= a < b < |m| - 1
          ensures m[1..][a].0 != m[1..][b].0
        {
          assert m[1..][a] == m[a + 1] && m[1..][b] == m[b + 1];
        }
      }
      GetStored(m[1..], i - 1);
      assert m[0].0 != m[i].0;
    }
  }

  /** Each key of the contentSize object holds its own value: the element's size and position, the offset and the padding. */
  lemma ContentSizeFields(b: Rect, touchPadding: int, scrollableOffset: int)
    ensures var m := ContentSizeJson(b, touchPadding, scrollableOffset).members;
      && Get(m, "width") == Some(JInt(b.Width())) && Get(m, "height") == Some(JInt(b.Height()))
      && Get(m, "top") == Some(JInt(b.top)) && Get(m, "left") == Some(JInt(b.left))
      && Get(m, "scrollableOffset") == Some(JInt(scrollableOffset))
      && Get(m, "touchPadding") == Some(JInt(touchPadding))
  {
    var m := ContentSizeJson(b, touchPadding, scrollableOffset).members;
    ContentSizeUnique(b, touchPadding, scrollableOffset);
    GetStored(m, 0);
    GetStored(m, 1);
    GetStored(m, 2);
    GetStored(m, 3);
    GetStored(m, 4);
    GetStored(m, 5);
  }

  lemma ContentSizeUnique(b: Rect, touchPadding: int, scrollableOffset: int)
    ensures UniqueKeys(ContentSizeJson(b, touchPadding, scrollableOffset).members)
  {
    var m := ContentSizeJson(b, touchPadding, scrollableOffset).members;
    var ks := Keys(m);
    assert ks[0][0] == 'w' && ks[1][0] == 'h' && ks[2][..3] == "top" && ks[3][0] == 'l';
    assert ks[4][0] == 's' && ks[5][..3] == "tou";
    forall i, j | 0 <= i < j < |m|
      ensures m[i].0 != m[j].0
    {
      assert ks[i] == m[i].0 && ks[j] == m[j].0;
    }
  }

  /** The contentSize attribute: getBounds, then the touch padding, then the scrollable offset; the first to throw wins. */
  function ContentSize(e: Element): (r: Result<JValue, Throwable>)
    ensures e.bounds.Err? ==> r == Err(e.bounds.error)
    ensures e.bounds.Ok? && e.pagingTouchSlop.Err? ==> r == Err(e.pagingTouchSlop.error)
    ensures e.bounds.Ok? && e.pagingTouchSlop.Ok? ==>
      (r.Ok? <==> ScrollableOffset(e).Ok?) &&
      (r.Ok? ==> r.value == ContentSizeJson(e.bounds.value, TouchPadding(e.pagingTouchSlop.value), ScrollableOffset(e).value))
  {
    if e.bounds.Err? then Err(e.bounds.error)
    else if e.pagingTouchSlop.Err? then Err(e.pagingTouchSlop.error)
    else match ScrollableOffset(e)
      case Err(x) => Err(x)
      case Ok(offset) => Ok(ContentSizeJson(e.bounds.value, TouchPadding(e.pagingTouchSlop.value), offset))
  }

  // ---------------------------------------------------------------------
  // safeHandle
  // ---------------------------------------------------------------------

  const STRING_ATTRIBUTES := ["name", "contentDescription", "text", "className", "resourceId"]

  /** The attribute's value: a string attribute as it is, contentSize as JSON text, any other name as a boolean's text. */
  function AttributeValue(e: Element, name: string): (r: Result<Payload, Throwable>)
    ensures name in STRING_ATTRIBUTES ==> (r.Err? <==> e.stringAttribute(name).Err?)
    ensures name in STRING_ATTRIBUTES && r.Err? ==> r.error == e.stringAttribute(name).error
    ensures name == "contentSize" ==> (r.Err? <==> ContentSize(e).Err?) && (r.Err? ==> r.error == ContentSize(e).error)
    ensures name !in STRING_ATTRIBUTES && name != "contentSize" ==>
      (r.Err? <==> e.boolAttribute(name).Err?) && (r.Err? ==> r.error == e.boolAttribute(name).error)
    ensures r.Ok? && name !in STRING_ATTRIBUTES ==> r.value.Value? && r.value.json.JString?
  {
    if name in STRING_ATTRIBUTES then
      match e.stringAttribute(name)
      case Err(x) => Err(x)
      case Ok(s) => Ok(if s.None? then Null else Value(JString(s.value)))
    else if name == "contentSize" then
      match ContentSize(e)
      case Err(x) => Err(x)
      case Ok(j) => Ok(Value(JString(Text(j))))
    else
      match e.boolAttribute(name)
      case Err(x) => Err(x)
      case Ok(b) => Ok(Value(JString(if b then "true" else "false")))
  }

  /** The exceptions safeHandle catches, with the status and value each is answered with. */
  function Caught(x: Throwable): (r: Option<(WDStatus, Payload)>)
    ensures r.Some? ==> r.value.0 != Success && r.value.0 != NoSuchElement
    ensures x.UiObjectNotFound? ==> r == Some((UnknownError, Null))
    ensures r.Some? && !x.UiObjectNotFound? ==> r.value.1 == Thrown(x)
  {
    match x
    case UiObjectNotFound(_) => Some((UnknownError, Null))
    case StaleObject(_) => Some((WDStatus.StaleElementReference, Thrown(x)))
    case UiAutomator2(_, _) => Some((UnknownError, Thrown(x)))
    case Other(c, _) =>
      if c == NO_ATTRIBUTE_FOUND then Some((UnknownCommand, Thrown(x)))
      else if c in REFLECTIVE then Some((UnknownError, Thrown(x)))
      else None
    case JsonError(_) => None
    case JavaError(_, _) => None
  }

  /**
   * safeHandle: `element` is what KnownElements.getElementFromCache answers
   * for the id, or what it throws restoring a stale handle, which is outside
   * the try block and so propagates (Err). An unknown element is
   * NO_SUCH_ELEMENT; a caught exception becomes its status; any other
   * exception propagates.
   */
  function HandleSpec(sessionId: Option<string>, element: Result<Option<Element>, Throwable>, name: string)
    : (r: Result<Reply, Throwable>)
    ensures element.Err? ==> r == Err(element.error)
    ensures element == Ok(None) ==> r == Ok(Reply(sessionId, NoSuchElement, Null))
    ensures r.Ok? ==> r.value.sessionId == sessionId
  {
    match element
    case Err(x) => Err(x)
    case Ok(None) => Ok(Reply(sessionId, NoSuchElement, Null))
    case Ok(Some(e)) =>
      match AttributeValue(e, name)
      case Ok(v) => Ok(Reply(sessionId, Success, v))
      case Err(x) =>
        match Caught(x)
        case None => Err(x)
        case Some(answer) => Ok(Reply(sessionId, answer.0, answer.1))
  }

  /**
   * A cached handle that cannot be restored raises StaleElementReferenceException
   * before the try block: the command fails, and SafeRequestHandler answers it
   * with the 404 of "stale element reference".
   */
  lemma StaleCacheEntry(sessionId: Option<string>, name: string, message: Option<string>)
    ensures var stale := UiAutomator2(Ui2Kind.StaleElementReference, message);
      var r := HandleSpec(sessionId, Err(stale), name);
      && r == Err(stale)
      && SafeRequestHandler.Handle(sessionId, Err(r.error)).httpStatus == HTTP_NOT_FOUND
      && SafeRequestHandler.Handle(sessionId, Err(r.error)).value == Thrown(stale)
  {
    var stale := UiAutomator2(Ui2Kind.StaleElementReference, message);
    SafeRequestHandler.HandleFailureStatus(sessionId, stale);
  }

  /**
   * A known element answers Success exactly when its attribute was read; a
   * failure is answered with an error status carrying the exception (save
   * for UiObjectNotFoundException, answered without it) unless it is none of
   * the caught kinds, and then it propagates.
   */
  lemma HandleOutcomes(sessionId: Option<string>, e: Element, name: string)
    ensures var r := HandleSpec(sessionId, Ok(Some(e)), name);
      var v := AttributeValue(e, name);
      && (r.Ok? && r.value.status == Success <==> v.Ok?)
      && (v.Ok? ==> r == Ok(Reply(sessionId, Success, v.value)))
      && (r.Err? <==> v.Err? && Caught(v.error).None?)
      && (r.Err? ==> r.error == v.error)
      && (v.Err? && r.Ok? ==> r.value.value == (if v.error.UiObjectNotFound? then Null else Thrown(v.error)))
  {
  }

  /** The status of each caught exception kind. */
  lemma FailureStatuses(x: Throwable)
    ensures x.UiObjectNotFound? || x.UiAutomator2? || (x.Other? && x.className in REFLECTIVE) ==>
      Caught(x).Some? && Caught(x).value.0 == UnknownError
    ensures x.StaleObject? ==> Caught(x) == Some((WDStatus.StaleElementReference, Thrown(x)))
    ensures x.Other? && x.className == NO_ATTRIBUTE_FOUND ==> Caught(x) == Some((UnknownCommand, Thrown(x)))
    ensures Caught(x).None? <==> x.JsonError? || x.JavaError? || (x.Other? && x.className != NO_ATTRIBUTE_FOUND && x.className !in REFLECTIVE)
  {
  }

  /** A string attribute is answered verbatim, null as null. */
  lemma StringAttributeVerbatim(sessionId: Option<string>, e: Element, name: string, s: Option<string>)
    requires name in STRING_ATTRIBUTES && e.stringAttribute(name) == Ok(s)
    ensures HandleSpec(sessionId, Ok(Some(e)), name) ==
      Ok(Reply(sessionId, Success, if s.None? then Null else Value(JString(s.value))))
  {
  }

  /** Any other name but contentSize is read as a boolean and answered as the text "true" or "false". */
  lemma BooleanAttributeText(sessionId: Option<string>, e: Element, name: string, b: bool)
    requires name !in STRING_ATTRIBUTES && name != "contentSize" && e.boolAttribute(name) == Ok(b)
    ensures var r := HandleSpec(sessionId, Ok(Some(e)), name);
      && r.Ok? && r.value.status == Success && r.value.value.Value? && r.value.value.json.JString?
      && (r.value.value.json.s == "true" <==> b)
      && (r.value.value.json.s == "false" <==> !b)
  {
  }

  /** The contentSize of an element whose offset is known: its JSON text, and a failure to find its node is an unknown error. */
  lemma ContentSizeAnswer(sessionId: Option<string>, e: Element)
    requires e.bounds.Ok? && e.pagingTouchSlop.Ok?
    ensures var r := HandleSpec(sessionId, Ok(Some(e)), "contentSize");
      && (ScrollableOffset(e).Ok? ==>
            r == Ok(Reply(sessionId, Success, Value(JString(Text(
              ContentSizeJson(e.bounds.value, TouchPadding(e.pagingTouchSlop.value), ScrollableOffset(e).value)))))))
      && (ScrollableOffset(e).Err? ==> r == Ok(Reply(sessionId, UnknownError, Thrown(ScrollableOffset(e).error))))
  {
    assert "contentSize" !in STRING_ATTRIBUTES;
  }
}
