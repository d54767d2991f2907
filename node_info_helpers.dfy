/**
 * Null-safe reads of an AccessibilityNodeInfo (AccessibilityNodeInfoHelpers):
 * the text selection, text and flags, the visible bounds clipped to the screen
 * and to the first scrollable ancestor, progress setting and text truncation.
 */
module AccessibilityNodeInfoHelpers {
  import opened Common
  import opened Accessibility
  import AccessibilityNodeInfoHelper

  /** Ancestors further than this are never examined (the recursion bound of getVisibleBounds). */
  const MAX_DEPTH := 70

  /** android.util.Range<Integer>. */
  datatype Range = Range(lower: int, upper: int)

  /** The constructor of android.util.Range throws IllegalArgumentException when lower > upper. */
  datatype HelperError = IllegalArgument

  /**
   * getSelectionRange: null for a null node; otherwise the range (start, end)
   * exactly when start >= 0 and start != end, where a start after the end is
   * refused by the Range constructor.
   */
  function GetSelectionRange(nodeInfo: Option<NodeInfo>): (r: Result<Option<Range>, HelperError>)
    ensures nodeInfo.None? ==> r == Ok(None)
    ensures nodeInfo.Some? ==>
      var s := nodeInfo.value.textSelectionStart;
      var e := nodeInfo.value.textSelectionEnd;
      && (r == Ok(None) <==> s < 0 || s == e)
      && (r == Ok(Some(Range(s, e))) <==> 0 <= s < e)
      && (r.Err? <==> 0 <= s && e < s)
  {
    if nodeInfo.None? then Ok(None)
    else
      var s := nodeInfo.value.textSelectionStart;
      var e := nodeInfo.value.textSelectionEnd;
      if s >= 0 && s != e then (if s > e then Err(IllegalArgument) else Ok(Some(Range(s, e))))
      else Ok(None)
  }

  /** getPackageName: null for a null node. */
  function GetPackageName(nodeInfo: Option<NodeInfo>): (r: Option<string>)
    ensures nodeInfo.None? ==> r.None?
    ensures nodeInfo.Some? ==> r == nodeInfo.value.packageName
  {
    if nodeInfo.None? then None else nodeInfo.value.packageName
  }

  /** isPassword: false for a null node. */
  function IsPassword(nodeInfo: Option<NodeInfo>): (r: bool)
    ensures r <==> nodeInfo.Some? && nodeInfo.value.flags.password
  {
    nodeInfo.Some? && nodeInfo.value.flags.password
  }

  /** isVisible: false for a null node. */
  function IsVisible(nodeInfo: Option<NodeInfo>): (r: bool)
    ensures r <==> nodeInfo.Some? && nodeInfo.value.visibleToUser
  {
    nodeInfo.Some? && nodeInfo.value.visibleToUser
  }

  /** StringHelpers.charSequenceToString: a null text is "" when replaceNull is set. */
  function CharSequenceToString(input: Option<string>, replaceNull: bool): (r: Option<string>)
    ensures input.Some? ==> r == input
    ensures input.None? ==> (r.Some? <==> replaceNull)
  {
    if input.Some? then input else if replaceNull then Some("") else None
  }

  /**
   * getText: for a null node "" when replaceNull is set and null otherwise; a
   * node with range info gives its current value; otherwise the node's text.
   * With replaceNull the result is never null.
   */
  function GetText(nodeInfo: Option<NodeInfo>, replaceNull: bool): (r: Option<string>)
    ensures nodeInfo.None? ==> r == (if replaceNull then Some("") else None)
    ensures nodeInfo.Some? && nodeInfo.value.rangeInfo.Some? ==> r == nodeInfo.value.rangeInfo
    ensures nodeInfo.Some? && nodeInfo.value.rangeInfo.None? && nodeInfo.value.text.Some? ==> r == nodeInfo.value.text
    ensures replaceNull ==> r.Some?
  {
    if nodeInfo.None? then (if replaceNull then Some("") else None)
    else if nodeInfo.value.rangeInfo.Some? then nodeInfo.value.rangeInfo
    else CharSequenceToString(nodeInfo.value.text, replaceNull)
  }

  // ---------------------------------------------------------------------
  // getVisibleBounds
  // ---------------------------------------------------------------------

  function Screen(displayWidth: int, displayHeight: int): Rect
  {
    Rect(0, 0, displayWidth, displayHeight)
  }

  /**
   * The ancestor loop of getVisibleBounds from position k: the loop moves to
   * the next ancestor while one exists and the incremented depth stays below
   * MAX_DEPTH, and stops at the first scrollable one.
   */
  function FirstScrollable(ancestors: seq<NodeInfo>, depth: int, k: nat): (r: Option<nat>)
    requires k <= |ancestors|
    ensures r.Some? ==>
      && k <= r.value < |ancestors| && ancestors[r.value].flags.scrollable && depth + r.value + 1 < MAX_DEPTH
      && forall j :: k <= j < r.value ==> !ancestors[j].flags.scrollable
    ensures r.None? ==> forall j :: k <= j < |ancestors| && depth + j + 1 < MAX_DEPTH ==> !ancestors[j].flags.scrollable
    decreases |ancestors| - k
  {
    if k == |ancestors| || depth + k + 1 >= MAX_DEPTH then None
    else if ancestors[k].flags.scrollable then Some(k)
    else FirstScrollable(ancestors, depth, k + 1)
  }

  /**
   * getVisibleBounds(node, depth): the node's bounds clipped to the screen and
   * then to the visible bounds of its first scrollable ancestor (which are
   * worked out from that ancestor's own ancestors, one depth further).
   * `ancestors` lists the node's parent, grandparent, and so on.
   */
  function VisibleBoundsAt(node: NodeInfo, ancestors: seq<NodeInfo>, depth: int, displayWidth: int, displayHeight: int): Rect
    decreases |ancestors|
  {
    var ret := Intersect(node.boundsInScreen, Screen(displayWidth, displayHeight));
    match FirstScrollable(ancestors, depth, 0)
    case None => ret
    case Some(k) => Intersect(ret, VisibleBoundsAt(ancestors[k], ancestors[k + 1..], depth + k + 1, displayWidth, displayHeight))
  }

  /** The public getVisibleBounds(node): null for a null node, otherwise the walk from depth 0. */
  function GetVisibleBounds(node: Option<NodeInfo>, ancestors: seq<NodeInfo>, displayWidth: int, displayHeight: int): (r: Option<Rect>)
    ensures r.None? <==> node.None?
    ensures node.Some? && ancestors == [] ==> r == Some(Intersect(node.value.boundsInScreen, Screen(displayWidth, displayHeight)))
  {
    if node.None? then None else Some(VisibleBoundsAt(node.value, ancestors, 0, displayWidth, displayHeight))
  }

  /** getVisibleBounds(node, depth) as the source runs it: intersect a Rect in place inside the ancestor loop. */
  method VisibleBounds(node: NodeInfo, ancestors: seq<NodeInfo>, depth: int, displayWidth: int, displayHeight: int)
    returns (ret: Rect)
    ensures ret == VisibleBoundsAt(node, ancestors, depth, displayWidth, displayHeight)
    decreases |ancestors|
  {
    ret := node.boundsInScreen;
    var screen := Screen(displayWidth, displayHeight);
    ret := Intersect(ret, screen);
    var k := 0;
    var d := depth;
    while k < |ancestors|
      invariant 0 <= k <= |ancestors| && d == depth + k
      invariant FirstScrollable(ancestors, depth, 0) == FirstScrollable(ancestors, depth, k)
      invariant ret == Intersect(node.boundsInScreen, screen)
    {
      d := d + 1;
      if d >= MAX_DEPTH {
        break;
      }
      if ancestors[k].flags.scrollable {
        var ancestorRect := VisibleBounds(ancestors[k], ancestors[k + 1..], d, displayWidth, displayHeight);
        ret := Intersect(ret, ancestorRect);
        return;
      }
      k := k + 1;
    }
  }

  /** The visible bounds never reach outside the node's bounds, nor outside the screen when the node is on it. */
  lemma VisibleBoundsInside(node: NodeInfo, ancestors: seq<NodeInfo>, depth: int, w: int, h: int, x: int, y: int)
    requires Covers(VisibleBoundsAt(node, ancestors, depth, w, h), x, y)
    ensures Covers(node.boundsInScreen, x, y)
    ensures Intersects(node.boundsInScreen, Screen(w, h)) ==> 0 <= x < w && 0 <= y < h
  {
    var ret := Intersect(node.boundsInScreen, Screen(w, h));
    assert Covers(ret, x, y);
  }

  /** Without a scrollable ancestor in reach, the result is the node's bounds clipped to the screen. */
  lemma NoScrollableAncestor(node: NodeInfo, ancestors: seq<NodeInfo>, depth: int, w: int, h: int)
    requires forall j :: 0 <= j < |ancestors| ==> !ancestors[j].flags.scrollable
    ensures VisibleBoundsAt(node, ancestors, depth, w, h) == Intersect(node.boundsInScreen, Screen(w, h))
  {
  }

  /** The number of ancestors the walk can look at from `depth`. */
  function Reach(depth: int, n: nat): (c: nat)
    ensures c <= n
  {
    if MAX_DEPTH - 1 - depth <= 0 then 0 else Min(n, MAX_DEPTH - 1 - depth)
  }

  lemma {:induction false} FirstScrollableCut(ancestors: seq<NodeInfo>, depth: int, k: nat)
    requires k <= Reach(depth, |ancestors|)
    ensures FirstScrollable(ancestors, depth, k) == FirstScrollable(ancestors[..Reach(depth, |ancestors|)], depth, k)
    decreases |ancestors| - k
  {
    var c := Reach(depth, |ancestors|);
    if k < c {
      assert ancestors[..c][k] == ancestors[k];
      FirstScrollableCut(ancestors, depth, k + 1);
    }
  }

  /**
   * The walk is bounded by MAX_DEPTH: ancestors more than MAX_DEPTH - 1 - depth
   * levels up never affect the result, however long the parent chain is.
   */
  lemma {:induction false} VisibleBoundsDepthBound(node: NodeInfo, ancestors: seq<NodeInfo>, depth: int, w: int, h: int)
    ensures VisibleBoundsAt(node, ancestors, depth, w, h)
      == VisibleBoundsAt(node, ancestors[..Reach(depth, |ancestors|)], depth, w, h)
    decreases |ancestors|
  {
    var cut := ancestors[..Reach(depth, |ancestors|)];
    var first := FirstScrollable(ancestors, depth, 0);
    assert FirstScrollable(cut, depth, 0) == first by {
      FirstScrollableCut(ancestors, depth, 0);
    }
    if first.None? {
      ClippedAtNone(node, ancestors, depth, w, h);
      ClippedAtNone(node, cut, depth, w, h);
    } else {
      var k := first.value;
      var rest := ancestors[k + 1..];
      VisibleBoundsDepthBound(ancestors[k], rest, depth + k + 1, w, h);
      ScrollableCut(node, ancestors, depth, w, h, cut, k, rest);
    }
  }

  /** The step of the depth bound at the first scrollable ancestor k, given the bound for that ancestor. */
  lemma ScrollableCut(node: NodeInfo, ancestors: seq<NodeInfo>, depth: int, w: int, h: int,
                      cut: seq<NodeInfo>, k: nat, rest: seq<NodeInfo>)
    requires FirstScrollable(ancestors, depth, 0) == Some(k) && FirstScrollable(cut, depth, 0) == Some(k)
    requires cut == ancestors[..Reach(depth, |ancestors|)] && rest == ancestors[k + 1..]
    requires VisibleBoundsAt(ancestors[k], rest, depth + k + 1, w, h)
      == VisibleBoundsAt(ancestors[k], rest[..Reach(depth + k + 1, |rest|)], depth + k + 1, w, h)
    ensures VisibleBoundsAt(node, ancestors, depth, w, h) == VisibleBoundsAt(node, cut, depth, w, h)
  {
    CutTail(ancestors, depth, k, cut, rest);
    ClippedAtScrollable(node, ancestors, depth, w, h, k);
    ClippedAtScrollable(node, cut, depth, w, h, k);
  }

  /** One unfolding of the walk when the first scrollable ancestor in reach is the k-th. */
  lemma ClippedAtScrollable(node: NodeInfo, ancestors: seq<NodeInfo>, depth: int, w: int, h: int, k: nat)
    requires FirstScrollable(ancestors, depth, 0) == Some(k)
    ensures k < |ancestors|
    ensures VisibleBoundsAt(node, ancestors, depth, w, h)
      == Intersect(Intersect(node.boundsInScreen, Screen(w, h)), VisibleBoundsAt(ancestors[k], ancestors[k + 1..], depth + k + 1, w, h))
  {
  }

  /** Cutting the chain and then taking the part above the k-th ancestor is cutting that part at its own reach. */
  lemma CutTail(ancestors: seq<NodeInfo>, depth: int, k: nat, cut: seq<NodeInfo>, rest: seq<NodeInfo>)
    requires k < |ancestors| && depth + k + 1 < MAX_DEPTH
    requires cut == ancestors[..Reach(depth, |ancestors|)] && rest == ancestors[k + 1..]
    ensures k < |cut| && cut[k] == ancestors[k]
    ensures cut[k + 1..] == rest[..Reach(depth + k + 1, |rest|)]
  {
    assert Reach(depth + k + 1, |rest|) == Reach(depth, |ancestors|) - k - 1;
  }

  /** One unfolding of the walk when no ancestor in reach is scrollable. */
  lemma ClippedAtNone(node: NodeInfo, ancestors: seq<NodeInfo>, depth: int, w: int, h: int)
    requires FirstScrollable(ancestors, depth, 0).None?
    ensures VisibleBoundsAt(node, ancestors, depth, w, h) == Intersect(node.boundsInScreen, Screen(w, h))
  {
  }

  // ---------------------------------------------------------------------
  // setProgressValue and truncateTextToMaxLength
  // ---------------------------------------------------------------------

  /**
   * setProgressValue: false without acting when ACTION_SET_PROGRESS is not
   * supported; otherwise the outcome `performed` of performAction. The code
   * is the same as AccessibilityNodeInfoHelper's.
   */
  function SetProgressValue(node: NodeInfo, value: real, performed: bool): (r: bool)
    ensures !node.canSetProgress ==> !r
    ensures node.canSetProgress ==> r == performed
  {
    AccessibilityNodeInfoHelper.SetProgressValue(node, value, performed)
  }

  /**
   * truncateTextToMaxLength: a prefix of the text, cut to the node's maximum
   * text length when that is positive; the same code as AccessibilityNodeInfoHelper's.
   */
  function TruncateTextToMaxLength(node: NodeInfo, text: string): (r: string)
    ensures |r| <= |text| && r == text[..|r|]
    ensures |r| == if node.maxTextLength > 0 then Min(|text|, node.maxTextLength) else |text|
  {
    AccessibilityNodeInfoHelper.TruncateTextToMaxLength(node, text)
  }
}
