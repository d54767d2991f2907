/**
 * The older helper class for AccessibilityNodeInfo (AccessibilityNodeInfoHelper):
 * bounds clipped to a display of the given size, progress setting and text
 * truncation.
 */
module AccessibilityNodeInfoHelper {
  import opened Common
  import opened Accessibility

  /**
   * getVisibleBoundsInScreen: null for a null node; otherwise the node's bounds
   * intersected in place with the display rectangle [0, 0, width, height]
   * (left unchanged when the two do not overlap).
   */
  method GetVisibleBoundsInScreen(node: Option<NodeInfo>, width: int, height: int) returns (r: Option<Rect>)
    ensures r.None? <==> node.None?
    ensures node.Some? && Intersects(node.value.boundsInScreen, Rect(0, 0, width, height)) ==>
      forall x, y :: Covers(r.value, x, y) <==> Covers(node.value.boundsInScreen, x, y) && 0 <= x < width && 0 <= y < height
    ensures node.Some? && !Intersects(node.value.boundsInScreen, Rect(0, 0, width, height)) ==>
      r == Some(node.value.boundsInScreen)
  {
    if node.None? {
      return None;
    }
    var nodeRect := node.value.boundsInScreen;
    var displayRect := EmptyRect;
    displayRect := displayRect.(top := 0);
    displayRect := displayRect.(left := 0);
    displayRect := displayRect.(right := width);
    displayRect := displayRect.(bottom := height);
    nodeRect := Intersect(nodeRect, displayRect);
    return Some(nodeRect);
  }

  /**
   * setProgressValue: false without acting when ACTION_SET_PROGRESS is not in
   * the node's action list; otherwise the outcome `performed` of performAction.
   */
  function SetProgressValue(node: NodeInfo, value: real, performed: bool): (r: bool)
    ensures !node.canSetProgress ==> !r
    ensures node.canSetProgress ==> r == performed
  {
    if !node.canSetProgress then false else performed
  }

  /**
   * truncateTextToMaxLength: always a prefix of the text, of length
   * min(length, maxTextLength) when maxTextLength > 0 and the whole text otherwise.
   */
  function TruncateTextToMaxLength(node: NodeInfo, text: string): (r: string)
    ensures |r| <= |text| && r == text[..|r|]
    ensures node.maxTextLength > 0 ==> |r| == Min(|text|, node.maxTextLength)
    ensures node.maxTextLength <= 0 ==> r == text
  {
    if node.maxTextLength > 0 && |text| > node.maxTextLength then text[..node.maxTextLength] else text
  }
}
