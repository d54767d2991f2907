/**
 * The Android framework values the page-source code reads: an
 * AccessibilityNodeInfo as an immutable record (its children as it reports
 * them, `null` included), and the element attributes of the server's
 * Attribute enumeration with the values stored for them.
 */
module Accessibility {
  import opened Common

  /** The boolean properties of an AccessibilityNodeInfo. */
  datatype Flags = Flags(
    checkable: bool, checked: bool, clickable: bool, enabled: bool, focusable: bool,
    focused: bool, longClickable: bool, password: bool, scrollable: bool, selected: bool)

  const NoFlags := Flags(false, false, false, false, false, false, false, false, false, false)

  /**
   * An AccessibilityNodeInfo. `id` stands for the node's identity (its equals
   * and hashCode); `rangeInfo` is the current value of its RangeInfo as
   * Float.toString renders it; `canSetProgress` says whether ACTION_SET_PROGRESS
   * is in its action list.
   */
  datatype NodeInfo = NodeInfo(
    id: int,
    packageName: Option<string>,
    className: Option<string>,
    text: Option<string>,
    contentDescription: Option<string>,
    viewIdResourceName: Option<string>,
    flags: Flags,
    visibleToUser: bool,
    boundsInScreen: Rect,
    textSelectionStart: int,
    textSelectionEnd: int,
    maxTextLength: int,
    rangeInfo: Option<string>,
    canSetProgress: bool,
    children: seq<Option<NodeInfo>>)

  /** AccessibilityNodeInfo.obtain(): a blank node (no text, no flags, empty bounds, no children, no selection). */
  function Obtain(id: int): NodeInfo
  {
    NodeInfo(id, None, None, None, None, None, NoFlags, false, EmptyRect, -1, -1, -1, None, false, [])
  }

  /** The element attributes (io.appium.uiautomator2.utils.Attribute). */
  datatype Attribute =
    | INDEX | PACKAGE | CLASS | TEXT | CONTENT_DESC | RESOURCE_ID
    | CHECKABLE | CHECKED | CLICKABLE | ENABLED | FOCUSABLE | FOCUSED
    | LONG_CLICKABLE | PASSWORD | SCROLLABLE | SELECTION_START | SELECTION_END
    | SELECTED | BOUNDS
  {
    /** Attribute.getName: the XML attribute name. */
    function Name(): string
    {
      match this
      case INDEX => "index"
      case PACKAGE => "package"
      case CLASS => "class"
      case TEXT => "text"
      case CONTENT_DESC => "content-desc"
      case RESOURCE_ID => "resource-id"
      case CHECKABLE => "checkable"
      case CHECKED => "checked"
      case CLICKABLE => "clickable"
      case ENABLED => "enabled"
      case FOCUSABLE => "focusable"
      case FOCUSED => "focused"
      case LONG_CLICKABLE => "long-clickable"
      case PASSWORD => "password"
      case SCROLLABLE => "scrollable"
      case SELECTION_START => "selection-start"
      case SELECTION_END => "selection-end"
      case SELECTED => "selected"
      case BOUNDS => "bounds"
    }
  }

  /** The attributes in declaration order, the order an EnumMap iterates its keys in. */
  const AllAttributes: seq<Attribute> := [
    INDEX, PACKAGE, CLASS, TEXT, CONTENT_DESC, RESOURCE_ID, CHECKABLE, CHECKED, CLICKABLE,
    ENABLED, FOCUSABLE, FOCUSED, LONG_CLICKABLE, PASSWORD, SCROLLABLE, SELECTION_START,
    SELECTION_END, SELECTED, BOUNDS]

  /** A stored attribute value: an Integer, a String, a Boolean or a Rect. */
  datatype AValue = AInt(i: int) | AStr(s: string) | ABool(b: bool) | ARect(r: Rect)

  /** Rect.toShortString: "[left,top][right,bottom]". */
  function RectShortString(r: Rect): string
  {
    "[" + IntToString(r.left) + "," + IntToString(r.top) + "][" + IntToString(r.right) + "," + IntToString(r.bottom) + "]"
  }

  /** Rect.toString: "Rect(left, top - right, bottom)". */
  function RectString(r: Rect): string
  {
    "Rect(" + IntToString(r.left) + ", " + IntToString(r.top) + " - " + IntToString(r.right) + ", " + IntToString(r.bottom) + ")"
  }

  /** String.valueOf of a stored value. */
  function ValueText(v: AValue): string
  {
    match v
    case AInt(i) => IntToString(i)
    case AStr(s) => s
    case ABool(b) => if b then "true" else "false"
    case ARect(r) => RectString(r)
  }
}
