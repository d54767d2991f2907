/**
 * The W3C actions payload (W3C WebDriver Recommendation, section 17
 * "Actions") as typed records, and the constants of ActionsConstants. Each
 * `Option` field stands for the presence of one JSON key; the values follow
 * the key names and value sets of section 17 of the Recommendation.
 */
module ActionsData {
  import opened Common
  import opened Json

  // Input source types.
  const ACTION_TYPE_POINTER := "pointer"
  const ACTION_TYPE_KEY := "key"
  const ACTION_TYPE_NONE := "none"
  const ACTION_TYPES: seq<string> := [ACTION_TYPE_POINTER, ACTION_TYPE_KEY, ACTION_TYPE_NONE]

  // Pointer types of a pointer source.
  const POINTER_TYPE_MOUSE := "mouse"
  const POINTER_TYPE_PEN := "pen"
  const POINTER_TYPE_TOUCH := "touch"
  const POINTER_TYPES: seq<string> := [POINTER_TYPE_MOUSE, POINTER_TYPE_PEN, POINTER_TYPE_TOUCH]

  // Action item types.
  const ITEM_PAUSE := "pause"
  const ITEM_POINTER_UP := "pointerUp"
  const ITEM_POINTER_DOWN := "pointerDown"
  const ITEM_POINTER_MOVE := "pointerMove"
  const ITEM_POINTER_CANCEL := "pointerCancel"
  const ITEM_KEY_UP := "keyUp"
  const ITEM_KEY_DOWN := "keyDown"
  const POINTER_ITEM_TYPES: seq<string> := [ITEM_PAUSE, ITEM_POINTER_UP, ITEM_POINTER_DOWN, ITEM_POINTER_MOVE, ITEM_POINTER_CANCEL]
  const KEY_ITEM_TYPES: seq<string> := [ITEM_PAUSE, ITEM_KEY_UP, ITEM_KEY_DOWN]
  const NONE_ITEM_TYPES: seq<string> := [ITEM_PAUSE]

  // Pointer move origins.
  const ORIGIN_VIEWPORT := "viewport"
  const ORIGIN_POINTER := "pointer"

  // W3C mouse buttons.
  const MOUSE_BUTTON_LEFT := 0
  const MOUSE_BUTTON_MIDDLE := 1
  const MOUSE_BUTTON_RIGHT := 2

  /** EVENT_INJECTION_DELAY_MS: the grid every event time is aligned to. */
  const D: nat := 5

  /** The `parameters` object of an action. */
  datatype Parameters = Parameters(pointerType: Option<string>)

  /** One action item: its `type`, `duration`, `value`, `button`, `origin`, `x` and `y` keys. */
  datatype Item = Item(
    itemType: Option<string>,
    duration: Option<int>,
    value: Option<string>,
    button: Option<int>,
    origin: Option<JValue>,
    x: Option<real>,
    y: Option<real>)

  /** One input source: its `id`, `type`, `parameters` and `actions` keys. */
  datatype Action = Action(
    id: Option<string>,
    actionType: Option<string>,
    parameters: Option<Parameters>,
    items: Option<seq<Item>>)

  /** Why an ActionsParseException was raised. */
  datatype ParseError =
    | MissingActionId
    | DuplicateActionId(id: string)
    | MissingActionType(id: string)
    | UnknownActionType(id: string, actionType: string)
    | UnknownPointerType(id: string, pointerType: string)
    | PointerTypeOnNonPointer(id: string)
    | MissingItems(id: string)
    | MissingItemType(id: string)
    | ItemTypeNotAllowed(id: string, actionType: string, itemType: string)
    | SeveralPointerTypes(count: nat)
    | MissingDuration(id: string)
    | NegativeDuration(id: string)
    | UnexpectedItem(id: string, itemType: string)
    | MissingKeyValue(id: string)
    | EmptyKeyValue(id: string)
    | TooManyPointers(toolType: int)
    | DownWithoutPause(id: string, delta: int)
    | UpWithoutDown(id: string, delta: int)
    | UpWithoutPause(id: string, delta: int)
    | NoStartCoordinates(id: string)
    | NoPrecedingCoordinates(id: string)
    | MissingViewportCoordinate(id: string)
    | NoPrecedingAbsoluteCoordinates(id: string)
    | UnknownElement(id: string)
    | UnknownElementId(id: string, elementId: string)
    | ZeroSizeElement(id: string, elementId: string)

  /**
   * What the actions code can throw: an ActionsParseException, a JSONException
   * for a missing key, or an exception of the element lookup that is not caught
   * and passes through as it is.
   */
  datatype ActionsError =
    | Parse(reason: ParseError)
    | MissingKey(key: string)
    | Uncaught(exception: LookupException)

  /** The exceptions of an element lookup that extractElementCoordinates does not catch. */
  datatype LookupException =
    | StaleElementReference   // KnownElements.getElementFromCache cannot restore the element
    | StaleObject             // AndroidElement.getBounds on a node that is gone
}
