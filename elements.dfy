/**
 * The element handles the server hands out: a locator (`By`) and the
 * AndroidElement a client refers to by id.
 */
module Elements {
  import opened Common

  /** The locator strategies of the `By` hierarchy. */
  datatype Strategy =
    | Id
    | Name
    | LinkText
    | PartialLinkText
    | XPath
    | ClassName
    | CssSelector
    | AccessibilityId
    | AndroidUiAutomator

  /** A locator: its strategy and the selector string it carries. */
  datatype By = By(strategy: Strategy, locator: string)

  /**
   * An element handle. `uiObject` stands for the UiObject or UiObject2 it
   * wraps (two handles are the same element exactly when they are equal); the
   * other fields are what the handle remembers for restoring itself.
   */
  datatype AndroidElement = AndroidElement(
    id: string,
    uiObject: nat,
    locatedBy: Option<By>,
    singleMatch: bool,
    contextId: Option<string>)

  /** Two handles for the same located element: they differ at most in the UI object they wrap. */
  predicate SameLocator(a: AndroidElement, b: AndroidElement)
  {
    a.id == b.id && a.locatedBy == b.locatedBy && a.singleMatch == b.singleMatch && a.contextId == b.contextId
  }
}
