/** The strategy table that turns a client's `using` string into a locator. */
module NativeAndroidBySelector {
  import opened Common
  import opened Elements

  const SELECTOR_NATIVE_ID := "id"
  const SELECTOR_L10N := "tag name"
  const SELECTOR_TEXT := "link text"
  const SELECTOR_PARTIAL_TEXT := "partial link text"
  const SELECTOR_XPATH := "xpath"
  const SELECTOR_NAME := "name"
  const SELECTOR_CLASS := "class name"
  const SELECTOR_CSS := "css selector"

  /** The UiAutomator2Exception pickFrom raises for an unknown strategy, with the strategy named. */
  datatype PickError = MethodNotFound(name: string)

  /** The strategy name each locator kind the table knows is picked by. */
  function StrategyName(s: Strategy): Option<string>
  {
    match s
    case Id => Some(SELECTOR_NATIVE_ID)
    case Name => Some(SELECTOR_NAME)
    case LinkText => Some(SELECTOR_TEXT)
    case PartialLinkText => Some(SELECTOR_PARTIAL_TEXT)
    case XPath => Some(SELECTOR_XPATH)
    case ClassName => Some(SELECTOR_CLASS)
    case CssSelector => Some(SELECTOR_CSS)
    case AccessibilityId => None
    case AndroidUiAutomator => None
  }

  /** pickFrom: exact, case-sensitive comparison against each strategy name in turn. */
  function PickFrom(name: string, selector: string): (r: Result<By, PickError>)
    ensures r.Ok? ==> r.value.locator == selector && StrategyName(r.value.strategy) == Some(name)
    ensures r.Err? ==> r.error == MethodNotFound(name)
  {
    if name == SELECTOR_NATIVE_ID then Ok(By(Id, selector))
    else if name == SELECTOR_NAME then Ok(By(Name, selector))
    else if name == SELECTOR_TEXT then Ok(By(LinkText, selector))
    else if name == SELECTOR_PARTIAL_TEXT then Ok(By(PartialLinkText, selector))
    else if name == SELECTOR_XPATH then Ok(By(XPath, selector))
    else if name == SELECTOR_CLASS then Ok(By(ClassName, selector))
    else if name == SELECTOR_CSS then Ok(By(CssSelector, selector))
    else Err(MethodNotFound(name))
  }

  /** Every strategy with a name is picked by exactly that name, with the selector unchanged. */
  lemma PickFromName(s: Strategy, selector: string)
    requires StrategyName(s).Some?
    ensures PickFrom(StrategyName(s).value, selector) == Ok(By(s, selector))
  {
  }

  /** A method is accepted exactly when it is the name of some strategy. */
  lemma PickFromAccepts(name: string, selector: string)
    ensures PickFrom(name, selector).Ok? <==> exists s :: StrategyName(s) == Some(name)
  {
    if exists s :: StrategyName(s) == Some(name) {
      var s :| StrategyName(s) == Some(name);
      PickFromName(s, selector);
    }
  }

  /** The commented-out "tag name" strategy, and names differing only in case, are refused. */
  lemma PickFromRefuses(selector: string)
    ensures PickFrom(SELECTOR_L10N, selector) == Err(MethodNotFound(SELECTOR_L10N))
    ensures PickFrom("ID", selector).Err? && PickFrom("XPath", selector).Err?
  {
  }
}
