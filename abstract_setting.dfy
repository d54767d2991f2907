/**
 * The settings a session can change: the registry of Settings.java, each
 * entry with its name and the Java type of its value, and
 * AbstractSetting.updateSetting, which type-checks a value before applying it.
 */
module SettingsModel {
  import opened Common
  import opened Json
  import opened AppiumResponses

  /** The value types settings are declared with. */
  datatype ValueType = LongType | BooleanType | StringType
  {
    /** Class.getName() of the type. */
    function Name(): string
    {
      match this
      case LongType => "java.lang.Long"
      case BooleanType => "java.lang.Boolean"
      case StringType => "java.lang.String"
    }
  }

  /** The registry, in declaration order. */
  datatype Setting =
    | ActionAcknowledgmentTimeout
    | AllowInvisibleElements
    | CompressedLayoutHierarchy
    | ElementResponseAttributes
    | EnableNotificationListener
    | KeyInjectionDelay
    | ScrollAcknowledgmentTimeout
    | ShouldUseCompactResponses
    | WaitForIdleTimeout
    | WaitForSelectorTimeout
    | ShutdownOnPowerDisconnect
  {
    /** toString(): the setting's name. */
    function Name(): string
    {
      match this
      case ActionAcknowledgmentTimeout => "actionAcknowledgmentTimeout"
      case AllowInvisibleElements => "allowInvisibleElements"
      case CompressedLayoutHierarchy => "ignoreUnimportantViews"
      case ElementResponseAttributes => "elementResponseAttributes"
      case EnableNotificationListener => "enableNotificationListener"
      case KeyInjectionDelay => "keyInjectionDelay"
      case ScrollAcknowledgmentTimeout => "scrollAcknowledgmentTimeout"
      case ShouldUseCompactResponses => "shouldUseCompactResponses"
      case WaitForIdleTimeout => "waitForIdleTimeout"
      case WaitForSelectorTimeout => "waitForSelectorTimeout"
      case ShutdownOnPowerDisconnect => "shutdownOnPowerDisconnect"
    }

    /** getValueType(): the type the setting's constructor passes up. */
    function ValueType(): ValueType
    {
      match this
      case ActionAcknowledgmentTimeout => LongType
      case AllowInvisibleElements => BooleanType
      case CompressedLayoutHierarchy => BooleanType
      case ElementResponseAttributes => StringType
      case EnableNotificationListener => BooleanType
      case KeyInjectionDelay => LongType
      case ScrollAcknowledgmentTimeout => LongType
      case ShouldUseCompactResponses => BooleanType
      case WaitForIdleTimeout => LongType
      case WaitForSelectorTimeout => LongType
      case ShutdownOnPowerDisconnect => BooleanType
    }
  }

  /** Settings.values(). */
  const ALL_SETTINGS: seq<Setting> := [
    ActionAcknowledgmentTimeout, AllowInvisibleElements, CompressedLayoutHierarchy,
    ElementResponseAttributes, EnableNotificationListener, KeyInjectionDelay,
    ScrollAcknowledgmentTimeout, ShouldUseCompactResponses, WaitForIdleTimeout,
    WaitForSelectorTimeout, ShutdownOnPowerDisconnect]

  /** Every setting is listed, and no two settings share a name. */
  lemma RegistryComplete(s: Setting)
    ensures s in ALL_SETTINGS
  {
  }

  lemma NameInjective(a: Setting, b: Setting)
    requires a.Name() == b.Name()
    ensures a == b
  {
  }

  /** getClass().getName() of a value decoded from JSON. */
  function ClassName(v: JValue): string
  {
    match v
    case JNull => "org.json.JSONObject$Null"
    case JBool(_) => "java.lang.Boolean"
    case JInt(_) => "java.lang.Integer"
    case JLong(_) => "java.lang.Long"
    case JString(_) => "java.lang.String"
    case JArray(_) => "org.json.JSONArray"
    case JObject(_) => "org.json.JSONObject"
  }

  /** Class.isInstance: an Integer is not a Long, and nothing but a String is a String. */
  predicate IsInstance(t: ValueType, v: JValue)
  {
    match t
    case LongType => v.JLong?
    case BooleanType => v.JBool?
    case StringType => v.JString?
  }

  /** convertValue: the value itself when it has the declared type, and otherwise a UiAutomator2Exception naming both types. */
  function ConvertValue(t: ValueType, v: JValue): (r: Result<JValue, Throwable>)
    ensures r.Ok? <==> IsInstance(t, v)
    ensures r.Ok? ==> r.value == v
    ensures r.Err? ==> r.error.UiAutomator2? && r.error.kind == Generic
  {
    if !IsInstance(t, v) then
      Err(UiAutomator2(Generic, Some("Invalid setting value type. Got: " + ClassName(v) + ". Expected: " + t.Name() + ".")))
    else Ok(v)
  }

  /**
   * What updateSetting did: the value `apply` was given, and the exception
   * `apply` threw, which is logged and swallowed.
   */
  datatype Applied = Applied(value: JValue, swallowed: Option<Throwable>)

  /** Whether `catch (Exception e)` stops what `apply` threw: anything but a java.lang.Error. */
  predicate Swallowed(applyError: Option<Throwable>)
  {
    applyError.None? || !applyError.value.JavaError?
  }

  /**
   * updateSetting(value): `applyError` is what the setting's `apply` throws, if
   * anything (the settings' own apply methods act on the device and are not part
   * of this model). A value of the wrong type raises before `apply` is called;
   * an Exception from `apply` is swallowed and an Error propagates.
   */
  function UpdateSetting(setting: Setting, value: JValue, applyError: Option<Throwable>): (r: Result<Applied, Throwable>)
    ensures r.Err? <==> !IsInstance(setting.ValueType(), value) || !Swallowed(applyError)
    ensures !IsInstance(setting.ValueType(), value) ==> r.Err? && r.error.UiAutomator2? && r.error.kind == Generic
    ensures IsInstance(setting.ValueType(), value) && !Swallowed(applyError) ==> r == Err(applyError.value)
    ensures r.Ok? ==> r.value.value == value && r.value.swallowed == applyError
  {
    match ConvertValue(setting.ValueType(), value)
    case Err(e) => Err(e)
    case Ok(converted) =>
      if !Swallowed(applyError) then Err(applyError.value) else Ok(Applied(converted, applyError))
  }

  /**
   * Whether an update succeeds depends only on the value's type as long as
   * `apply` throws no Error; an Error from `apply` always makes it fail.
   */
  lemma UpdateIgnoresApplyFailure(setting: Setting, value: JValue, e1: Option<Throwable>, e2: Option<Throwable>)
    ensures Swallowed(e1) && Swallowed(e2) ==>
      UpdateSetting(setting, value, e1).Ok? == UpdateSetting(setting, value, e2).Ok?
    ensures Swallowed(e1) && UpdateSetting(setting, value, e1).Ok? ==>
      UpdateSetting(setting, value, None).Ok? && UpdateSetting(setting, value, e1).value.value == UpdateSetting(setting, value, None).value.value
    ensures !Swallowed(e1) ==> UpdateSetting(setting, value, e1).Err?
  {
  }

  /** A boolean is accepted exactly by the boolean settings, a string only by elementResponseAttributes. */
  lemma AcceptedValues(setting: Setting, b: bool, s: string)
    ensures UpdateSetting(setting, JBool(b), None).Ok? <==> setting.ValueType() == BooleanType
    ensures UpdateSetting(setting, JString(s), None).Ok? <==> setting == ElementResponseAttributes
    ensures UpdateSetting(setting, JInt(0), None).Err?
  {
  }
}
