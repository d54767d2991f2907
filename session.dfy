/**
 * A session: its id, its capability map (which settings updates write
 * too), the scroll data of the last scroll event, and its known-element cache.
 */
module SessionModel {
  import opened Common
  import opened Json
  import opened AppiumResponses
  import opened KnownElementsCache

  const SHOULD_USE_COMPACT_RESPONSES := "shouldUseCompactResponses"
  const ELEMENT_RESPONSE_ATTRIBUTES := "elementResponseAttributes"
  const DEFAULT_RESPONSE_ATTRIBUTES: seq<string> := ["name", "text"]
  const CLASS_CAST := Other("java.lang.ClassCastException", None)

  /** AccessibilityScrollData: the numbers of the last TYPE_VIEW_SCROLLED event. */
  datatype ScrollData = ScrollData(scrollX: int, maxScrollX: int, scrollY: int, maxScrollY: int,
                                   fromIndex: int, toIndex: int, itemCount: int)

  /**
   * shouldUseCompactResponses: true when the capability is absent, and
   * otherwise exactly when its string form is "true", ignoring case.
   */
  function CompactResponses(capabilities: map<string, JValue>): (r: bool)
    ensures SHOULD_USE_COMPACT_RESPONSES !in capabilities ==> r
    ensures SHOULD_USE_COMPACT_RESPONSES in capabilities ==>
      (r <==> EqualsIgnoreCase(ValueOf(capabilities[SHOULD_USE_COMPACT_RESPONSES]), "true"))
  {
    SHOULD_USE_COMPACT_RESPONSES !in capabilities
    || EqualsIgnoreCase(ValueOf(capabilities[SHOULD_USE_COMPACT_RESPONSES]), "true")
  }

  /**
   * getElementResponseAttributes: ["name", "text"] when the capability is
   * absent or blank after trimming; otherwise the value split on ",", with
   * trailing empty names dropped. A value that is not a string fails the
   * cast to String.
   */
  function ResponseAttributes(capabilities: map<string, JValue>): (r: Result<seq<string>, Throwable>)
    ensures ELEMENT_RESPONSE_ATTRIBUTES !in capabilities ==> r == Ok(DEFAULT_RESPONSE_ATTRIBUTES)
    ensures ELEMENT_RESPONSE_ATTRIBUTES in capabilities ==>
      match capabilities[ELEMENT_RESPONSE_ATTRIBUTES]
      case JString(s) =>
        if Trim(s) == [] then r == Ok(DEFAULT_RESPONSE_ATTRIBUTES)
        else r.Ok? && (forall k, j :: 0 <= k < |r.value| && 0 <= j < |r.value[k]| ==> r.value[k][j] != ',')
             && (',' !in s ==> r.value == [s])
             && (',' in s ==> |r.value| <= |Pieces(s, ',')| && r.value == Pieces(s, ',')[..|r.value|])
      case _ => r == Err(CLASS_CAST)
  {
    var v := if ELEMENT_RESPONSE_ATTRIBUTES in capabilities then capabilities[ELEMENT_RESPONSE_ATTRIBUTES] else JString("");
    if !v.JString? then Err(CLASS_CAST)
    else if Trim(v.s) == [] then Ok(DEFAULT_RESPONSE_ATTRIBUTES)
    else Ok(Split(v.s, ','))
  }

  class Session {
    const sessionId: string
    var capabilities: map<string, JValue>
    var lastScrollData: Option<ScrollData>
    const knownElements: KnownElements

    /** The given capabilities are copied in; there is no scroll data yet and the element cache is empty. */
    constructor (sessionId: string, capabilities: map<string, JValue>)
      ensures this.sessionId == sessionId && this.capabilities == capabilities
      ensures lastScrollData.None? && fresh(knownElements) && knownElements.cache == map[]
    {
      this.sessionId := sessionId;
      this.capabilities := capabilities;
      lastScrollData := None;
      knownElements := new KnownElements();
    }

    /** setCapability: stores the value and returns it; every other capability is kept. */
    method SetCapability(name: string, value: JValue) returns (r: JValue)
      modifies this
      ensures capabilities == old(capabilities)[name := value] && r == value
      ensures lastScrollData == old(lastScrollData)
    {
      capabilities := capabilities[name := value];
      return value;
    }

    /** getCapability(name): the stored value, or null. */
    function GetCapability(name: string): (r: Option<JValue>)
      reads this
      ensures r.Some? <==> name in capabilities
      ensures r.Some? ==> r.value == capabilities[name]
    {
      if name in capabilities then Some(capabilities[name]) else None
    }

    /** getCapability(name, default): the stored value, or the default exactly when there is none. */
    function GetCapabilityOr(name: string, defaultValue: JValue): (r: JValue)
      reads this
      ensures name !in capabilities ==> r == defaultValue
      ensures name in capabilities ==> r == capabilities[name]
    {
      if HasCapability(name) then capabilities[name] else defaultValue
    }

    predicate HasCapability(name: string)
      reads this
    {
      name in capabilities
    }

    /** getCapabilities: a read-only view, modelled as the map value itself. */
    function GetCapabilities(): map<string, JValue>
      reads this
    {
      capabilities
    }

    function ShouldUseCompactResponses(): bool
      reads this
    {
      CompactResponses(capabilities)
    }

    function GetElementResponseAttributes(): Result<seq<string>, Throwable>
      reads this
    {
      ResponseAttributes(capabilities)
    }

    method SetLastScrollData(scrollData: Option<ScrollData>)
      modifies this
      ensures lastScrollData == scrollData && capabilities == old(capabilities)
    {
      lastScrollData := scrollData;
    }

    function GetLastScrollData(): Option<ScrollData>
      reads this
    {
      lastScrollData
    }
  }

  /** Storing a capability and reading it back gives the value stored; the default is then no longer used. */
  method SetThenGet(s: Session, name: string, value: JValue, defaultValue: JValue)
    modifies s
    ensures s.GetCapability(name) == Some(value) && s.HasCapability(name)
    ensures s.GetCapabilityOr(name, defaultValue) == value
  {
    var _ := s.SetCapability(name, value);
  }

  /** Setting the compact-responses setting to a boolean makes the query answer that boolean. */
  lemma CompactFollowsSetting(capabilities: map<string, JValue>, b: bool)
    ensures CompactResponses(capabilities[SHOULD_USE_COMPACT_RESPONSES := JBool(b)]) == b
  {
    if !b {
      assert LowerAscii('f') != LowerAscii('t');
      assert !EqualsIgnoreCase("false", "true");
    }
  }

  /** A blank attribute list, however much blank it holds, falls back to name and text. */
  lemma BlankAttributesDefault(capabilities: map<string, JValue>, s: string)
    requires forall i :: 0 <= i < |s| ==> s[i] <= ' '
    ensures ResponseAttributes(capabilities[ELEMENT_RESPONSE_ATTRIBUTES := JString(s)]) == Ok(DEFAULT_RESPONSE_ATTRIBUTES)
  {
    TrimAllSpace(s);
  }

  lemma TrimAllSpace(s: string)
    requires forall i :: 0 <= i < |s| ==> s[i] <= ' '
    ensures Trim(s) == []
  {
    assert TrimStart(s) == [];
  }
}
