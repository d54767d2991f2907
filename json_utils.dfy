/**
 * JSONUtils.readInteger: reading an int parameter out of a request payload,
 * where a number may arrive as an Integer, a Long or a numeric string.
 */
module JsonUtils {
  import opened Common
  import opened Json
  import opened AppiumResponses

  function IllegalArgument(message: string): Throwable
  {
    Other("java.lang.IllegalArgumentException", Some(message))
  }

  function NumberFormat(s: string): Throwable
  {
    Other("java.lang.NumberFormatException", Some("For input string: \"" + s + "\""))
  }

  /**
   * readInteger(payload, name, isRequired): a missing key, or a value of any
   * other type, is an IllegalArgumentException when the parameter is required
   * and null otherwise; an Integer is returned as it is, a Long is narrowed
   * to its low 32 bits, and a string is parsed, failing on non-numeric text.
   */
  function ReadInteger(payload: seq<(string, JValue)>, name: string, isRequired: bool): (r: Result<Option<int>, Throwable>)
    ensures !Has(payload, name) ==>
      r == (if isRequired then Err(IllegalArgument("'" + name + "' parameter is mandatory")) else Ok(None))
    ensures Has(payload, name) ==>
      match Get(payload, name).value
      case JInt(i) => r == Ok(Some(i))
      case JLong(l) => r == Ok(Some(ToInt32(l)))
      case JString(s) => (r.Ok? <==> ParseInt(s).Some?) && (r.Ok? ==> r == Ok(ParseInt(s)))
                         && (r.Err? ==> r.error == NumberFormat(s))
      case _ => if isRequired then r.Err? && r.error.Other? && r.error.className == "java.lang.IllegalArgumentException"
                else r == Ok(None)
    ensures r.Ok? && r.value.Some? ==> IsInt32(r.value.value) || Get(payload, name).value.JInt?
  {
    if !Has(payload, name) then
      if isRequired then Err(IllegalArgument("'" + name + "' parameter is mandatory")) else Ok(None)
    else
      var objValue := Get(payload, name).value;
      match objValue
      case JInt(i) => Ok(Some(i))
      case JLong(l) => Ok(Some(ToInt32(l)))
      case JString(s) => if ParseInt(s).Some? then Ok(ParseInt(s)) else Err(NumberFormat(s))
      case _ =>
        if isRequired then
          Err(IllegalArgument("'" + name + "' parameter should be a valid integer number. '" + Text(objValue) + "' is given instead"))
        else Ok(None)
  }

  /** readInteger(payload, name): the required form, which never answers null. */
  function ReadRequiredInteger(payload: seq<(string, JValue)>, name: string): (r: Result<int, Throwable>)
    ensures r.Ok? <==> ReadInteger(payload, name, true).Ok?
    ensures r.Ok? ==> ReadInteger(payload, name, true) == Ok(Some(r.value))
  {
    match ReadInteger(payload, name, true)
    case Err(e) => Err(e)
    case Ok(v) => if v.Some? then Ok(v.value) else assert false; Err(IllegalArgument(name))
  }

  /** Required and optional reads agree whenever the optional one finds a number; they differ only on the refusals. */
  lemma RequiredRefinesOptional(payload: seq<(string, JValue)>, name: string)
    ensures ReadInteger(payload, name, false).Ok? && ReadInteger(payload, name, false).value.Some? ==>
      ReadInteger(payload, name, true) == ReadInteger(payload, name, false)
    ensures ReadInteger(payload, name, false) == Ok(None) ==> ReadInteger(payload, name, true).Err?
    ensures ReadInteger(payload, name, true).Err? ==>
      ReadInteger(payload, name, false) == Ok(None) || ReadInteger(payload, name, false) == ReadInteger(payload, name, true)
  {
  }

  /** An int written as its decimal string reads back as that int. */
  lemma ReadIntegerString(payload: seq<(string, JValue)>, name: string, n: int, isRequired: bool)
    requires IsInt32(n) && Get(payload, name) == Some(JString(IntToString(n)))
    ensures ReadInteger(payload, name, isRequired) == Ok(Some(n))
  {
    ParseIntToString(n);
  }
}
