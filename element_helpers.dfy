/**
 * ElementHelpers: removing duplicate UI objects from a search result, the
 * JSON object an element is reported as, and the text setText sends.
 */
module ElementHelpers {
  import opened Common
  import opened Json
  import opened AppiumResponses
  import opened Accessibility
  import opened AccessibilityNodeInfoHelper
  import opened SessionModel

  const ATTRIBUTE_PREFIX := "attribute/"

  // ---------------------------------------------------------------------
  // dedupe
  // ---------------------------------------------------------------------

  /**
   * The nodes of a list of objects: `nodeOf` is elementToNode, the node
   * identity of each object's accessibility node, None when the lookup
   * failed and answered null.
   */
  function NodesOf<T>(xs: seq<T>, nodeOf: T -> Option<int>): (ns: seq<Option<int>>)
    ensures |ns| == |xs| && forall k :: 0 <= k < |xs| ==> ns[k] == nodeOf(xs[k])
  {
    seq(|xs|, k requires 0 <= k < |xs| => nodeOf(xs[k]))
  }

  /** What dedupe keeps of the elements: each one whose node has not been seen before it, in order. */
  function DedupeSpec<T>(elements: seq<T>, nodeOf: T -> Option<int>): seq<T>
    decreases |elements|
  {
    if elements == [] then []
    else
      var kept := DedupeSpec(elements[..|elements| - 1], nodeOf);
      var e := elements[|elements| - 1];
      if nodeOf(e) in NodesOf(kept, nodeOf) then kept else kept + [e]
  }

  /** The indices of the elements DedupeSpec keeps. */
  function DedupeKept<T>(elements: seq<T>, nodeOf: T -> Option<int>): seq<nat>
    decreases |elements|
  {
    if elements == [] then []
    else
      var kept := DedupeSpec(elements[..|elements| - 1], nodeOf);
      var e := elements[|elements| - 1];
      DedupeKept(elements[..|elements| - 1], nodeOf) + (if nodeOf(e) in NodesOf(kept, nodeOf) then [] else [|elements| - 1])
  }

  /** An element is the first of its node when no element before it has the same node. */
  predicate FirstOfNode<T>(elements: seq<T>, nodeOf: T -> Option<int>, j: nat)
    requires j < |elements|
  {
    forall l :: 0 <= l < j ==> nodeOf(elements[l]) != nodeOf(elements[j])
  }

  lemma DedupeStep<T>(elements: seq<T>, nodeOf: T -> Option<int>, i: nat)
    requires i < |elements|
    ensures DedupeSpec(elements[..i + 1], nodeOf) ==
      if nodeOf(elements[i]) in NodesOf(DedupeSpec(elements[..i], nodeOf), nodeOf) then DedupeSpec(elements[..i], nodeOf)
      else DedupeSpec(elements[..i], nodeOf) + [elements[i]]
  {
    assert elements[..i + 1][..i] == elements[..i];
  }

  /**
   * dedupe: one scan, remembering the nodes seen so far, keeping an element
   * exactly when its node is new. A failed lookup counts as the null node.
   */
  method Dedupe<T>(elements: seq<T>, nodeOf: T -> Option<int>) returns (result: seq<T>)
    ensures result == DedupeSpec(elements, nodeOf)
  {
    result := [];
    var nodes: seq<Option<int>> := [];
    var i := 0;
    while i < |elements|
      invariant 0 <= i <= |elements|
      invariant result == DedupeSpec(elements[..i], nodeOf)
      invariant nodes == NodesOf(result, nodeOf)
    {
      var element := elements[i];
      var node := nodeOf(element);
      DedupeStep(elements, nodeOf, i);
      if node !in nodes {
        nodes := nodes + [node];
        result := result + [element];
      }
      i := i + 1;
    }
    assert elements[..i] == elements;
  }

  /**
   * The kept indices describe the result: they rise strictly and pick out the
   * result's elements in order, so the result is a subsequence of the input.
   */
  lemma {:induction false} DedupeKeptIndices<T>(elements: seq<T>, nodeOf: T -> Option<int>)
    ensures var r, kept := DedupeSpec(elements, nodeOf), DedupeKept(elements, nodeOf);
      && |kept| == |r|
      && (forall k :: 0 <= k < |kept| ==> kept[k] < |elements| && r[k] == elements[kept[k]])
      && (forall k1, k2 :: 0 <= k1 < k2 < |kept| ==> kept[k1] < kept[k2])
    decreases |elements|
  {
    if elements != [] {
      var n := |elements| - 1;
      DedupeKeptIndices(elements[..n], nodeOf);
      assert forall j :: 0 <= j < n ==> elements[..n][j] == elements[j];
    }
  }

  /** The kept indices are exactly those of the first element of each node. */
  lemma {:induction false} DedupeKeptFirst<T>(elements: seq<T>, nodeOf: T -> Option<int>, j: nat)
    requires j < |elements|
    ensures j in DedupeKept(elements, nodeOf) <==> FirstOfNode(elements, nodeOf, j)
    decreases |elements|
  {
    var n := |elements| - 1;
    if j < n {
      DedupeKeptFirst(elements[..n], nodeOf, j);
      FirstOfNodePrefix(elements, nodeOf, j);
      DedupeKeptPrefix(elements, nodeOf, j);
    } else {
      DedupeLastKept(elements, nodeOf);
    }
  }

  /** Being the first of its node does not depend on the elements after it. */
  lemma FirstOfNodePrefix<T>(elements: seq<T>, nodeOf: T -> Option<int>, j: nat)
    requires j < |elements| - 1
    ensures FirstOfNode(elements[..|elements| - 1], nodeOf, j) <==> FirstOfNode(elements, nodeOf, j)
  {
    var init := elements[..|elements| - 1];
    assert forall l :: 0 <= l <= j ==> init[l] == elements[l];
  }

  /** An index before the last is kept exactly when it is kept without the last element. */
  lemma DedupeKeptPrefix<T>(elements: seq<T>, nodeOf: T -> Option<int>, j: nat)
    requires j < |elements| - 1
    ensures j in DedupeKept(elements, nodeOf) <==> j in DedupeKept(elements[..|elements| - 1], nodeOf)
  {
    var n := |elements| - 1;
    var before := DedupeKept(elements[..n], nodeOf);
    assert DedupeKept(elements, nodeOf) == before
      || DedupeKept(elements, nodeOf) == before + [n];
  }

  /** The last element is kept exactly when it is the first of its node. */
  lemma DedupeLastKept<T>(elements: seq<T>, nodeOf: T -> Option<int>)
    requires elements != []
    ensures var n := |elements| - 1;
      n in DedupeKept(elements, nodeOf) <==> FirstOfNode(elements, nodeOf, n)
  {
    var n := |elements| - 1;
    var prev := DedupeSpec(elements[..n], nodeOf);
    DedupeKeptBelow(elements[..n], nodeOf);
    if nodeOf(elements[n]) in NodesOf(prev, nodeOf) {
      DedupeLastSeen(elements, nodeOf);
    } else {
      DedupeLastNew(elements, nodeOf);
    }
  }

  lemma DedupeKeptBelow<T>(elements: seq<T>, nodeOf: T -> Option<int>)
    ensures |elements| !in DedupeKept(elements, nodeOf)
  {
    DedupeKeptIndices(elements, nodeOf);
  }

  lemma DedupeLastSeen<T>(elements: seq<T>, nodeOf: T -> Option<int>)
    requires elements != []
    requires nodeOf(elements[|elements| - 1]) in NodesOf(DedupeSpec(elements[..|elements| - 1], nodeOf), nodeOf)
    ensures !FirstOfNode(elements, nodeOf, |elements| - 1)
  {
    var n := |elements| - 1;
    var init := elements[..n];
    var prev := DedupeSpec(init, nodeOf);
    var prevKept := DedupeKept(init, nodeOf);
    DedupeKeptIndices(init, nodeOf);
    var k :| 0 <= k < |prev| && NodesOf(prev, nodeOf)[k] == nodeOf(elements[n]);
    assert prev[k] == init[prevKept[k]] == elements[prevKept[k]];
  }

  lemma DedupeLastNew<T>(elements: seq<T>, nodeOf: T -> Option<int>)
    requires elements != []
    requires nodeOf(elements[|elements| - 1]) !in NodesOf(DedupeSpec(elements[..|elements| - 1], nodeOf), nodeOf)
    ensures FirstOfNode(elements, nodeOf, |elements| - 1)
  {
    var n := |elements| - 1;
    var init := elements[..n];
    DedupeCovers(init, nodeOf);
    forall l | 0 <= l < n
      ensures nodeOf(elements[l]) != nodeOf(elements[n])
    {
      assert elements[l] == init[l];
    }
  }

  /** Every node of the input is the node of some kept element, and the kept elements' nodes are pairwise distinct. */
  lemma {:induction false} DedupeCovers<T>(elements: seq<T>, nodeOf: T -> Option<int>)
    ensures var ns := NodesOf(DedupeSpec(elements, nodeOf), nodeOf);
      && (forall j :: 0 <= j < |elements| ==> nodeOf(elements[j]) in ns)
      && (forall k1, k2 :: 0 <= k1 < k2 < |ns| ==> ns[k1] != ns[k2])
    decreases |elements|
  {
    if elements != [] {
      var n := |elements| - 1;
      var init := elements[..n];
      DedupeCovers(init, nodeOf);
      assert forall j :: 0 <= j < n ==> init[j] == elements[j];
      var prev := DedupeSpec(init, nodeOf);
      var e := elements[n];
      if nodeOf(e) !in NodesOf(prev, nodeOf) {
        assert NodesOf(prev + [e], nodeOf) == NodesOf(prev, nodeOf) + [nodeOf(e)];
      }
    }
  }

  /** A list whose nodes are already distinct is kept whole. */
  lemma {:induction false} DedupeDistinct<T>(elements: seq<T>, nodeOf: T -> Option<int>)
    requires forall k1, k2 :: 0 <= k1 < k2 < |elements| ==> nodeOf(elements[k1]) != nodeOf(elements[k2])
    ensures DedupeSpec(elements, nodeOf) == elements
    decreases |elements|
  {
    if elements != [] {
      var n := |elements| - 1;
      var init := elements[..n];
      DedupeDistinct(init, nodeOf);
      assert NodesOf(init, nodeOf)[..] == NodesOf(init, nodeOf);
      assert nodeOf(elements[n]) !in NodesOf(init, nodeOf) by {
        forall k | 0 <= k < n
          ensures NodesOf(init, nodeOf)[k] != nodeOf(elements[n])
        {
          assert init[k] == elements[k];
        }
      }
      assert init + [elements[n]] == elements;
    }
  }

  /** Removing duplicates twice is removing them once. */
  lemma DedupeIdempotent<T>(elements: seq<T>, nodeOf: T -> Option<int>)
    ensures DedupeSpec(DedupeSpec(elements, nodeOf), nodeOf) == DedupeSpec(elements, nodeOf)
  {
    var r := DedupeSpec(elements, nodeOf);
    DedupeCovers(elements, nodeOf);
    assert forall k1, k2 :: 0 <= k1 < k2 < |r| ==> NodesOf(r, nodeOf)[k1] != NodesOf(r, nodeOf)[k2];
    DedupeDistinct(r, nodeOf);
  }

  // ---------------------------------------------------------------------
  // toJSON
  // ---------------------------------------------------------------------

  /** What getElementAttributeValue does for one attribute name. */
  datatype AttributeOutcome =
    | Found(value: Option<string>)   // the attribute's value, possibly null
    | NotAvailable                   // ReflectiveOperationException or NoAttributeFoundException
    | Failed(error: Throwable)       // any other exception, UiObjectNotFoundException above all

  /**
   * What toJSON reads of an element: its id, its content description and
   * text (either of which may fail with the object gone), its rect as JSON,
   * and the attribute lookup of GetElementAttribute.
   */
  datatype ElementView = ElementView(
    id: string,
    contentDesc: Result<Option<string>, Throwable>,
    text: Result<Option<string>, Throwable>,
    rect: Result<JValue, Throwable>,
    attribute: string -> AttributeOutcome)

  /** How one requested field is handled. */
  datatype FieldOutcome = Put(value: JValue) | Skip | Fail(error: Throwable)

  /** putNullable of a string: null becomes JSONObject.NULL. */
  function Nullable(v: Option<string>): (j: JValue)
    ensures v.None? ==> j == JNull
    ensures v.Some? ==> j == JString(v.value)
  {
    FormatNull(if v.Some? then Some(JString(v.value)) else None)
  }

  function FromAttribute(a: AttributeOutcome): FieldOutcome
  {
    match a
    case Found(v) => Put(Nullable(v))
    case NotAvailable => Skip
    case Failed(e) => Fail(e)
  }

  /**
   * The field dispatch: name, text and rect read the element; enabled,
   * displayed and selected, and `attribute/X` for attribute X, go through the
   * attribute lookup; any other field is ignored.
   */
  function FieldValue(el: ElementView, field: string): (r: FieldOutcome)
    ensures field == "name" ==> r == (if el.contentDesc.Ok? then Put(Nullable(el.contentDesc.value)) else Fail(el.contentDesc.error))
    ensures field == "text" ==> r == (if el.text.Ok? then Put(Nullable(el.text.value)) else Fail(el.text.error))
    ensures field in ["enabled", "displayed", "selected"] ==> r == FromAttribute(el.attribute(field))
    ensures field !in ["name", "text", "rect", "enabled", "displayed", "selected"] && StartsWith(field, ATTRIBUTE_PREFIX) ==>
      r == FromAttribute(el.attribute(field[|ATTRIBUTE_PREFIX|..]))
    ensures field !in ["name", "text", "rect", "enabled", "displayed", "selected"] && !StartsWith(field, ATTRIBUTE_PREFIX) ==>
      r == Skip
  {
    if field == "name" then
      (match el.contentDesc case Ok(v) => Put(Nullable(v)) case Err(e) => Fail(e))
    else if field == "text" then
      (match el.text case Ok(v) => Put(Nullable(v)) case Err(e) => Fail(e))
    else if field == "rect" then
      (match el.rect case Ok(v) => Put(v) case Err(e) => Fail(e))
    else if field == "enabled" || field == "displayed" || field == "selected" then
      FromAttribute(el.attribute(field))
    else if StartsWith(field, ATTRIBUTE_PREFIX) then
      FromAttribute(el.attribute(field[|ATTRIBUTE_PREFIX|..]))
    else Skip
  }

  /** The members after putting the remaining fields in order; the first failing field ends it. */
  function PutFields(members: seq<(string, JValue)>, el: ElementView, fields: seq<string>): Result<seq<(string, JValue)>, Throwable>
    decreases |fields|
  {
    if fields == [] then Ok(members)
    else
      match FieldValue(el, fields[0])
      case Fail(e) => Err(e)
      case Skip => PutFields(members, el, fields[1..])
      case Put(v) => PutFields(Update(members, fields[0], v), el, fields[1..])
  }

  /**
   * The object toJSON builds: {"ELEMENT": id} in compact mode, and otherwise
   * that with each requested field put in turn.
   */
  function ToJsonSpec(el: ElementView, capabilities: map<string, JValue>): Result<seq<(string, JValue)>, Throwable>
  {
    var start := Update([], "ELEMENT", JString(el.id));
    if CompactResponses(capabilities) then Ok(start)
    else
      match ResponseAttributes(capabilities)
      case Err(e) => Err(e)
      case Ok(fields) => PutFields(start, el, fields)
  }

  lemma PutFieldsStep(members: seq<(string, JValue)>, el: ElementView, fields: seq<string>, i: nat)
    requires i < |fields|
    ensures FieldValue(el, fields[i]).Fail? ==> PutFields(members, el, fields[i..]) == Err(FieldValue(el, fields[i]).error)
    ensures FieldValue(el, fields[i]).Skip? ==> PutFields(members, el, fields[i..]) == PutFields(members, el, fields[i + 1..])
    ensures FieldValue(el, fields[i]).Put? ==>
      PutFields(members, el, fields[i..]) == PutFields(Update(members, fields[i], FieldValue(el, fields[i]).value), el, fields[i + 1..])
  {
    assert fields[i..][1..] == fields[i + 1..];
  }

  /** toJSON, over the session's capabilities. */
  method ToJson(el: ElementView, capabilities: map<string, JValue>) returns (r: Result<JValue, Throwable>)
    ensures r.Ok? <==> ToJsonSpec(el, capabilities).Ok?
    ensures r.Ok? ==> r.value == JObject(ToJsonSpec(el, capabilities).value)
    ensures r.Err? ==> r.error == ToJsonSpec(el, capabilities).error
  {
    var jsonObject := new JsonObject();
    jsonObject.Put("ELEMENT", JString(el.id));
    if CompactResponses(capabilities) {
      return Ok(JObject(jsonObject.members));
    }
    var attributes := ResponseAttributes(capabilities);
    if attributes.Err? {
      return Err(attributes.error);
    }
    var fields := attributes.value;
    var i := 0;
    while i < |fields|
      invariant 0 <= i <= |fields|
      invariant PutFields(jsonObject.members, el, fields[i..]) == ToJsonSpec(el, capabilities)
    {
      var field := fields[i];
      PutFieldsStep(jsonObject.members, el, fields, i);
      var outcome := FieldValue(el, field);
      if outcome.Fail? {
        return Err(outcome.error);
      }
      if outcome.Put? {
        jsonObject.Put(field, outcome.value);
      }
      i := i + 1;
    }
    return Ok(JObject(jsonObject.members));
  }

  /** ELEMENT is not a field the dispatch handles, so the id is never overwritten, even when ELEMENT is requested. */
  lemma {:induction false} PutFieldsKeepsElement(members: seq<(string, JValue)>, el: ElementView, fields: seq<string>, id: string)
    requires Get(members, "ELEMENT") == Some(JString(id))
    ensures PutFields(members, el, fields).Ok? ==> Get(PutFields(members, el, fields).value, "ELEMENT") == Some(JString(id))
    decreases |fields|
  {
    if fields != [] {
      match FieldValue(el, fields[0])
      case Fail(_) =>
      case Skip =>
        PutFieldsKeepsElement(members, el, fields[1..], id);
      case Put(v) =>
        assert fields[0] != "ELEMENT" by {
          assert FieldValue(el, "ELEMENT") == Skip;
        }
        GetUpdate(members, fields[0], v, "ELEMENT");
        PutFieldsKeepsElement(Update(members, fields[0], v), el, fields[1..], id);
    }
  }

  /** Only handled fields become keys: the keys are the initial ones plus requested fields whose dispatch puts a value. */
  lemma {:induction false} PutFieldsKeys(members: seq<(string, JValue)>, el: ElementView, fields: seq<string>, key: string)
    requires key !in Keys(members) && (forall k :: 0 <= k < |fields| && fields[k] == key ==> FieldValue(el, key) == Skip)
    ensures PutFields(members, el, fields).Ok? ==> key !in Keys(PutFields(members, el, fields).value)
    decreases |fields|
  {
    if fields != [] {
      match FieldValue(el, fields[0])
      case Fail(_) =>
      case Skip =>
        PutFieldsKeys(members, el, fields[1..], key);
      case Put(v) =>
        assert fields[0] != key;
        PutFieldsKeys(Update(members, fields[0], v), el, fields[1..], key);
    }
  }

  /**
   * toJSON always reports the element id under ELEMENT; in compact mode it is
   * the only key; and a requested field the dispatch ignores never appears.
   */
  lemma ToJsonShape(el: ElementView, capabilities: map<string, JValue>, ignored: string)
    requires ignored != "ELEMENT" && FieldValue(el, ignored) == Skip
    ensures var r := ToJsonSpec(el, capabilities);
      && (r.Ok? ==> Get(r.value, "ELEMENT") == Some(JString(el.id)) && ignored !in Keys(r.value))
      && (CompactResponses(capabilities) ==> r == Ok([("ELEMENT", JString(el.id))]))
  {
    var start := Update([], "ELEMENT", JString(el.id));
    GetUpdate([], "ELEMENT", JString(el.id), "ELEMENT");
    if !CompactResponses(capabilities) && ResponseAttributes(capabilities).Ok? {
      var fields := ResponseAttributes(capabilities).value;
      PutFieldsKeepsElement(start, el, fields, el.id);
      PutFieldsKeys(start, el, fields, ignored);
    }
  }

  /** In non-compact mode a requested name or text field carries the content description or the text, null as JSON null. */
  lemma ToJsonNameAndText(el: ElementView, capabilities: map<string, JValue>)
    requires !CompactResponses(capabilities) && ResponseAttributes(capabilities) == Ok(["name", "text"])
    requires el.contentDesc.Ok? && el.text.Ok?
    ensures ToJsonSpec(el, capabilities) ==
      Ok([("ELEMENT", JString(el.id)), ("name", Nullable(el.contentDesc.value)), ("text", Nullable(el.text.value))])
  {
    assert "name" != "ELEMENT" && "text" != "ELEMENT" && "name"[0] != "text"[0];
    assert FieldValue(el, "name") == Put(Nullable(el.contentDesc.value));
    assert FieldValue(el, "text") == Put(Nullable(el.text.value));
    ToJsonSpecFields(el, capabilities, ["name", "text"]);
    PutTwoAfterElement(el, "name", "text");
  }

  /** Two distinct fields, both put, follow ELEMENT in the order requested. */
  lemma PutTwoAfterElement(el: ElementView, first: string, second: string)
    requires FieldValue(el, first).Put? && FieldValue(el, second).Put?
    requires first != second && first != "ELEMENT" && second != "ELEMENT"
    ensures PutFields([("ELEMENT", JString(el.id))], el, [first, second]) ==
      Ok([("ELEMENT", JString(el.id)), (first, FieldValue(el, first).value), (second, FieldValue(el, second).value)])
  {
    var start := [("ELEMENT", JString(el.id))];
    assert Keys(start) == ["ELEMENT"];
    PutTwoFresh(start, el, first, second);
    assert start + [(first, FieldValue(el, first).value), (second, FieldValue(el, second).value)]
      == [("ELEMENT", JString(el.id)), (first, FieldValue(el, first).value), (second, FieldValue(el, second).value)];
  }

  /** Outside compact mode, the requested fields are put after ELEMENT, the only key at first. */
  lemma ToJsonSpecFields(el: ElementView, capabilities: map<string, JValue>, fields: seq<string>)
    requires !CompactResponses(capabilities) && ResponseAttributes(capabilities) == Ok(fields)
    ensures ToJsonSpec(el, capabilities) == PutFields([("ELEMENT", JString(el.id))], el, fields)
  {
    assert Update([], "ELEMENT", JString(el.id)) == [("ELEMENT", JString(el.id))];
  }

  /** Putting two distinct fields that are not yet keys appends both, in order. */
  lemma PutTwoFresh(members: seq<(string, JValue)>, el: ElementView, first: string, second: string)
    requires FieldValue(el, first).Put? && FieldValue(el, second).Put?
    requires first != second && first !in Keys(members) && second !in Keys(members)
    ensures PutFields(members, el, [first, second])
      == Ok(members + [(first, FieldValue(el, first).value), (second, FieldValue(el, second).value)])
  {
    var v1, v2 := FieldValue(el, first).value, FieldValue(el, second).value;
    var m1 := members + [(first, v1)];
    UpdateAppends(members, first, v1);
    assert [first, second][1..] == [second];
    assert PutFields(members, el, [first, second]) == PutFields(m1, el, [second]);
    assert Keys(m1) == Keys(members) + [first];
    UpdateAppends(m1, second, v2);
    assert [second][1..] == [];
    assert PutFields(m1, el, [second]) == PutFields(m1 + [(second, v2)], el, []);
    assert m1 + [(second, v2)] == members + [(first, v1), (second, v2)];
  }

  // ---------------------------------------------------------------------
  // setText
  // ---------------------------------------------------------------------

  const NULL_POINTER: Throwable := Other("java.lang.NullPointerException", None)

  /**
   * The environment of one setText call: the SDK level, Float.parseFloat on
   * a non-null string (None for NumberFormatException), the Unicode encoder,
   * and what the two performAction calls answer.
   */
  datatype Device = Device(
    sdk: int,
    parseFloat: string -> Option<real>,
    needsEncoding: string -> bool,
    encode: string -> string,
    progressPerformed: bool,
    setTextPerformed: bool)

  /** What setText did: the value it answered and the text it sent with ACTION_SET_TEXT, if it got that far. */
  datatype SetTextOutcome = SetTextOutcome(result: bool, sentText: Option<string>)

  /** The text ACTION_SET_TEXT carries: truncated below API 24, then encoded when a Unicode keyboard needs it. */
  function PrepareText(node: NodeInfo, textToSend: string, unicodeKeyboard: bool, device: Device): (r: string)
    ensures device.sdk >= 24 && !(unicodeKeyboard && device.needsEncoding(textToSend)) ==> r == textToSend
    ensures device.sdk < 24 && !unicodeKeyboard ==> r == TruncateTextToMaxLength(node, textToSend)
  {
    var truncated := if device.sdk < 24 then TruncateTextToMaxLength(node, textToSend) else textToSend;
    if unicodeKeyboard && device.needsEncoding(truncated) then device.encode(truncated) else truncated
  }

  /** The progress attempt on a Float, and the fallback to ACTION_SET_TEXT when it did not succeed. */
  function SetTextFrom(node: NodeInfo, parsed: Option<real>, textToSend: string, unicodeKeyboard: bool, device: Device): SetTextOutcome
  {
    if parsed.Some? && SetProgressValue(node, parsed.value, device.progressPerformed) then SetTextOutcome(true, None)
    else SetTextOutcome(device.setTextPerformed, Some(PrepareText(node, textToSend, unicodeKeyboard, device)))
  }

  /**
   * setText as written: a null text becomes "" for sending, but on a range
   * element from API 24 on it is the original text that is parsed, and
   * Float.parseFloat(null) throws a NullPointerException, which the catch of
   * NumberFormatException does not stop.
   */
  function SetTextAsWritten(node: Option<NodeInfo>, text: Option<string>, unicodeKeyboard: bool, device: Device)
    : (r: Result<SetTextOutcome, Throwable>)
    ensures r == Err(NULL_POINTER) <==> node.Some? && node.value.rangeInfo.Some? && device.sdk >= 24 && text.None?
    ensures r != Err(NULL_POINTER) ==> r == SetText(node, text, unicodeKeyboard, device)
  {
    var textToSend := if text.Some? then text.value else "";
    if node.None? then Err(UiAutomator2(ElementNotFound, None))
    else if node.value.rangeInfo.Some? && device.sdk >= 24 then
      if text.None? then Err(NULL_POINTER)
      else Ok(SetTextFrom(node.value, device.parseFloat(text.value), textToSend, unicodeKeyboard, device))
    else Ok(SetTextFrom(node.value, None, textToSend, unicodeKeyboard, device))
  }

  /** setText as intended: the text parsed is the one to send, so null clears the field here too. */
  function SetText(node: Option<NodeInfo>, text: Option<string>, unicodeKeyboard: bool, device: Device): (r: Result<SetTextOutcome, Throwable>)
    ensures r.Err? <==> node.None?
    ensures r.Err? ==> r.error == UiAutomator2(ElementNotFound, None)
    ensures r.Ok? && r.value.sentText.None? ==> r.value.result && node.value.canSetProgress
  {
    var textToSend := if text.Some? then text.value else "";
    if node.None? then Err(UiAutomator2(ElementNotFound, None))
    else if node.value.rangeInfo.Some? && device.sdk >= 24 then
      Ok(SetTextFrom(node.value, device.parseFloat(textToSend), textToSend, unicodeKeyboard, device))
    else Ok(SetTextFrom(node.value, None, textToSend, unicodeKeyboard, device))
  }

  /** The input that shows the defect: clearing a range element on API 24 raises NullPointerException. */
  lemma SetTextNullCounterexample(node: NodeInfo, unicodeKeyboard: bool, device: Device)
    requires node.rangeInfo.Some? && device.sdk >= 24
    ensures SetTextAsWritten(Some(node), None, unicodeKeyboard, device) == Err(NULL_POINTER)
    ensures device.parseFloat("") == None ==>
      SetText(Some(node), None, unicodeKeyboard, device) == Ok(SetTextOutcome(device.setTextPerformed, Some(PrepareText(node, "", unicodeKeyboard, device))))
  {
  }

  /**
   * The intended behaviour: setText(null) is setText("") on every node and
   * device, as Float.parseFloat("") fails; and apart from null text the two
   * versions agree.
   */
  lemma SetTextNullClears(node: Option<NodeInfo>, unicodeKeyboard: bool, device: Device, text: string)
    requires device.parseFloat("") == None
    ensures SetText(node, None, unicodeKeyboard, device) == SetText(node, Some(""), unicodeKeyboard, device)
    ensures SetText(node, Some(text), unicodeKeyboard, device) == SetTextAsWritten(node, Some(text), unicodeKeyboard, device)
  {
  }
}
