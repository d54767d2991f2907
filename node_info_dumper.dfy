/**
 * The page-source dumper (AccessibilityNodeInfoDumper): it rebuilds the
 * snapshot tree, serializes it as XML events (start tag, attributes, end tag)
 * in pre-order, optionally numbering every serialized element with
 * `uiElementIndex` and remembering it in a mapping, and answers XPath queries
 * by looking those numbers up.
 *
 * The XML text the serializer renders, the temporary file and the XPath engine
 * stay outside: the engine is a parameter that, given the selector and the
 * events, returns the `uiElementIndex` values it matched.
 */
module AccessibilityNodeInfoDumper {
  import opened Common
  import opened Accessibility
  import opened XMLHelpers
  import opened UiAutomationElement
  import AccessibilityNodeInfoHelpers

  const MAX_DEPTH := 70
  const UI_ELEMENT_INDEX := "uiElementIndex"
  const NON_XML_CHAR_REPLACEMENT := "?"

  datatype XmlEvent = StartTag(name: string) | Attr(name: string, value: string) | EndTag(tag: string)

  /** What addDisplayInfo reads from the default display. */
  datatype DisplayInfo = DisplayInfo(rotation: int, width: int, height: int)

  /**
   * The exceptions of findNodes: the XPath compiler's refusal, Integer.parseInt
   * on an index, and the IllegalArgumentException of building the snapshot tree.
   */
  datatype DumperError = InvalidSelector | NumberFormat | IllegalArgument

  // ---------------------------------------------------------------------
  // toXmlNodeName
  // ---------------------------------------------------------------------

  /** The three rewrites toXmlNodeName applies before toNodeName. */
  function PreRewrite(className: string): string
  {
    StripEdgeDots(CollapseDots(ReplaceRenamed(className)))
  }

  /** toXmlNodeName: the class name rewritten for use as a tag name. */
  function ToXmlNodeName(className: Option<string>): string
  {
    if className.None? || IsBlank(className.value) then DEFAULT_VIEW_CLASS_NAME
    else
      var fixedName := ToNodeName(Some(PreRewrite(className.value)));
      if IsBlank(fixedName) then DEFAULT_VIEW_CLASS_NAME else fixedName
  }

  /**
   * toXmlNodeName gives android.view.View for a blank or null class name, or
   * for one that is blank after rewriting; every name it gives satisfies all
   * the rules of toNodeName.
   */
  lemma ToXmlNodeNameGood(className: Option<string>)
    ensures className.None? || IsBlank(className.value) ==> ToXmlNodeName(className) == DEFAULT_VIEW_CLASS_NAME
    ensures GoodNodeName(ToXmlNodeName(className))
  {
    NodeNameGood(if className.None? then None else Some(PreRewrite(className.value)));
    DefaultNameGood();
  }

  // ---------------------------------------------------------------------
  // serializeUiElement as a specification
  // ---------------------------------------------------------------------

  /** No element attribute is named like the index or the display attributes. */
  lemma AttributeNameReserved(a: Attribute)
    ensures a.Name() != UI_ELEMENT_INDEX && a.Name() != "rotation"
  {
  }

  lemma SafeXmlLegal(s: string)
    ensures AllXmlChars(SafeXml(s, NON_XML_CHAR_REPLACEMENT))
  {
    assert AllXmlChars(NON_XML_CHAR_REPLACEMENT);
  }

  /** The event for one attribute: its name and its value made XML-safe with `?`. */
  function AttrEvent(attr: Attribute, value: AValue): XmlEvent
  {
    Attr(attr.Name(), SafeXml(ValueText(value), NON_XML_CHAR_REPLACEMENT))
  }

  /** The attribute events for the attributes before position i of AllAttributes. */
  function AttrEventsUpTo(e: UiElement, exposable: set<Attribute>, i: nat): seq<XmlEvent>
    requires i <= |AllAttributes|
  {
    if i == 0 then []
    else AttrEventsUpTo(e, exposable, i - 1) + AttrTail(e, exposable, AllAttributes[i - 1])
  }

  /** The event for one attribute, when it is exposable and not null. */
  function AttrTail(e: UiElement, exposable: set<Attribute>, attr: Attribute): seq<XmlEvent>
  {
    if attr in exposable && attr in e.attributes then [AttrEvent(attr, e.attributes[attr])] else []
  }

  /** An attribute event with only legal XML characters, never named like the index or the display info. */
  predicate PlainAttr(ev: XmlEvent)
  {
    ev.Attr? && AllXmlChars(ev.value) && ev.name != UI_ELEMENT_INDEX && ev.name != "rotation"
  }

  predicate AllPlain(events: seq<XmlEvent>)
  {
    forall k :: 0 <= k < |events| ==> PlainAttr(events[k])
  }

  lemma AttrTailPlain(e: UiElement, exposable: set<Attribute>, attr: Attribute)
    ensures AllPlain(AttrTail(e, exposable, attr))
  {
    if attr in exposable && attr in e.attributes {
      AttributeNameReserved(attr);
      SafeXmlLegal(ValueText(e.attributes[attr]));
    }
  }

  /**
   * Every attribute event is an attribute whose value holds only legal XML
   * characters (the others replaced by `?`); no element attribute is named
   * like the index or the display info.
   */
  lemma {:induction false} AttrEventsPlain(e: UiElement, exposable: set<Attribute>, i: nat)
    requires i <= |AllAttributes|
    ensures AllPlain(AttrEventsUpTo(e, exposable, i))
  {
    if i > 0 {
      AttrEventsPlain(e, exposable, i - 1);
      AttrTailPlain(e, exposable, AllAttributes[i - 1]);
      var a := AttrEventsUpTo(e, exposable, i - 1);
      var t := AttrTail(e, exposable, AllAttributes[i - 1]);
      assert forall k :: 0 <= k < |a + t| ==> (a + t)[k] == if k < |a| then a[k] else t[k - |a|];
    }
  }

  /** The attributes of an element that are exposable and not null, with XML-safe values. */
  function AttrEvents(e: UiElement, exposable: set<Attribute>): seq<XmlEvent>
  {
    AttrEventsUpTo(e, exposable, |AllAttributes|)
  }

  function DisplayEvents(display: DisplayInfo): seq<XmlEvent>
  {
    [Attr("rotation", IntToString(display.rotation)), Attr("width", IntToString(display.width)),
     Attr("height", IntToString(display.height))]
  }

  function IndexEvents(base: Option<int>): seq<XmlEvent>
  {
    if base.Some? then [Attr(UI_ELEMENT_INDEX, IntToString(base.value))] else []
  }

  function Offset(base: Option<int>, k: int): Option<int>
  {
    if base.Some? then Some(base.value + k) else None
  }

  /** Whether serializeUiElement descends into the children of an element at this depth. */
  predicate Descends(e: UiElement, depth: int)
  {
    depth < MAX_DEPTH && e.children.List?
  }

  /** The elements serializeUiElement records in the mapping: the element, then its children's, unless depth >= MAX_DEPTH. */
  function MappedPreorder(e: UiElement, depth: int): (r: seq<UiElement>)
    ensures |r| >= 1 && r[0] == e
    decreases e, 1
  {
    [e] + if Descends(e, depth) then MappedKids(e, depth, |e.children.items|) else []
  }

  function MappedKids(e: UiElement, depth: int, n: nat): seq<UiElement>
    requires e.children.List? && n <= |e.children.items|
    decreases e, 0, n
  {
    if n == 0 then []
    else
      assert e.children.items[n - 1] in e.children.items;
      MappedKids(e, depth, n - 1) + MappedPreorder(e.children.items[n - 1], depth + 1)
  }

  function NodeName(e: UiElement): string
  {
    ToXmlNodeName(e.ClassName())
  }

  /** An element's events: start tag, attributes, children, end tag. */
  function Element(name: string, head: seq<XmlEvent>, body: seq<XmlEvent>): seq<XmlEvent>
  {
    [StartTag(name)] + head + body + [EndTag(name)]
  }

  /** The attributes: its own, the display info when the flag is set, and its number when mapping is on (`base`). */
  function Head(e: UiElement, addDisplay: bool, display: DisplayInfo, base: Option<int>, exposable: set<Attribute>): seq<XmlEvent>
  {
    AttrEvents(e, exposable) + (if addDisplay then DisplayEvents(display) else []) + IndexEvents(base)
  }

  /** The events serializeUiElement(e, depth) writes. */
  function Ser(e: UiElement, depth: int, addDisplay: bool, display: DisplayInfo, base: Option<int>, exposable: set<Attribute>)
    : seq<XmlEvent>
    decreases e, 2
  {
    Element(NodeName(e), Head(e, addDisplay, display, base, exposable), Body(e, depth, display, Offset(base, 1), exposable))
  }

  /** The children one level deeper, unless depth >= MAX_DEPTH. */
  function Body(e: UiElement, depth: int, display: DisplayInfo, base: Option<int>, exposable: set<Attribute>): seq<XmlEvent>
    decreases e, 1
  {
    if Descends(e, depth) then SerKids(e, depth, display, base, exposable, |e.children.items|) else []
  }

  /** The first n children, each numbered after all elements mapped before it. */
  function SerKids(e: UiElement, depth: int, display: DisplayInfo, base: Option<int>, exposable: set<Attribute>, n: nat)
    : seq<XmlEvent>
    requires e.children.List? && n <= |e.children.items|
    decreases e, 0, n
  {
    if n == 0 then []
    else
      assert e.children.items[n - 1] in e.children.items;
      SerKids(e, depth, display, base, exposable, n - 1)
        + Ser(e.children.items[n - 1], depth + 1, false, display, Offset(base, |MappedKids(e, depth, n - 1)|), exposable)
  }

  // ---------------------------------------------------------------------
  // Well-nested output
  // ---------------------------------------------------------------------

  /** The serializer's state: the open tags, and whether an attribute may be written now. */
  datatype WriterState = Open(stack: seq<string>, attributesAllowed: bool) | Broken

  /** XmlSerializer's rules: an attribute only right after a start tag, an end tag only for the innermost open tag. */
  function Step(s: WriterState, ev: XmlEvent): WriterState
  {
    match s
    case Broken => Broken
    case Open(stack, allowed) =>
      match ev
      case StartTag(n) => Open(stack + [n], true)
      case Attr(_, _) => if allowed && stack != [] then s else Broken
      case EndTag(n) => if stack != [] && stack[|stack| - 1] == n then Open(stack[..|stack| - 1], false) else Broken
  }

  function Replay(s: WriterState, events: seq<XmlEvent>): WriterState
    decreases |events|
  {
    if events == [] then s else Replay(Step(s, events[0]), events[1..])
  }

  lemma {:induction false} ReplayConcat(s: WriterState, a: seq<XmlEvent>, b: seq<XmlEvent>)
    ensures Replay(s, a + b) == Replay(Replay(s, a), b)
    decreases |a|
  {
    if a != [] {
      assert (a + b)[0] == a[0];
      assert (a + b)[1..] == a[1..] + b;
      ReplayConcat(Step(s, a[0]), a[1..], b);
    } else {
      assert a + b == b;
    }
  }

  lemma {:induction false} ReplayAttrs(stack: seq<string>, events: seq<XmlEvent>)
    requires stack != [] && forall k :: 0 <= k < |events| ==> events[k].Attr?
    ensures Replay(Open(stack, true), events) == Open(stack, true)
    decreases |events|
  {
    if events != [] {
      ReplayAttrs(stack, events[1..]);
    }
  }

  /** An element leaves the writer as it found it when its attributes are attributes and its body is balanced. */
  lemma ElementNested(stack: seq<string>, allowed: bool, name: string, head: seq<XmlEvent>, body: seq<XmlEvent>)
    requires forall k :: 0 <= k < |head| ==> head[k].Attr?
    requires Replay(Open(stack + [name], true), body).Open? && Replay(Open(stack + [name], true), body).stack == stack + [name]
    ensures Replay(Open(stack, allowed), Element(name, head, body)) == Open(stack, false)
  {
    var s0 := Open(stack, allowed);
    ReplayConcat(s0, [StartTag(name)] + head + body, [EndTag(name)]);
    ReplayConcat(s0, [StartTag(name)] + head, body);
    ReplayConcat(s0, [StartTag(name)], head);
    assert Replay(s0, [StartTag(name)]) == Open(stack + [name], true);
    ReplayAttrs(stack + [name], head);
    assert (stack + [name])[..|stack + [name]| - 1] == stack;
  }

  lemma HeadAttrs(e: UiElement, addDisplay: bool, display: DisplayInfo, base: Option<int>, exposable: set<Attribute>)
    ensures var h := Head(e, addDisplay, display, base, exposable);
      forall k :: 0 <= k < |h| ==> h[k].Attr?
  {
    AttrEventsPlain(e, exposable, |AllAttributes|);
  }

  lemma {:induction false} SerKidsNested(e: UiElement, depth: int, display: DisplayInfo, base: Option<int>, exposable: set<Attribute>,
                                         n: nat, stack: seq<string>, allowed: bool)
    requires e.children.List? && n <= |e.children.items|
    ensures Replay(Open(stack, allowed), SerKids(e, depth, display, base, exposable, n)) == Open(stack, allowed && n == 0)
    decreases e, 0, n
  {
    if n > 0 {
      var prev := SerKids(e, depth, display, base, exposable, n - 1);
      var child := e.children.items[n - 1];
      assert child in e.children.items;
      var b := Offset(base, |MappedKids(e, depth, n - 1)|);
      ReplayConcat(Open(stack, allowed), prev, Ser(child, depth + 1, false, display, b, exposable));
      SerKidsNested(e, depth, display, base, exposable, n - 1, stack, allowed);
      SerNested(child, depth + 1, false, display, b, exposable, stack, allowed && n - 1 == 0);
    }
  }

  /** Each serialized element leaves the writer as it found it, its tags closed in order and every attribute legal. */
  lemma {:induction false} SerNested(e: UiElement, depth: int, addDisplay: bool, display: DisplayInfo, base: Option<int>,
                                     exposable: set<Attribute>, stack: seq<string>, allowed: bool)
    ensures Replay(Open(stack, allowed), Ser(e, depth, addDisplay, display, base, exposable)) == Open(stack, false)
    decreases e, 2
  {
    var name := NodeName(e);
    HeadAttrs(e, addDisplay, display, base, exposable);
    if Descends(e, depth) {
      SerKidsNested(e, depth, display, Offset(base, 1), exposable, |e.children.items|, stack + [name], true);
    }
    ElementNested(stack, allowed, name, Head(e, addDisplay, display, base, exposable), Body(e, depth, display, Offset(base, 1), exposable));
  }

  /** The serialized tree is a well-nested document: it closes everything it opens. */
  lemma DocumentWellNested(root: UiElement, addDisplay: bool, display: DisplayInfo, base: Option<int>, exposable: set<Attribute>)
    ensures Replay(Open([], false), Ser(root, 0, addDisplay, display, base, exposable)) == Open([], false)
  {
    SerNested(root, 0, addDisplay, display, base, exposable, [], false);
  }

  // ---------------------------------------------------------------------
  // uiElementIndex numbering, the depth cut and the display info
  // ---------------------------------------------------------------------

  /** The values of the uiElementIndex attributes, in output order. */
  function IndexValues(events: seq<XmlEvent>): seq<string>
    decreases |events|
  {
    if events == [] then []
    else (if events[0].Attr? && events[0].name == UI_ELEMENT_INDEX then [events[0].value] else []) + IndexValues(events[1..])
  }

  lemma {:induction false} IndexValuesConcat(a: seq<XmlEvent>, b: seq<XmlEvent>)
    ensures IndexValues(a + b) == IndexValues(a) + IndexValues(b)
    decreases |a|
  {
    if a != [] {
      assert (a + b)[0] == a[0];
      assert (a + b)[1..] == a[1..] + b;
      IndexValuesConcat(a[1..], b);
    } else {
      assert a + b == b;
    }
  }

  lemma {:induction false} IndexValuesNone(events: seq<XmlEvent>)
    requires forall k :: 0 <= k < |events| ==> !(events[k].Attr? && events[k].name == UI_ELEMENT_INDEX)
    ensures IndexValues(events) == []
    decreases |events|
  {
    if events != [] {
      IndexValuesNone(events[1..]);
    }
  }

  lemma IndexValuesElement(name: string, head: seq<XmlEvent>, body: seq<XmlEvent>)
    ensures IndexValues(Element(name, head, body)) == IndexValues(head) + IndexValues(body)
  {
    var inner := head + body;
    assert Element(name, head, body) == [StartTag(name)] + (inner + [EndTag(name)]);
    IndexValuesConcat([StartTag(name)], inner + [EndTag(name)]);
    IndexValuesConcat(inner, [EndTag(name)]);
    IndexValuesConcat(head, body);
    assert IndexValues([StartTag(name)]) == [] by {
      assert [StartTag(name)][1..] == [];
    }
    assert IndexValues([EndTag(name)]) == [] by {
      assert [EndTag(name)][1..] == [];
    }
  }

  lemma HeadIndexValues(e: UiElement, addDisplay: bool, display: DisplayInfo, base: Option<int>, exposable: set<Attribute>)
    ensures IndexValues(Head(e, addDisplay, display, base, exposable)) == if base.Some? then [IntToString(base.value)] else []
  {
    var disp := if addDisplay then DisplayEvents(display) else [];
    IndexValuesConcat(AttrEvents(e, exposable) + disp, IndexEvents(base));
    IndexValuesConcat(AttrEvents(e, exposable), disp);
    AttrEventsPlain(e, exposable, |AllAttributes|);
    IndexValuesNone(AttrEvents(e, exposable));
    IndexValuesNone(disp);
    if base.Some? {
      assert IndexValues(IndexEvents(base)) == [IntToString(base.value)];
    }
  }

  /** The numerals base, base + 1, ..., base + n - 1. */
  function Numerals(base: int, n: nat): (r: seq<string>)
    ensures |r| == n && forall k :: 0 <= k < n ==> r[k] == IntToString(base + k)
  {
    seq(n, k requires 0 <= k < n => IntToString(base + k))
  }

  lemma NumeralsConcat(base: int, m: nat, k: nat)
    ensures Numerals(base, m) + Numerals(base + m, k) == Numerals(base, m + k)
  {
    var l := Numerals(base, m) + Numerals(base + m, k);
    var r := Numerals(base, m + k);
    assert |l| == |r|;
    forall i | 0 <= i < m + k
      ensures l[i] == r[i]
    {
      if i >= m {
        assert l[i] == Numerals(base + m, k)[i - m];
        assert base + m + (i - m) == base + i;
      }
    }
  }

  lemma {:induction false} SerKidsIndices(e: UiElement, depth: int, display: DisplayInfo, base: int, exposable: set<Attribute>, n: nat)
    requires e.children.List? && n <= |e.children.items|
    ensures IndexValues(SerKids(e, depth, display, Some(base), exposable, n)) == Numerals(base, |MappedKids(e, depth, n)|)
    decreases e, 0, n
  {
    if n > 0 {
      var prev := SerKids(e, depth, display, Some(base), exposable, n - 1);
      var child := e.children.items[n - 1];
      assert child in e.children.items;
      var m := |MappedKids(e, depth, n - 1)|;
      var k := |MappedPreorder(child, depth + 1)|;
      var last := Ser(child, depth + 1, false, display, Some(base + m), exposable);
      assert SerKids(e, depth, display, Some(base), exposable, n) == prev + last;
      assert |MappedKids(e, depth, n)| == m + k;
      IndexValuesConcat(prev, last);
      SerKidsIndices(e, depth, display, base, exposable, n - 1);
      SerIndices(child, depth + 1, false, display, base + m, exposable);
      NumeralsConcat(base, m, k);
    }
  }

  /** The index values of an element: its own number, then its children's. */
  lemma SerIndexSplit(e: UiElement, depth: int, addDisplay: bool, display: DisplayInfo, base: int, exposable: set<Attribute>)
    ensures IndexValues(Ser(e, depth, addDisplay, display, Some(base), exposable))
      == Numerals(base, 1) + IndexValues(Body(e, depth, display, Some(base + 1), exposable))
  {
    var head := Head(e, addDisplay, display, Some(base), exposable);
    var body := Body(e, depth, display, Some(base + 1), exposable);
    assert Offset(Some(base), 1) == Some(base + 1);
    assert Ser(e, depth, addDisplay, display, Some(base), exposable) == Element(NodeName(e), head, body);
    IndexValuesElement(NodeName(e), head, body);
    HeadIndexValues(e, addDisplay, display, Some(base), exposable);
    assert [IntToString(base)] == Numerals(base, 1) by {
      assert Numerals(base, 1)[0] == IntToString(base + 0);
    }
  }

  lemma {:induction false} BodyIndices(e: UiElement, depth: int, display: DisplayInfo, base: int, exposable: set<Attribute>)
    ensures IndexValues(Body(e, depth, display, Some(base), exposable)) == Numerals(base, |MappedPreorder(e, depth)| - 1)
    decreases e, 1
  {
    if Descends(e, depth) {
      SerKidsIndices(e, depth, display, base, exposable, |e.children.items|);
    }
  }

  /**
   * With mapping on, the uiElementIndex values written are base, base + 1, ...
   * in output (pre-order) order, one per element the mapping records.
   */
  lemma {:induction false} SerIndices(e: UiElement, depth: int, addDisplay: bool, display: DisplayInfo, base: int, exposable: set<Attribute>)
    ensures IndexValues(Ser(e, depth, addDisplay, display, Some(base), exposable)) == Numerals(base, |MappedPreorder(e, depth)|)
    decreases e, 2
  {
    SerIndexSplit(e, depth, addDisplay, display, base, exposable);
    BodyIndices(e, depth, display, base + 1, exposable);
    NumeralsConcat(base, 1, |MappedPreorder(e, depth)| - 1);
  }

  /** The number of start tags in the output. */
  function Tags(events: seq<XmlEvent>): nat
    decreases |events|
  {
    if events == [] then 0 else (if events[0].StartTag? then 1 else 0) + Tags(events[1..])
  }

  lemma {:induction false} TagsConcat(a: seq<XmlEvent>, b: seq<XmlEvent>)
    ensures Tags(a + b) == Tags(a) + Tags(b)
    decreases |a|
  {
    if a != [] {
      assert (a + b)[0] == a[0];
      assert (a + b)[1..] == a[1..] + b;
      TagsConcat(a[1..], b);
    } else {
      assert a + b == b;
    }
  }

  lemma {:induction false} TagsOfAttrs(events: seq<XmlEvent>)
    requires forall k :: 0 <= k < |events| ==> events[k].Attr?
    ensures Tags(events) == 0
    decreases |events|
  {
    if events != [] {
      TagsOfAttrs(events[1..]);
    }
  }

  /** At depth MAX_DEPTH or deeper an element is serialized alone: one tag, no children, one mapping entry. */
  lemma DepthCut(e: UiElement, depth: int, addDisplay: bool, display: DisplayInfo, base: Option<int>, exposable: set<Attribute>)
    requires depth >= MAX_DEPTH
    ensures Tags(Ser(e, depth, addDisplay, display, base, exposable)) == 1
    ensures MappedPreorder(e, depth) == [e]
  {
    var name := NodeName(e);
    var head := Head(e, addDisplay, display, base, exposable);
    HeadAttrs(e, addDisplay, display, base, exposable);
    assert Ser(e, depth, addDisplay, display, base, exposable) == [StartTag(name)] + head + [] + [EndTag(name)];
    TagsConcat([StartTag(name)] + head + [], [EndTag(name)]);
    TagsConcat([StartTag(name)], head);
    assert [StartTag(name)] + head + [] == [StartTag(name)] + head;
    TagsOfAttrs(head);
  }

  /** The number of display-info attributes in the output. */
  function DisplayCount(events: seq<XmlEvent>): nat
    decreases |events|
  {
    if events == [] then 0 else (if events[0].Attr? && events[0].name == "rotation" then 1 else 0) + DisplayCount(events[1..])
  }

  lemma {:induction false} DisplayCountConcat(a: seq<XmlEvent>, b: seq<XmlEvent>)
    ensures DisplayCount(a + b) == DisplayCount(a) + DisplayCount(b)
    decreases |a|
  {
    if a != [] {
      assert (a + b)[0] == a[0];
      assert (a + b)[1..] == a[1..] + b;
      DisplayCountConcat(a[1..], b);
    } else {
      assert a + b == b;
    }
  }

  lemma {:induction false} DisplayCountNone(events: seq<XmlEvent>)
    requires forall k :: 0 <= k < |events| ==> !(events[k].Attr? && events[k].name == "rotation")
    ensures DisplayCount(events) == 0
    decreases |events|
  {
    if events != [] {
      DisplayCountNone(events[1..]);
    }
  }

  lemma DisplayCountElement(name: string, head: seq<XmlEvent>, body: seq<XmlEvent>)
    ensures DisplayCount(Element(name, head, body)) == DisplayCount(head) + DisplayCount(body)
  {
    var inner := head + body;
    assert Element(name, head, body) == [StartTag(name)] + (inner + [EndTag(name)]);
    DisplayCountConcat([StartTag(name)], inner + [EndTag(name)]);
    DisplayCountConcat(inner, [EndTag(name)]);
    DisplayCountConcat(head, body);
    assert DisplayCount([StartTag(name)]) == 0 by {
      assert [StartTag(name)][1..] == [];
    }
    assert DisplayCount([EndTag(name)]) == 0 by {
      assert [EndTag(name)][1..] == [];
    }
  }

  lemma HeadDisplayCount(e: UiElement, addDisplay: bool, display: DisplayInfo, base: Option<int>, exposable: set<Attribute>)
    ensures DisplayCount(Head(e, addDisplay, display, base, exposable)) == if addDisplay then 1 else 0
  {
    var disp := if addDisplay then DisplayEvents(display) else [];
    DisplayCountConcat(AttrEvents(e, exposable) + disp, IndexEvents(base));
    DisplayCountConcat(AttrEvents(e, exposable), disp);
    AttrEventsPlain(e, exposable, |AllAttributes|);
    DisplayCountNone(AttrEvents(e, exposable));
    DisplayCountNone(IndexEvents(base));
    if addDisplay {
      assert DisplayEvents(display) == [DisplayEvents(display)[0]] + DisplayEvents(display)[1..];
      DisplayCountNone(DisplayEvents(display)[1..]);
    }
  }

  lemma NoDisplaySum(whole: seq<XmlEvent>, a: seq<XmlEvent>, b: seq<XmlEvent>)
    requires whole == a + b && DisplayCount(a) == 0 && DisplayCount(b) == 0
    ensures DisplayCount(whole) == 0
  {
    DisplayCountConcat(a, b);
  }

  lemma {:induction false} SerKidsNoDisplay(e: UiElement, depth: int, display: DisplayInfo, base: Option<int>, exposable: set<Attribute>, n: nat)
    requires e.children.List? && n <= |e.children.items|
    ensures DisplayCount(SerKids(e, depth, display, base, exposable, n)) == 0
    decreases e, 0, n
  {
    if n > 0 {
      var child := e.children.items[n - 1];
      assert child in e.children.items;
      var b := Offset(base, |MappedKids(e, depth, n - 1)|);
      var whole := SerKids(e, depth, display, base, exposable, n);
      var prev := SerKids(e, depth, display, base, exposable, n - 1);
      var last := Ser(child, depth + 1, false, display, b, exposable);
      assert whole == prev + last by {
        SerKidsUnfold(e, depth, display, base, exposable, n);
      }
      assert DisplayCount(prev) == 0 by {
        SerKidsNoDisplay(e, depth, display, base, exposable, n - 1);
      }
      assert DisplayCount(last) == 0 by {
        SerDisplayOnce(child, depth + 1, false, display, b, exposable);
      }
      NoDisplaySum(whole, prev, last);
    }
  }

  /** Display info appears exactly once when the flag is set, on the root element, and never otherwise. */
  lemma {:induction false} SerDisplayOnce(e: UiElement, depth: int, addDisplay: bool, display: DisplayInfo, base: Option<int>, exposable: set<Attribute>)
    ensures DisplayCount(Ser(e, depth, addDisplay, display, base, exposable)) == if addDisplay then 1 else 0
    decreases e, 2
  {
    DisplayCountElement(NodeName(e), Head(e, addDisplay, display, base, exposable), Body(e, depth, display, Offset(base, 1), exposable));
    HeadDisplayCount(e, addDisplay, display, base, exposable);
    if Descends(e, depth) {
      SerKidsNoDisplay(e, depth, display, Offset(base, 1), exposable, |e.children.items|);
    }
  }

  // ---------------------------------------------------------------------
  // findNodes result rules
  // ---------------------------------------------------------------------

  /** The nodes the matched uiElementIndex values from position k select, under the loop's skip and break rules. */
  function MatchesFrom(mapping: seq<UiElement>, values: seq<string>, multiple: bool, k: nat): (r: Result<seq<NodeInfo>, DumperError>)
    requires k <= |values|
    ensures r.Ok? && !multiple ==> |r.value| <= 1
    ensures r.Ok? ==> forall j :: 0 <= j < |r.value| ==> exists i :: 0 <= i < |mapping| && mapping[i].node == Some(r.value[j])
    decreases |values| - k
  {
    if k == |values| then Ok([])
    else match ParseInt(values[k])
      case None => Err(NumberFormat)
      case Some(i) =>
        if i < 0 || i >= |mapping| || mapping[i].node.None? then MatchesFrom(mapping, values, multiple, k + 1)
        else
          var found := mapping[i].node.value;
          assert mapping[i].node == Some(found);
          if !multiple then Ok([found])
          else match MatchesFrom(mapping, values, multiple, k + 1)
            case Err(err) => Err(err)
            case Ok(rest) =>
              MappedCons(mapping, i, found, rest);
              Ok([found] + rest)
  }

  /** A recorded element's node in front of nodes that are all recorded: all of them are recorded. */
  lemma MappedCons(mapping: seq<UiElement>, i: int, found: NodeInfo, rest: seq<NodeInfo>)
    requires 0 <= i < |mapping| && mapping[i].node == Some(found)
    requires forall j :: 0 <= j < |rest| ==> exists i :: 0 <= i < |mapping| && mapping[i].node == Some(rest[j])
    ensures forall j :: 0 <= j < |[found] + rest| ==>
      exists i :: 0 <= i < |mapping| && mapping[i].node == Some(([found] + rest)[j])
  {
    var all := [found] + rest;
    forall j | 0 <= j < |all|
      ensures exists i :: 0 <= i < |mapping| && mapping[i].node == Some(all[j])
    {
      if j == 0 {
        assert mapping[i].node == Some(all[0]);
      } else {
        assert all[j] == rest[j - 1];
      }
    }
  }

  function Prepend(acc: seq<NodeInfo>, r: Result<seq<NodeInfo>, DumperError>): Result<seq<NodeInfo>, DumperError>
  {
    match r
    case Err(err) => Err(err)
    case Ok(rest) => Ok(acc + rest)
  }

  /**
   * The loop of findNodes over the selected index values: a value that is not
   * a number fails, one that names no recorded element or an element without
   * a node is skipped, and the first match ends the search unless `multiple`.
   */
  method Resolve(uiElementsMapping: seq<UiElement>, values: seq<string>, multiple: bool) returns (r: Result<seq<NodeInfo>, DumperError>)
    ensures r == MatchesFrom(uiElementsMapping, values, multiple, 0)
  {
    var matchesList: seq<NodeInfo> := [];
    var k := 0;
    PrependNothing(MatchesFrom(uiElementsMapping, values, multiple, 0));
    while k < |values|
      invariant 0 <= k <= |values|
      invariant !multiple ==> matchesList == []
      invariant MatchesFrom(uiElementsMapping, values, multiple, 0) == Prepend(matchesList, MatchesFrom(uiElementsMapping, values, multiple, k))
    {
      MatchStep(uiElementsMapping, values, multiple, k, matchesList);
      var parsed := ParseInt(values[k]);
      if parsed.None? {
        return Err(NumberFormat);
      }
      var i := parsed.value;
      if 0 <= i < |uiElementsMapping| && uiElementsMapping[i].node.Some? {
        matchesList := matchesList + [uiElementsMapping[i].node.value];
        if !multiple {
          return Ok(matchesList);
        }
      }
      k := k + 1;
    }
    assert matchesList + [] == matchesList;
    return Ok(matchesList);
  }

  lemma PrependNothing(r: Result<seq<NodeInfo>, DumperError>)
    ensures Prepend([], r) == r
  {
    if r.Ok? {
      assert [] + r.value == r.value;
    }
  }

  /** One value of the findNodes loop, seen from the matches collected before it. */
  lemma MatchStep(mapping: seq<UiElement>, values: seq<string>, multiple: bool, k: nat, acc: seq<NodeInfo>)
    requires k < |values|
    ensures ParseInt(values[k]).None? ==> Prepend(acc, MatchesFrom(mapping, values, multiple, k)) == Err(NumberFormat)
    ensures ParseInt(values[k]).Some? ==>
      var i := ParseInt(values[k]).value;
      if i < 0 || i >= |mapping| || mapping[i].node.None? then
        Prepend(acc, MatchesFrom(mapping, values, multiple, k)) == Prepend(acc, MatchesFrom(mapping, values, multiple, k + 1))
      else if !multiple then
        Prepend(acc, MatchesFrom(mapping, values, multiple, k)) == Ok(acc + [mapping[i].node.value])
      else
        Prepend(acc, MatchesFrom(mapping, values, multiple, k))
          == Prepend(acc + [mapping[i].node.value], MatchesFrom(mapping, values, multiple, k + 1))
  {
    var rest := MatchesFrom(mapping, values, multiple, k + 1);
    if rest.Ok? {
      forall x: NodeInfo ensures acc + ([x] + rest.value) == acc + [x] + rest.value {
        assert acc + ([x] + rest.value) == acc + [x] + rest.value;
      }
    }
  }

  /** The node toFile starts from: the explicit root, or else the active window's root. */
  function XPathRawRoot(root: Option<NodeInfo>, windowRoot: NodeInfo): NodeInfo
  {
    if root.None? then windowRoot else root.value
  }

  /** Toast messages are added under the synthetic root only when no explicit root was given. */
  function XPathToasts(root: Option<NodeInfo>, toastMessages: Option<seq<string>>): Option<seq<string>>
  {
    if root.None? then toastMessages else None
  }

  /**
   * Every value the selector can pick from the document's uiElementIndex
   * attributes names a recorded element, so findNodes never fails on a number.
   */
  lemma {:induction false} MatchesOfNumerals(mapping: seq<UiElement>, values: seq<string>, multiple: bool, k: nat)
    requires k <= |values| && |mapping| <= INT_MAX + 1
    requires forall j :: k <= j < |values| ==> values[j] in Numerals(0, |mapping|)
    ensures MatchesFrom(mapping, values, multiple, k).Ok?
    decreases |values| - k
  {
    if k < |values| {
      var n := Numerals(0, |mapping|);
      var i :| 0 <= i < |n| && n[i] == values[k];
      assert values[k] == IntToString(i) by {
        assert n[i] == IntToString(0 + i);
      }
      MatchesOfNumerals(mapping, values, multiple, k + 1);
      NumeralStep(mapping, values, multiple, k, i);
    }
  }

  /** A value that is the numeral of a recorded position never fails the scan. */
  lemma NumeralStep(mapping: seq<UiElement>, values: seq<string>, multiple: bool, k: nat, i: int)
    requires k < |values| && 0 <= i < |mapping| && |mapping| <= INT_MAX + 1 && values[k] == IntToString(i)
    requires MatchesFrom(mapping, values, multiple, k + 1).Ok?
    ensures MatchesFrom(mapping, values, multiple, k).Ok?
  {
    ParseIntToString(i);
  }

  /**
   * When the tree has at most 2^31 elements, the uiElementIndex values of the
   * document findNodes writes are the numbers 0, 1, ... of the elements in
   * document order, each naming the element the mapping holds at that position,
   * and resolving any selection of them does not fail.
   */
  lemma DocumentIndicesResolve(e: UiElement, addDisplay: bool, display: DisplayInfo, exposable: set<Attribute>, values: seq<string>, multiple: bool)
    requires |MappedPreorder(e, 0)| <= INT_MAX + 1
    requires forall j :: 0 <= j < |values| ==> values[j] in IndexValues(Ser(e, 0, addDisplay, display, Some(0), exposable))
    ensures var indices := IndexValues(Ser(e, 0, addDisplay, display, Some(0), exposable));
      && |indices| == |MappedPreorder(e, 0)|
      && forall j :: 0 <= j < |indices| ==> ParseInt(indices[j]) == Some(j)
    ensures MatchesFrom(MappedPreorder(e, 0), values, multiple, 0).Ok?
  {
    SerIndices(e, 0, addDisplay, display, 0, exposable);
    var indices := IndexValues(Ser(e, 0, addDisplay, display, Some(0), exposable));
    forall j | 0 <= j < |indices| ensures ParseInt(indices[j]) == Some(j) {
      ParseIntToString(j);
    }
    MatchesOfNumerals(MappedPreorder(e, 0), values, multiple, 0);
  }

  // ---------------------------------------------------------------------
  // The dumper
  // ---------------------------------------------------------------------

  class Dumper {
    /** The explicit root, if one was given to the constructor. */
    const root: Option<NodeInfo>
    /** What Attribute.isExposableToXml accepts. */
    const exposable: set<Attribute>
    const display: DisplayInfo
    /** The snapshot cache shared with UiAutomationElement. */
    const elements: ElementCache

    var out: seq<XmlEvent>
    var shouldAddDisplayInfo: bool
    var mapping: Option<seq<UiElement>>

    constructor (root: Option<NodeInfo>, exposable: set<Attribute>, display: DisplayInfo, elements: ElementCache)
      ensures this.root == root && this.exposable == exposable && this.display == display && this.elements == elements
      ensures out == [] && mapping.None? && !shouldAddDisplayInfo
    {
      this.root := root;
      this.exposable := exposable;
      this.display := display;
      this.elements := elements;
      out := [];
      shouldAddDisplayInfo := false;
      mapping := None;
    }

    /** The attribute loop of serializeUiElement: each exposable attribute that is not null. */
    method WriteAttributes(e: UiElement)
      modifies this
      ensures out == old(out) + AttrEvents(e, exposable)
      ensures shouldAddDisplayInfo == old(shouldAddDisplayInfo) && mapping == old(mapping)
    {
      var i := 0;
      while i < |AllAttributes|
        invariant 0 <= i <= |AllAttributes|
        invariant out == old(out) + AttrEventsUpTo(e, exposable, i)
        invariant shouldAddDisplayInfo == old(shouldAddDisplayInfo) && mapping == old(mapping)
      {
        var attr := AllAttributes[i];
        if attr in exposable && attr in e.attributes {
          out := out + [AttrEvent(attr, e.attributes[attr])];
        }
        i := i + 1;
      }
    }

    /** The display info on the first element only, then the element's number when mapping is on. */
    method WriteExtras(e: UiElement)
      modifies this
      ensures out == old(out) + (if old(shouldAddDisplayInfo) then DisplayEvents(display) else []) + IndexEvents(MapBase(old(mapping)))
      ensures mapping == MapAppend(old(mapping), [e])
      ensures !shouldAddDisplayInfo
    {
      if shouldAddDisplayInfo {
        out := out + DisplayEvents(display);
        shouldAddDisplayInfo := false;
      }
      if mapping.Some? {
        var uiElementIndex := |mapping.value|;
        mapping := Some(mapping.value + [e]);
        out := out + [Attr(UI_ELEMENT_INDEX, IntToString(uiElementIndex))];
      }
    }

    /** serializeUiElement: append the element's events; number and record it when mapping is on. */
    method SerializeUiElement(e: UiElement, depth: int)
      modifies this
      ensures out == old(out) + Ser(e, depth, old(shouldAddDisplayInfo), display, MapBase(old(mapping)), exposable)
      ensures mapping == MapAppend(old(mapping), MappedPreorder(e, depth))
      ensures !shouldAddDisplayInfo
      decreases e, 2
    {
      var nodeName := ToXmlNodeName(e.ClassName());
      out := out + [StartTag(nodeName)];
      WriteAttributes(e);
      WriteExtras(e);
      ghost var afterHead := out;
      ghost var mapped := mapping;
      if depth < MAX_DEPTH && e.children.List? {
        MapBaseAppend(old(mapping), [e]);
        SerializeChildren(e, depth);
      }
      ghost var afterBody := out;
      out := out + [EndTag(nodeName)];
      SerAssembled(old(out), afterHead, afterBody, out, old(mapping), mapped, mapping, e, depth, old(shouldAddDisplayInfo),
                   display, exposable);
    }

    method SerializeChildren(e: UiElement, depth: int)
      requires e.children.List? && !shouldAddDisplayInfo
      modifies this
      ensures out == old(out) + SerKids(e, depth, display, MapBase(old(mapping)), exposable, |e.children.items|)
      ensures mapping == MapAppend(old(mapping), MappedKids(e, depth, |e.children.items|))
      ensures !shouldAddDisplayInfo
      decreases e, 1
    {
      var kids := e.children.items;
      var j := 0;
      ChildrenStart(old(out), old(mapping), e, depth, display, exposable);
      while j < |kids|
        invariant 0 <= j <= |kids|
        invariant out == old(out) + SerKids(e, depth, display, MapBase(old(mapping)), exposable, j)
        invariant mapping == MapAppend(old(mapping), MappedKids(e, depth, j))
        invariant !shouldAddDisplayInfo
      {
        SerializeChild(e, depth, j, old(out), old(mapping));
        j := j + 1;
      }
    }

    /** One pass of the child loop: the j-th child, numbered after everything mapped so far. */
    method SerializeChild(e: UiElement, depth: int, j: nat, ghost out0: seq<XmlEvent>, ghost map0: Option<seq<UiElement>>)
      requires e.children.List? && j < |e.children.items| && !shouldAddDisplayInfo
      requires out == out0 + SerKids(e, depth, display, MapBase(map0), exposable, j)
      requires mapping == MapAppend(map0, MappedKids(e, depth, j))
      modifies this
      ensures out == out0 + SerKids(e, depth, display, MapBase(map0), exposable, j + 1)
      ensures mapping == MapAppend(map0, MappedKids(e, depth, j + 1))
      ensures !shouldAddDisplayInfo
      decreases e, 0
    {
      var child := e.children.items[j];
      assert child in e.children.items;
      ghost var written := out;
      ghost var before := mapping;
      SerializeUiElement(child, depth + 1);
      ChildStep(out0, written, out, map0, before, mapping, e, depth, display, exposable, j);
    }

    /**
     * toFile: a fresh document whose display info goes on the root element only
     * when no explicit root was given, serialized from the rebuilt root at depth 0.
     * A rebuild that throws ends it before any element is written.
     */
    method ToFile(windowRoot: NodeInfo, toastMessages: Option<seq<string>>, allowInvisible: bool)
      returns (r: Result<(), DumperError>)
      modifies this, elements
      ensures var spec := RootSpec(XPathRawRoot(root, windowRoot), XPathToasts(root, toastMessages), allowInvisible);
        && elements.cache == spec.1
        && (spec.0.Err? ==>
              r == Err(IllegalArgument) && out == [] && mapping == old(mapping) && shouldAddDisplayInfo == root.None?)
        && (spec.0.Ok? ==>
              && r == Ok(())
              && out == Ser(spec.0.value, 0, root.None?, display, MapBase(old(mapping)), exposable)
              && mapping == MapAppend(old(mapping), MappedPreorder(spec.0.value, 0))
              && !shouldAddDisplayInfo)
    {
      out := [];
      shouldAddDisplayInfo := root.None?;
      var xpathRoot: Result<UiElement, AccessibilityNodeInfoHelpers.HelperError>;
      if root.None? {
        xpathRoot := elements.RebuildForNewRoot(windowRoot, toastMessages, allowInvisible);
      } else {
        xpathRoot := elements.RebuildForNewRoot(root.value, None, allowInvisible);
      }
      if xpathRoot.Err? {
        return Err(IllegalArgument);
      }
      SerializeUiElement(xpathRoot.value, 0);
      r := Ok(());
    }

    /** performCleanup: the mapping is dropped (the temporary file is not modelled). */
    method PerformCleanup()
      modifies this
      ensures mapping.None?
      ensures out == old(out) && shouldAddDisplayInfo == old(shouldAddDisplayInfo)
    {
      mapping := None;
    }

    /**
     * dumpToXml: the document toFile writes, as its sequence of events, or the
     * exception of the rebuild; the mapping is dropped afterwards either way.
     */
    method DumpToXml(windowRoot: NodeInfo, toastMessages: Option<seq<string>>, allowInvisible: bool)
      returns (document: Result<seq<XmlEvent>, DumperError>)
      modifies this, elements
      ensures var spec := RootSpec(XPathRawRoot(root, windowRoot), XPathToasts(root, toastMessages), allowInvisible);
        && elements.cache == spec.1
        && (spec.0.Err? ==> document == Err(IllegalArgument))
        && (spec.0.Ok? ==> document == Ok(Ser(spec.0.value, 0, root.None?, display, MapBase(old(mapping)), exposable)))
      ensures mapping.None?
    {
      var written := ToFile(windowRoot, toastMessages, allowInvisible);
      if written.Err? {
        document := Err(written.error);
      } else {
        document := Ok(out);
      }
      PerformCleanup();
    }

    /**
     * findNodes: an uncompilable selector is refused before anything else is
     * touched; otherwise the document is written with every element numbered
     * from 0, `evaluate` (the XPath engine) picks the uiElementIndex values the
     * selector selects, and each is resolved through the mapping as MatchesFrom
     * describes. A rebuild that throws is passed on. The mapping is always
     * dropped afterwards.
     */
    method FindNodes(selectorCompiles: bool, evaluate: seq<XmlEvent> -> seq<string>, multiple: bool,
                     windowRoot: NodeInfo, toastMessages: Option<seq<string>>, allowInvisible: bool)
      returns (r: Result<seq<NodeInfo>, DumperError>)
      modifies this, elements
      ensures !selectorCompiles ==> r == Err(InvalidSelector) && unchanged(this) && unchanged(elements)
      ensures selectorCompiles ==>
        var spec := RootSpec(XPathRawRoot(root, windowRoot), XPathToasts(root, toastMessages), allowInvisible);
        && elements.cache == spec.1 && mapping.None?
        && (spec.0.Err? ==> r == Err(IllegalArgument) && out == [])
        && (spec.0.Ok? ==>
              var document := Ser(spec.0.value, 0, root.None?, display, Some(0), exposable);
              && r == MatchesFrom(MappedPreorder(spec.0.value, 0), evaluate(document), multiple, 0)
              && out == document)
    {
      if !selectorCompiles {
        return Err(InvalidSelector);
      }
      mapping := Some([]);
      var written := ToFile(windowRoot, toastMessages, allowInvisible);
      if written.Err? {
        r := Err(written.error);
      } else {
        var values := evaluate(out);
        var uiElementsMapping := mapping.value;
        ghost var spec := RootSpec(XPathRawRoot(root, windowRoot), XPathToasts(root, toastMessages), allowInvisible);
        assert uiElementsMapping == MappedPreorder(spec.0.value, 0);
        r := Resolve(uiElementsMapping, values, multiple);
      }
      PerformCleanup();
    }
  }

  /** The pieces serializeUiElement writes make up Ser, and the mapping grows by MappedPreorder. */
  lemma SerAssembled(out0: seq<XmlEvent>, afterHead: seq<XmlEvent>, afterBody: seq<XmlEvent>, final: seq<XmlEvent>,
                     map0: Option<seq<UiElement>>, mapped: Option<seq<UiElement>>, map1: Option<seq<UiElement>>,
                     e: UiElement, depth: int, addDisplay: bool, display: DisplayInfo, exposable: set<Attribute>)
    requires afterHead == out0 + [StartTag(NodeName(e))] + AttrEvents(e, exposable)
      + (if addDisplay then DisplayEvents(display) else []) + IndexEvents(MapBase(map0))
    requires mapped == MapAppend(map0, [e])
    requires Descends(e, depth) ==>
      && afterBody == afterHead + SerKids(e, depth, display, MapBase(mapped), exposable, |e.children.items|)
      && map1 == MapAppend(mapped, MappedKids(e, depth, |e.children.items|))
    requires !Descends(e, depth) ==> afterBody == afterHead && map1 == mapped
    requires final == afterBody + [EndTag(NodeName(e))]
    ensures final == out0 + Ser(e, depth, addDisplay, display, MapBase(map0), exposable)
    ensures map1 == MapAppend(map0, MappedPreorder(e, depth))
  {
    MapBaseAppend(map0, [e]);
    SerAssembledMapping(map0, mapped, map1, e, depth);
    var base := MapBase(map0);
    var head := Head(e, addDisplay, display, base, exposable);
    var body := Body(e, depth, display, Offset(base, 1), exposable);
    assert afterBody == out0 + [StartTag(NodeName(e))] + head + body by {
      assert afterHead == out0 + [StartTag(NodeName(e))] + head;
    }
    ElementAppend(out0, NodeName(e), head, body);
  }

  /** The mapping part of SerAssembled: the element, then its children's elements when it descends. */
  lemma SerAssembledMapping(map0: Option<seq<UiElement>>, mapped: Option<seq<UiElement>>, map1: Option<seq<UiElement>>,
                            e: UiElement, depth: int)
    requires mapped == MapAppend(map0, [e])
    requires Descends(e, depth) ==> map1 == MapAppend(mapped, MappedKids(e, depth, |e.children.items|))
    requires !Descends(e, depth) ==> map1 == mapped
    ensures map1 == MapAppend(map0, MappedPreorder(e, depth))
  {
    if Descends(e, depth) {
      MapAppendTwice(map0, [e], MappedKids(e, depth, |e.children.items|));
    } else {
      assert MappedPreorder(e, depth) == [e];
    }
  }

  lemma ChildrenStart(out: seq<XmlEvent>, mapping: Option<seq<UiElement>>, e: UiElement, depth: int, display: DisplayInfo, exposable: set<Attribute>)
    requires e.children.List?
    ensures out == out + SerKids(e, depth, display, MapBase(mapping), exposable, 0)
    ensures mapping == MapAppend(mapping, MappedKids(e, depth, 0))
  {
    MapAppendNothing(mapping);
  }

  /** One more child: the output and the mapping so far followed by the child's. */
  lemma ChildStep(out0: seq<XmlEvent>, written: seq<XmlEvent>, now: seq<XmlEvent>,
                  map0: Option<seq<UiElement>>, before: Option<seq<UiElement>>, after: Option<seq<UiElement>>,
                  e: UiElement, depth: int, display: DisplayInfo, exposable: set<Attribute>, j: nat)
    requires e.children.List? && j < |e.children.items|
    requires written == out0 + SerKids(e, depth, display, MapBase(map0), exposable, j)
    requires before == MapAppend(map0, MappedKids(e, depth, j))
    requires now == written + Ser(e.children.items[j], depth + 1, false, display, MapBase(before), exposable)
    requires after == MapAppend(before, MappedPreorder(e.children.items[j], depth + 1))
    ensures now == out0 + SerKids(e, depth, display, MapBase(map0), exposable, j + 1)
    ensures after == MapAppend(map0, MappedKids(e, depth, j + 1))
  {
    MapBaseAppend(map0, MappedKids(e, depth, j));
    SerKidsStep(out0, written, now, e, depth, display, MapBase(map0), exposable, j, MapBase(before));
    MapAppendTwice(map0, MappedKids(e, depth, j), MappedPreorder(e.children.items[j], depth + 1));
    MappedKidsStep(e, depth, j);
  }

  /** One more child: the output so far followed by the child's events. */
  lemma SerKidsUnfold(e: UiElement, depth: int, display: DisplayInfo, base: Option<int>, exposable: set<Attribute>, n: nat)
    requires e.children.List? && 0 < n <= |e.children.items|
    ensures SerKids(e, depth, display, base, exposable, n)
      == SerKids(e, depth, display, base, exposable, n - 1)
         + Ser(e.children.items[n - 1], depth + 1, false, display, Offset(base, |MappedKids(e, depth, n - 1)|), exposable)
  {
  }

  lemma SerKidsStep(before: seq<XmlEvent>, written: seq<XmlEvent>, now: seq<XmlEvent>, e: UiElement, depth: int,
                    display: DisplayInfo, base: Option<int>, exposable: set<Attribute>, j: nat, childBase: Option<int>)
    requires e.children.List? && j < |e.children.items|
    requires written == before + SerKids(e, depth, display, base, exposable, j)
    requires childBase == Offset(base, |MappedKids(e, depth, j)|)
    requires now == written + Ser(e.children.items[j], depth + 1, false, display, childBase, exposable)
    ensures now == before + SerKids(e, depth, display, base, exposable, j + 1)
  {
  }

  lemma MappedKidsStep(e: UiElement, depth: int, j: nat)
    requires e.children.List? && j < |e.children.items|
    ensures MappedKids(e, depth, j + 1) == MappedKids(e, depth, j) + MappedPreorder(e.children.items[j], depth + 1)
  {
  }

  lemma ElementAppend(before: seq<XmlEvent>, name: string, head: seq<XmlEvent>, body: seq<XmlEvent>)
    ensures before + [StartTag(name)] + head + body + [EndTag(name)] == before + Element(name, head, body)
  {
  }

  lemma MapBaseAppend(mapping: Option<seq<UiElement>>, a: seq<UiElement>)
    ensures MapBase(MapAppend(mapping, a)) == Offset(MapBase(mapping), |a|)
  {
  }

  lemma MapAppendNothing(mapping: Option<seq<UiElement>>)
    ensures MapAppend(mapping, []) == mapping
  {
    if mapping.Some? {
      assert mapping.value + [] == mapping.value;
    }
  }

  lemma MapAppendTwice(mapping: Option<seq<UiElement>>, a: seq<UiElement>, b: seq<UiElement>)
    ensures MapAppend(MapAppend(mapping, a), b) == MapAppend(mapping, a + b)
  {
    if mapping.Some? {
      assert mapping.value + a + b == mapping.value + (a + b);
    }
  }

  function MapBase(mapping: Option<seq<UiElement>>): Option<int>
  {
    if mapping.Some? then Some(|mapping.value|) else None
  }

  function MapAppend(mapping: Option<seq<UiElement>>, added: seq<UiElement>): Option<seq<UiElement>>
  {
    if mapping.Some? then Some(mapping.value + added) else None
  }
}
