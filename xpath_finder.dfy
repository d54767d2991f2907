/**
 * XPath lookup over a DOM built from the snapshot tree (XPathFinder). Every
 * element gets a DOM element named after its simple class name, with its
 * attributes and a `uiElementIndex` that numbers the elements in pre-order;
 * the numbers lead back to the snapshot elements through a mapping that
 * grows as the DOM is built. The XPath engine is a parameter that, given the
 * DOM, returns the selected nodes.
 */
module XPathFinder {
  import opened Common
  import opened Accessibility
  import opened UiAutomationElement

  const UI_ELEMENT_INDEX := "uiElementIndex"
  const UNKNOWN_CLASS_NAME := "UNKNOWN"

  // ---------------------------------------------------------------------
  // tag and simpleClassName
  // ---------------------------------------------------------------------

  /** What is left of a string after the run of '?' at its start. */
  function DropQuestionMarks(s: string): (r: string)
    ensures |r| <= |s| && r == s[|s| - |r|..]
    ensures r != [] ==> r[0] != '?'
  {
    if s != [] && s[0] == '?' then DropQuestionMarks(s[1..]) else s
  }

  /** replaceAll("\\?+", "_"): each maximal run of '?' becomes a single '_'. */
  function UnderscoreRuns(s: string): string
    decreases |s|
  {
    if s == [] then []
    else if s[0] == '?' then "_" + UnderscoreRuns(DropQuestionMarks(s[1..]))
    else [s[0]] + UnderscoreRuns(s[1..])
  }

  /** What is left of a string after the run of decimal digits at its start. */
  function DropDigits(s: string): (r: string)
    ensures |r| <= |s| && r == s[|s| - |r|..]
    ensures r != [] ==> !IsDigit(r[0])
  {
    if s != [] && IsDigit(s[0]) then DropDigits(s[1..]) else s
  }

  /** replaceAll("\\$[0-9]+", "\\$"): the digits right after each '$' are removed. */
  function BareDollars(s: string): string
    decreases |s|
  {
    if s == [] then []
    else if s[0] == '$' then "$" + BareDollars(DropDigits(s[1..]))
    else [s[0]] + BareDollars(s[1..])
  }

  /** No '$' is immediately followed by a digit. */
  predicate NoDollarDigit(s: string)
  {
    forall i :: 0 <= i < |s| - 1 && s[i] == '$' ==> !IsDigit(s[i + 1])
  }

  /** tag: runs of '?' collapsed to '_', then the numbers of anonymous classes dropped. */
  function Tag(clsName: string): string
  {
    BareDollars(UnderscoreRuns(clsName))
  }

  lemma {:induction false} UnderscoreRunsNoQuestion(s: string)
    ensures '?' !in UnderscoreRuns(s)
    decreases |s|
  {
    if s != [] {
      if s[0] == '?' {
        UnderscoreRunsNoQuestion(DropQuestionMarks(s[1..]));
      } else {
        UnderscoreRunsNoQuestion(s[1..]);
      }
    }
  }

  lemma {:induction false} UnderscoreRunsFixed(s: string)
    requires '?' !in s
    ensures UnderscoreRuns(s) == s
    decreases |s|
  {
    if s != [] {
      assert s[0] != '?';
      assert '?' !in s[1..] by {
        forall i | 0 <= i < |s[1..]| ensures s[1..][i] != '?' {
          assert s[1..][i] == s[i + 1];
        }
      }
      UnderscoreRunsFixed(s[1..]);
      assert s == [s[0]] + s[1..];
    }
  }

  /** The first character of BareDollars(s) is that of s. */
  lemma BareDollarsHead(s: string)
    requires s != []
    ensures BareDollars(s) != [] && BareDollars(s)[0] == s[0]
  {
  }

  lemma {:induction false} BareDollarsKeepsOut(s: string, c: char)
    requires c !in s && c != '$'
    ensures c !in BareDollars(s)
    decreases |s|
  {
    if s != [] {
      if s[0] == '$' {
        var rest := DropDigits(s[1..]);
        assert c !in rest by {
          forall i | 0 <= i < |rest| ensures rest[i] != c {
            assert rest[i] == s[|s| - |rest| + i];
          }
        }
        BareDollarsKeepsOut(rest, c);
      } else {
        assert c !in s[1..] by {
          forall i | 0 <= i < |s[1..]| ensures s[1..][i] != c {
            assert s[1..][i] == s[i + 1];
          }
        }
        BareDollarsKeepsOut(s[1..], c);
      }
    }
  }

  /** Putting a character in front keeps NoDollarDigit unless it is a '$' before a digit. */
  lemma NoDollarDigitCons(c: char, t: string)
    requires NoDollarDigit(t)
    requires c == '$' && t != [] ==> !IsDigit(t[0])
    ensures NoDollarDigit([c] + t)
  {
    var r := [c] + t;
    forall i | 0 <= i < |r| - 1 && r[i] == '$' ensures !IsDigit(r[i + 1]) {
      if i > 0 {
        assert r[i] == t[i - 1] && r[i + 1] == t[i];
      } else {
        assert r[1] == t[0];
      }
    }
  }

  lemma {:induction false} BareDollarsNoDollarDigit(s: string)
    ensures NoDollarDigit(BareDollars(s))
    decreases |s|
  {
    if s != [] {
      if s[0] == '$' {
        var rest := DropDigits(s[1..]);
        BareDollarsNoDollarDigit(rest);
        if rest != [] {
          BareDollarsHead(rest);
        }
        NoDollarDigitCons('$', BareDollars(rest));
      } else {
        BareDollarsNoDollarDigit(s[1..]);
        NoDollarDigitCons(s[0], BareDollars(s[1..]));
      }
    }
  }

  lemma {:induction false} BareDollarsFixed(s: string)
    requires NoDollarDigit(s)
    ensures BareDollars(s) == s
    decreases |s|
  {
    if s != [] {
      assert NoDollarDigit(s[1..]) by {
        forall i | 0 <= i < |s[1..]| - 1 && s[1..][i] == '$' ensures !IsDigit(s[1..][i + 1]) {
          assert s[1..][i] == s[i + 1] && s[1..][i + 1] == s[i + 2];
        }
      }
      if s[0] == '$' {
        assert DropDigits(s[1..]) == s[1..] by {
          if |s| > 1 {
            assert !IsDigit(s[1]);
          }
        }
      }
      BareDollarsFixed(s[1..]);
      assert s == [s[0]] + s[1..];
    }
  }

  /** The tag holds no '?' and no '$' followed by a digit. */
  lemma TagMeaning(clsName: string)
    ensures '?' !in Tag(clsName) && NoDollarDigit(Tag(clsName))
  {
    UnderscoreRunsNoQuestion(clsName);
    BareDollarsKeepsOut(UnderscoreRuns(clsName), '?');
    BareDollarsNoDollarDigit(UnderscoreRuns(clsName));
  }

  /** A class name is its own tag exactly when it has nothing the two rewrites remove. */
  lemma TagFixedPoint(clsName: string)
    ensures Tag(clsName) == clsName <==> '?' !in clsName && NoDollarDigit(clsName)
  {
    TagMeaning(clsName);
    if '?' !in clsName && NoDollarDigit(clsName) {
      UnderscoreRunsFixed(clsName);
      BareDollarsFixed(clsName);
    }
  }

  /** Tagging a tag changes nothing. */
  lemma TagIdempotent(clsName: string)
    ensures Tag(Tag(clsName)) == Tag(clsName)
  {
    TagMeaning(clsName);
    TagFixedPoint(Tag(clsName));
  }

  /** String.lastIndexOf(char): -1 when absent. */
  function LastIndexOf(s: string, c: char): (r: int)
    ensures -1 <= r < |s|
    ensures r >= 0 ==> s[r] == c && forall i :: r < i < |s| ==> s[i] != c
    ensures r == -1 ==> c !in s
  {
    if s == [] then -1
    else if s[|s| - 1] == c then |s| - 1
    else
      var r := LastIndexOf(s[..|s| - 1], c);
      assert forall i :: 0 <= i < |s| - 1 ==> s[..|s| - 1][i] == s[i];
      r
  }

  /** simpleClassName: the tag without the last inner-class part, unless its '$' is at the start or absent. */
  function SimpleClassName(clsName: string): (r: string)
  {
    var t := Tag(clsName);
    var start := LastIndexOf(t, '$');
    if start <= 0 then t else t[..start]
  }

  /**
   * The simple class name is a prefix of the tag. It is the whole tag exactly
   * when no '$' occurs after the first character; otherwise it stops right
   * before the last '$'.
   */
  lemma SimpleClassNameMeaning(clsName: string)
    ensures var t := Tag(clsName); var r := SimpleClassName(clsName);
      && |r| <= |t| && r == t[..|r|]
      && (r == t <==> forall i :: 0 < i < |t| ==> t[i] != '$')
      && (r != t ==> 0 < |r| && t[|r|] == '$' && forall i :: |r| < i < |t| ==> t[i] != '$')
  {
    var t := Tag(clsName);
    var start := LastIndexOf(t, '$');
    if start > 0 {
      assert |t[..start]| < |t|;
    } else {
      assert t[..|t|] == t;
    }
  }

  // ---------------------------------------------------------------------
  // The DOM
  // ---------------------------------------------------------------------

  /**
   * The attributes toDOMElement sets, one field per attribute name ("index",
   * "class", "resource-id", ..., "bounds", "uiElementIndex"). A field of type
   * Option is None when the attribute is not set; `bounds` is always set, and
   * None there is the null value setAttribute is given for missing bounds.
   */
  datatype DomAttributes = DomAttributes(
    index: string,
    className: string,
    resourceId: Option<string>,
    packageName: Option<string>,
    contentDesc: Option<string>,
    text: Option<string>,
    checkable: string,
    checked: string,
    clickable: string,
    enabled: string,
    focusable: string,
    focused: string,
    scrollable: string,
    longClickable: string,
    password: string,
    selectionStart: Option<string>,
    selectionEnd: Option<string>,
    selected: string,
    bounds: Option<string>,
    uiElementIndex: string)

  /**
   * A DOM element, kept as the snapshot element it was built from and the
   * uiElementIndex it was given: its attributes are AttributesOf those two,
   * its tag name the simple class name and its local name (set reflectively)
   * the tag.
   */
  datatype DomElement = DomElement(source: UiElement, uiElementIndex: int, children: seq<DomElement>)
  {
    function Attributes(): DomAttributes
    {
      AttributesOf(source, uiElementIndex)
    }

    function TagName(): string
    {
      SimpleClassName(DomClassName(source))
    }

    function LocalName(): string
    {
      Tag(DomClassName(source))
    }
  }

  /** The string getters of the element: the stored string, or null. */
  function StringAttribute(e: UiElement, a: Attribute): Option<string>
  {
    if a in e.attributes && e.attributes[a].AStr? then Some(e.attributes[a].s) else None
  }

  /** The boolean getters of the element; an attribute the snapshot did not store reads as false. */
  function BoolAttribute(e: UiElement, a: Attribute): bool
  {
    a in e.attributes && e.attributes[a].ABool? && e.attributes[a].b
  }

  function IntAttribute(e: UiElement, a: Attribute): Option<int>
  {
    if a in e.attributes && e.attributes[a].AInt? then Some(e.attributes[a].i) else None
  }

  /** getIndex; an element without a stored index reads as 0. */
  function IndexOf(e: UiElement): int
  {
    if IntAttribute(e, INDEX).Some? then IntAttribute(e, INDEX).value else 0
  }

  predicate HasSelection(e: UiElement)
  {
    IntAttribute(e, SELECTION_START).Some? && IntAttribute(e, SELECTION_END).Some?
  }

  function BoundsString(e: UiElement): Option<string>
  {
    if BOUNDS in e.attributes && e.attributes[BOUNDS].ARect? then Some(RectShortString(e.attributes[BOUNDS].r)) else None
  }

  /** String.valueOf(boolean). */
  function BoolString(b: bool): string
  {
    if b then "true" else "false"
  }

  /** The class name toDOMElement works with: UNKNOWN in place of null. */
  function DomClassName(e: UiElement): string
  {
    if e.ClassName().Some? then e.ClassName().value else UNKNOWN_CLASS_NAME
  }

  /**
   * The attributes toDOMElement sets on the element numbered `uiElementIndex`:
   * the string setter skips null values, the boolean setter always writes,
   * and the selection bounds are written only when there is a selection.
   */
  function AttributesOf(e: UiElement, uiElementIndex: int): (r: DomAttributes)
    ensures r.className == DomClassName(e) && r.uiElementIndex == IntToString(uiElementIndex)
    ensures r.resourceId == StringAttribute(e, RESOURCE_ID) && r.text == StringAttribute(e, TEXT)
    ensures r.selectionStart.Some? <==> HasSelection(e)
    ensures r.selectionEnd.Some? <==> HasSelection(e)
  {
    var selection := HasSelection(e);
    DomAttributes(
      IntToString(IndexOf(e)),
      DomClassName(e),
      StringAttribute(e, RESOURCE_ID),
      StringAttribute(e, PACKAGE),
      StringAttribute(e, CONTENT_DESC),
      StringAttribute(e, TEXT),
      BoolString(BoolAttribute(e, CHECKABLE)),
      BoolString(BoolAttribute(e, CHECKED)),
      BoolString(BoolAttribute(e, CLICKABLE)),
      BoolString(BoolAttribute(e, ENABLED)),
      BoolString(BoolAttribute(e, FOCUSABLE)),
      BoolString(BoolAttribute(e, FOCUSED)),
      BoolString(BoolAttribute(e, SCROLLABLE)),
      BoolString(BoolAttribute(e, LONG_CLICKABLE)),
      BoolString(BoolAttribute(e, PASSWORD)),
      if selection then Some(IntToString(IntAttribute(e, SELECTION_START).value)) else None,
      if selection then Some(IntToString(IntAttribute(e, SELECTION_END).value)) else None,
      BoolString(BoolAttribute(e, SELECTED)),
      BoundsString(e),
      IntToString(uiElementIndex))
  }

  // ---------------------------------------------------------------------
  // toDOMElement as a specification
  // ---------------------------------------------------------------------

  /** The elements toDOMElement records, in the order it records them: pre-order. */
  function Preorder(e: UiElement): (r: seq<UiElement>)
    ensures |r| >= 1 && r[0] == e
    decreases e, 1
  {
    [e] + PreKids(e, |e.GetChildren()|)
  }

  function PreKids(e: UiElement, n: nat): seq<UiElement>
    requires n <= |e.GetChildren()|
    decreases e, 0, n
  {
    if n == 0 then []
    else
      assert e.children.items[n - 1] in e.children.items;
      PreKids(e, n - 1) + Preorder(e.children.items[n - 1])
  }

  /** The DOM element of `e` when the mapping already holds `base` elements. */
  function DomOf(e: UiElement, base: int): DomElement
    decreases e, 1
  {
    DomElement(e, base,
      DomKids(e, base + 1, |e.GetChildren()|))
  }

  /** The DOM elements of the first n children, the first of them numbered `base`. */
  function DomKids(e: UiElement, base: int, n: nat): (r: seq<DomElement>)
    requires n <= |e.GetChildren()|
    ensures |r| == n
    decreases e, 0, n
  {
    if n == 0 then []
    else
      assert e.children.items[n - 1] in e.children.items;
      DomKids(e, base, n - 1) + [DomOf(e.children.items[n - 1], base + |PreKids(e, n - 1)|)]
  }

  /** The DOM elements in document order. */
  function DomPreorder(d: DomElement): (r: seq<DomElement>)
    ensures |r| >= 1 && r[0] == d
    decreases d, 1
  {
    [d] + DomKidsPreorder(d, |d.children|)
  }

  function DomKidsPreorder(d: DomElement, n: nat): seq<DomElement>
    requires n <= |d.children|
    decreases d, 0, n
  {
    if n == 0 then [] else DomKidsPreorder(d, n - 1) + DomPreorder(d.children[n - 1])
  }

  /** The DOM elements of a list of snapshot elements numbered from `base` in list order. */
  function Numbered(elements: seq<UiElement>, base: int): (r: seq<DomElement>)
    ensures |r| == |elements|
  {
    seq(|elements|, i requires 0 <= i < |elements| => DomOf(elements[i], base + i))
  }

  lemma NumberedAt(elements: seq<UiElement>, base: int, i: nat)
    requires i < |elements|
    ensures Numbered(elements, base)[i] == DomOf(elements[i], base + i)
  {
  }

  lemma NumberedConcat(a: seq<UiElement>, b: seq<UiElement>, base: int)
    ensures Numbered(a + b, base) == Numbered(a, base) + Numbered(b, base + |a|)
  {
  }

  lemma DomKidsAt(e: UiElement, base: int, n: nat, k: nat)
    requires k < n <= |e.GetChildren()|
    ensures DomKids(e, base, n)[k] == DomOf(e.GetChildren()[k], base + |PreKids(e, k)|)
    decreases n
  {
    if k < n - 1 {
      DomKidsAt(e, base, n - 1, k);
    }
  }

  /**
   * Document order of the DOM is the mapping's order: the i-th DOM element is
   * the one built from the i-th recorded element, numbered base + i.
   */
  lemma {:induction false} DomPreorderNumbered(e: UiElement, base: int)
    ensures DomPreorder(DomOf(e, base)) == Numbered(Preorder(e), base)
    decreases e, 1
  {
    var n := |e.GetChildren()|;
    DomKidsPreorderNumbered(e, base, n);
    NumberedConcat([e], PreKids(e, n), base);
  }

  lemma {:induction false} DomKidsPreorderNumbered(e: UiElement, base: int, n: nat)
    requires n <= |e.GetChildren()|
    ensures DomKidsPreorder(DomOf(e, base), n) == Numbered(PreKids(e, n), base + 1)
    decreases e, 0, n
  {
    if n > 0 {
      var d := DomOf(e, base);
      var child := e.children.items[n - 1];
      assert child in e.children.items;
      var pre := PreKids(e, n - 1);
      var k := base + 1 + |pre|;
      DomKidsPreorderNumbered(e, base, n - 1);
      DomKidsAt(e, base + 1, |e.GetChildren()|, n - 1);
      DomPreorderNumbered(child, k);
      assert d.children == DomKids(e, base + 1, |e.GetChildren()|);
      assert 0 < n <= |d.children|;
      assert d.children[n - 1] == DomOf(child, k);
      assert DomKidsPreorder(d, n - 1) == Numbered(pre, base + 1);
      assert DomPreorder(DomOf(child, k)) == Numbered(Preorder(child), k);
      KidsPreorderStep(d, n, pre, child, base, k);
      assert PreKids(e, n) == pre + Preorder(child);
    }
  }

  /** One step of DomKidsPreorderNumbered, over an arbitrary parent DOM element. */
  lemma KidsPreorderStep(d: DomElement, n: nat, pre: seq<UiElement>, child: UiElement, base: int, k: int)
    requires 0 < n <= |d.children|
    requires DomKidsPreorder(d, n - 1) == Numbered(pre, base + 1)
    requires d.children[n - 1] == DomOf(child, k) && k == base + 1 + |pre|
    requires DomPreorder(DomOf(child, k)) == Numbered(Preorder(child), k)
    ensures DomKidsPreorder(d, n) == Numbered(pre + Preorder(child), base + 1)
  {
    calc {
      DomKidsPreorder(d, n);
      DomKidsPreorder(d, n - 1) + DomPreorder(d.children[n - 1]);
      Numbered(pre, base + 1) + Numbered(Preorder(child), k);
      { NumberedConcat(pre, Preorder(child), base + 1); }
      Numbered(pre + Preorder(child), base + 1);
    }
  }

  /**
   * Every DOM element carries a distinct uiElementIndex: the i-th in document
   * order is numbered i and was built from the mapping's i-th element.
   */
  lemma DomIndices(e: UiElement)
    ensures var doms := DomPreorder(DomOf(e, 0));
      && |doms| == |Preorder(e)|
      && forall i :: 0 <= i < |doms| ==>
           doms[i] == DomOf(Preorder(e)[i], i)
           && doms[i].Attributes().uiElementIndex == IntToString(i)
  {
    DomPreorderNumbered(e, 0);
    forall i | 0 <= i < |Preorder(e)|
      ensures Numbered(Preorder(e), 0)[i] == DomOf(Preorder(e)[i], i)
    {
      NumberedAt(Preorder(e), 0, i);
    }
  }

  /** The DOM builder's state: the mapping from uiElementIndex to element (the SparseArray). */
  class DomBuilder {
    var mapping: seq<UiElement>

    constructor ()
      ensures mapping == []
    {
      mapping := [];
    }

    /** toDOMElement: the element is numbered with the mapping's size and recorded before its children. */
    method ToDomElement(e: UiElement) returns (element: DomElement)
      modifies this
      ensures element == DomOf(e, |old(mapping)|)
      ensures mapping == old(mapping) + Preorder(e)
      decreases e
    {
      var uiElementIndex := |mapping|;
      mapping := mapping + [e];
      var kids := e.GetChildren();
      var children: seq<DomElement> := [];
      var j := 0;
      while j < |kids|
        invariant 0 <= j <= |kids|
        invariant children == DomKids(e, uiElementIndex + 1, j)
        invariant mapping == old(mapping) + [e] + PreKids(e, j)
      {
        assert kids[j] in e.children.items;
        ghost var before := mapping;
        var child := ToDomElement(kids[j]);
        children := children + [child];
        MappingStep(old(mapping), before, mapping, e, j);
        j := j + 1;
      }
      element := DomElement(e, uiElementIndex, children);
    }
  }

  lemma MappingStep(start: seq<UiElement>, before: seq<UiElement>, after: seq<UiElement>, e: UiElement, j: nat)
    requires j < |e.GetChildren()|
    requires before == start + [e] + PreKids(e, j)
    requires after == before + Preorder(e.GetChildren()[j])
    ensures after == start + [e] + PreKids(e, j + 1)
  {
  }

  // ---------------------------------------------------------------------
  // find
  // ---------------------------------------------------------------------

  /** A node the XPath engine selects: whether it is an element, and its uiElementIndex attribute. */
  datatype SelectedNode = SelectedNode(isElement: bool, uiElementIndex: Option<string>)

  datatype FinderError = InvalidSelector | NumberFormat | NullPointer

  /** The node of the recorded element a selected node names, unless find passes over it. */
  function Lookup(mapping: seq<UiElement>, i: int): Option<UiElement>
  {
    if 0 <= i < |mapping| then Some(mapping[i]) else None
  }

  /** A selected element whose uiElementIndex is not a number. */
  predicate BadIndex(nodes: seq<SelectedNode>, j: int)
    requires 0 <= j < |nodes|
  {
    nodes[j].isElement && nodes[j].uiElementIndex.Some? && ParseInt(nodes[j].uiElementIndex.value).None?
  }

  predicate IsHierarchy(e: UiElement)
  {
    e.ClassName() == Some(HIERARCHY_CLASS_NAME)
  }

  /**
   * The matches find collects from the k-th selected node on: non-elements,
   * nodes without uiElementIndex, numbers naming no element and the hierarchy
   * element are passed over; an index that is not a number fails.
   */
  function Matches(mapping: seq<UiElement>, nodes: seq<SelectedNode>, k: nat): (r: Result<seq<Option<NodeInfo>>, FinderError>)
    requires k <= |nodes|
    ensures r.Err? ==> r.error == NumberFormat
    ensures r.Err? <==> exists j :: k <= j < |nodes| && BadIndex(nodes, j)
    ensures r.Ok? ==> |r.value| <= |nodes| - k
    decreases |nodes| - k
  {
    if k == |nodes| then Ok([])
    else if !nodes[k].isElement || nodes[k].uiElementIndex.None? then Matches(mapping, nodes, k + 1)
    else match ParseInt(nodes[k].uiElementIndex.value)
      case None => assert BadIndex(nodes, k); Err(NumberFormat)
      case Some(i) =>
        if Lookup(mapping, i).None? || IsHierarchy(Lookup(mapping, i).value) then Matches(mapping, nodes, k + 1)
        else match Matches(mapping, nodes, k + 1)
          case Err(err) => Err(err)
          case Ok(rest) => Ok([mapping[i].node] + rest)
  }

  /**
   * find as written: `getClassName().equals("hierarchy")` is called on the
   * element, whose class name is null when its node had none.
   */
  function MatchesAsWritten(mapping: seq<UiElement>, nodes: seq<SelectedNode>, k: nat)
    : (r: Result<seq<Option<NodeInfo>>, FinderError>)
    requires k <= |nodes|
    ensures r.Err? ==> r.error == NumberFormat || r.error == NullPointer
    ensures r != Err(NullPointer) ==> r == Matches(mapping, nodes, k)
    decreases |nodes| - k
  {
    if k == |nodes| then Ok([])
    else if !nodes[k].isElement || nodes[k].uiElementIndex.None? then MatchesAsWritten(mapping, nodes, k + 1)
    else match ParseInt(nodes[k].uiElementIndex.value)
      case None => Err(NumberFormat)
      case Some(i) =>
        if Lookup(mapping, i).None? then MatchesAsWritten(mapping, nodes, k + 1)
        else if mapping[i].ClassName().None? then Err(NullPointer)
        else if IsHierarchy(mapping[i]) then MatchesAsWritten(mapping, nodes, k + 1)
        else match MatchesAsWritten(mapping, nodes, k + 1)
          case Err(err) => Err(err)
          case Ok(rest) => Ok([mapping[i].node] + rest)
  }

  /** An element whose node has no class name: its DOM element is UNKNOWN. */
  function NamelessElement(node: NodeInfo): UiElement
  {
    UiElement(Some(node), map[INDEX := AInt(0)], true, None, NoList)
  }

  /** An element without a class name is written to the DOM as UNKNOWN, so //UNKNOWN selects it. */
  lemma NamelessIsUnknown(node: NodeInfo)
    ensures DomOf(NamelessElement(node), 0).TagName() == UNKNOWN_CLASS_NAME
  {
    UnknownIsOwnName();
    assert CLASS !in NamelessElement(node).attributes;
  }

  /** A class name without '?' and '$' is its own simple class name. */
  lemma PlainClassName(s: string)
    requires '?' !in s && '$' !in s
    ensures SimpleClassName(s) == s
  {
    UnderscoreRunsFixed(s);
    BareDollarsFixed(s);
  }

  lemma UnknownIsOwnName()
    ensures SimpleClassName(UNKNOWN_CLASS_NAME) == UNKNOWN_CLASS_NAME
  {
    PlainClassName(UNKNOWN_CLASS_NAME);
  }

  /**
   * Once //UNKNOWN has selected the element with a null class name, find as
   * written fails on it, where returning its node is evidently meant.
   */
  lemma NullClassNameCounterexample(node: NodeInfo)
    ensures var nodes := [SelectedNode(true, Some(IntToString(0)))];
      && MatchesAsWritten([NamelessElement(node)], nodes, 0) == Err(NullPointer)
      && Matches([NamelessElement(node)], nodes, 0) == Ok([Some(node)])
  {
    ParseIntToString(0);
    var e := NamelessElement(node);
    var nodes := [SelectedNode(true, Some(IntToString(0)))];
    assert CLASS !in e.attributes;
    assert e.ClassName().None? && !IsHierarchy(e);
    assert Matches([e], nodes, 1) == Ok([]);
    assert [e.node] + [] == [Some(node)];
  }

  /** `x` is the node of a recorded element other than the hierarchy element. */
  predicate RecordedNode(mapping: seq<UiElement>, x: Option<NodeInfo>)
  {
    exists i :: 0 <= i < |mapping| && !IsHierarchy(mapping[i]) && mapping[i].node == x
  }

  /** Every match is the node of a recorded element that is not the hierarchy element. */
  lemma {:induction false} MatchesFromMapping(mapping: seq<UiElement>, nodes: seq<SelectedNode>, k: nat)
    requires k <= |nodes|
    ensures var r := Matches(mapping, nodes, k);
      r.Ok? ==> (|r.value| <= |nodes| - k && forall j :: 0 <= j < |r.value| ==> RecordedNode(mapping, r.value[j]))
    decreases |nodes| - k
  {
    if k < |nodes| {
      MatchesFromMapping(mapping, nodes, k + 1);
      var r := Matches(mapping, nodes, k);
      var rest := Matches(mapping, nodes, k + 1);
      if !nodes[k].isElement || nodes[k].uiElementIndex.None? {
        assert r == rest;
      } else if ParseInt(nodes[k].uiElementIndex.value).Some? {
        var i := ParseInt(nodes[k].uiElementIndex.value).value;
        if Lookup(mapping, i).None? || IsHierarchy(Lookup(mapping, i).value) {
          assert r == rest;
        } else if rest.Ok? {
          assert r.value == [mapping[i].node] + rest.value;
          assert RecordedNode(mapping, mapping[i].node);
          forall j | 0 <= j < |r.value|
            ensures RecordedNode(mapping, r.value[j])
          {
            if j > 0 {
              assert r.value[j] == rest.value[j - 1];
            }
          }
        }
      }
    }
  }

  /**
   * Selected nodes carrying numbers find wrote itself (those of DomIndices,
   * when the tree has at most 2^31 elements) always resolve, each to the
   * recorded element it numbers: find fails only on index values that are not
   * its own.
   */
  lemma {:induction false} MatchesOfOwnIndices(mapping: seq<UiElement>, picks: seq<nat>, nodes: seq<SelectedNode>, k: nat)
    requires k <= |nodes| == |picks| && |mapping| <= INT_MAX + 1
    requires forall j :: 0 <= j < |picks| ==> picks[j] < |mapping|
    requires forall j :: 0 <= j < |nodes| ==> nodes[j] == SelectedNode(true, Some(IntToString(picks[j])))
    ensures Matches(mapping, nodes, k).Ok?
    ensures Matches(mapping, nodes, k).value == MatchedNodes(mapping, picks[k..])
    decreases |nodes| - k
  {
    if k < |nodes| {
      ParseIntToString(picks[k]);
      MatchesOfOwnIndices(mapping, picks, nodes, k + 1);
      assert picks[k..][1..] == picks[k + 1..];
    }
  }

  /** The nodes of the picked elements, leaving out the hierarchy element. */
  function MatchedNodes(mapping: seq<UiElement>, picks: seq<nat>): seq<Option<NodeInfo>>
    requires forall j :: 0 <= j < |picks| ==> picks[j] < |mapping|
  {
    if picks == [] then []
    else (if IsHierarchy(mapping[picks[0]]) then [] else [mapping[picks[0]].node]) + MatchedNodes(mapping, picks[1..])
  }

  lemma PrependNothing(r: Result<seq<Option<NodeInfo>>, FinderError>)
    ensures Prepend([], r) == r
  {
    if r.Ok? {
      assert [] + r.value == r.value;
    }
  }

  function Prepend(acc: seq<Option<NodeInfo>>, r: Result<seq<Option<NodeInfo>>, FinderError>): Result<seq<Option<NodeInfo>>, FinderError>
  {
    match r
    case Err(err) => Err(err)
    case Ok(rest) => Ok(acc + rest)
  }

  /** A node that is not an element with an index adds nothing. */
  lemma MatchSkip(mapping: seq<UiElement>, nodes: seq<SelectedNode>, k: nat, acc: seq<Option<NodeInfo>>)
    requires k < |nodes| && (!nodes[k].isElement || nodes[k].uiElementIndex.None?)
    ensures Prepend(acc, Matches(mapping, nodes, k)) == Prepend(acc, Matches(mapping, nodes, k + 1))
  {
  }

  /** An element whose index does not parse ends the search with NumberFormat. */
  lemma MatchUnparsed(mapping: seq<UiElement>, nodes: seq<SelectedNode>, k: nat, acc: seq<Option<NodeInfo>>)
    requires k < |nodes| && nodes[k].isElement && nodes[k].uiElementIndex.Some?
    requires ParseInt(nodes[k].uiElementIndex.value).None?
    ensures Prepend(acc, Matches(mapping, nodes, k)) == Err(NumberFormat)
  {
  }

  /** An element with index i adds the node at i, unless i is out of the mapping or names the hierarchy. */
  lemma MatchIndexed(mapping: seq<UiElement>, nodes: seq<SelectedNode>, k: nat, acc: seq<Option<NodeInfo>>, i: int)
    requires k < |nodes| && nodes[k].isElement && nodes[k].uiElementIndex.Some?
    requires ParseInt(nodes[k].uiElementIndex.value) == Some(i)
    ensures !(0 <= i < |mapping|) || IsHierarchy(mapping[i]) ==>
      Prepend(acc, Matches(mapping, nodes, k)) == Prepend(acc, Matches(mapping, nodes, k + 1))
    ensures 0 <= i < |mapping| && !IsHierarchy(mapping[i]) ==>
      Prepend(acc, Matches(mapping, nodes, k)) == Prepend(acc + [mapping[i].node], Matches(mapping, nodes, k + 1))
  {
    var rest := Matches(mapping, nodes, k + 1);
    if rest.Ok? && 0 <= i < |mapping| && !IsHierarchy(mapping[i]) {
      assert acc + ([mapping[i].node] + rest.value) == acc + [mapping[i].node] + rest.value;
    }
  }

  /** The loop of find over the selected nodes. */
  method CollectMatches(uiElementsMapping: seq<UiElement>, nodes: seq<SelectedNode>) returns (r: Result<seq<Option<NodeInfo>>, FinderError>)
    ensures r == Matches(uiElementsMapping, nodes, 0)
  {
    var matchesList: seq<Option<NodeInfo>> := [];
    PrependNothing(Matches(uiElementsMapping, nodes, 0));
    var i := 0;
    while i < |nodes|
      invariant 0 <= i <= |nodes|
      invariant Matches(uiElementsMapping, nodes, 0) == Prepend(matchesList, Matches(uiElementsMapping, nodes, i))
    {
      if !nodes[i].isElement || nodes[i].uiElementIndex.None? {
        MatchSkip(uiElementsMapping, nodes, i, matchesList);
        i := i + 1;
        continue;
      }
      var parsed := ParseInt(nodes[i].uiElementIndex.value);
      if parsed.None? {
        MatchUnparsed(uiElementsMapping, nodes, i, matchesList);
        return Err(NumberFormat);
      }
      var index := parsed.value;
      MatchIndexed(uiElementsMapping, nodes, i, matchesList, index);
      if 0 <= index < |uiElementsMapping| && !IsHierarchy(uiElementsMapping[index]) {
        matchesList := matchesList + [uiElementsMapping[index].node];
      }
      i := i + 1;
    }
    assert matchesList + [] == matchesList;
    return Ok(matchesList);
  }

  /**
   * find: the DOM of the context element is built with a fresh mapping; a
   * selector the XPath compiler refuses is an InvalidSelector error; otherwise
   * the nodes `evaluate` selects are resolved as Matches describes.
   */
  method Find(context: UiElement, selectorCompiles: bool, evaluate: DomElement -> seq<SelectedNode>)
    returns (r: Result<seq<Option<NodeInfo>>, FinderError>)
    ensures !selectorCompiles ==> r == Err(InvalidSelector)
    ensures selectorCompiles ==> r == Matches(Preorder(context), evaluate(DomOf(context, 0)), 0)
  {
    var builder := new DomBuilder();
    var domNode := builder.ToDomElement(context);
    if !selectorCompiles {
      return Err(InvalidSelector);
    }
    assert builder.mapping == Preorder(context);
    var nodes := evaluate(domNode);
    r := CollectMatches(builder.mapping, nodes);
  }
}
