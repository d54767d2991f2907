/**
 * The attribute snapshot tree of the page source (UiAutomationElement). Each
 * element copies the attributes of an AccessibilityNodeInfo when it is built
 * and never changes afterwards, so an element is a value. Building the tree
 * goes through a node-keyed cache that rebuildForNewRoot clears, so the builder
 * is a class holding that cache.
 *
 * A parent is known to its children only through the bounds of the ancestors'
 * nodes (`chain`, parent first; None for the synthetic root, which has no node).
 */
module UiAutomationElement {
  import opened Common
  import opened Accessibility
  import AccessibilityNodeInfoHelpers

  const HIERARCHY_CLASS_NAME := "hierarchy"
  const TOAST_CLASS_NAME := "android.widget.Toast"
  const TOAST_PACKAGE_NAME := "com.android.settings"

  /** The identity given to the nodes created for toast messages. */
  const TOAST_NODE_ID := -1

  /** A list of child elements that may itself be null. */
  datatype Children = NoList | List(items: seq<UiElement>)

  datatype UiElement = UiElement(
    node: Option<NodeInfo>,
    attributes: map<Attribute, AValue>,
    visible: bool,
    visibleBounds: Option<Rect>,
    children: Children)
  {
    /** getChildren: an element without children reports the empty list. */
    function GetChildren(): seq<UiElement>
    {
      if children.NoList? then [] else children.items
    }

    /** getClassName: the CLASS attribute, if stored. */
    function ClassName(): Option<string>
    {
      if CLASS in attributes && attributes[CLASS].AStr? then Some(attributes[CLASS].s) else None
    }
  }

  // ---------------------------------------------------------------------
  // Attribute snapshot
  // ---------------------------------------------------------------------

  /**
   * The text selection the snapshot stores: the range getSelectionRange
   * answers for the node, None when it answers null or refuses the range.
   */
  function Selection(node: NodeInfo): Option<(int, int)>
  {
    match AccessibilityNodeInfoHelpers.GetSelectionRange(Some(node))
    case Ok(Some(range)) => Some((range.lower, range.upper))
    case _ => None
  }

  /**
   * A start after a non-negative end: getSelectionRange's Range constructor
   * throws IllegalArgumentException, so the element constructor does too.
   */
  predicate BackwardsSelection(node: NodeInfo)
  {
    AccessibilityNodeInfoHelpers.GetSelectionRange(Some(node)).Err?
  }

  /** A string value as put() receives it: null is not stored. */
  function StringValue(value: Option<string>): Option<AValue>
  {
    if value.Some? then Some(AStr(value.value)) else None
  }

  /** The value the element constructor puts for an attribute, None where it stores nothing. */
  function AttributeValue(node: NodeInfo, index: int, a: Attribute): Option<AValue>
  {
    var f := node.flags;
    match a
    case INDEX => Some(AInt(index))
    case PACKAGE => StringValue(node.packageName)
    case CLASS => StringValue(node.className)
    case TEXT => StringValue(node.text)
    case CONTENT_DESC => StringValue(node.contentDescription)
    case RESOURCE_ID => StringValue(node.viewIdResourceName)
    case CHECKABLE => Some(ABool(f.checkable))
    case CHECKED => Some(ABool(f.checked))
    case CLICKABLE => Some(ABool(f.clickable))
    case ENABLED => Some(ABool(f.enabled))
    case FOCUSABLE => Some(ABool(f.focusable))
    case FOCUSED => Some(ABool(f.focused))
    case LONG_CLICKABLE => Some(ABool(f.longClickable))
    case PASSWORD => Some(ABool(f.password))
    case SCROLLABLE => Some(ABool(f.scrollable))
    case SELECTION_START => if Selection(node).Some? then Some(AInt(Selection(node).value.0)) else None
    case SELECTION_END => if Selection(node).Some? then Some(AInt(Selection(node).value.1)) else None
    case SELECTED => Some(ABool(f.selected))
    case BOUNDS => Some(ARect(node.boundsInScreen))
  }

  lemma AllAttributesListed(a: Attribute)
    ensures a in AllAttributes
  {
  }

  /** The attributes copied by the element constructor. */
  function SnapshotAttributes(node: NodeInfo, index: int): map<Attribute, AValue>
  {
    map a | a in AllAttributes && AttributeValue(node, index, a).Some? :: AttributeValue(node, index, a).value
  }

  /** The string attributes and where the constructor takes them from. */
  function StringSource(node: NodeInfo, a: Attribute): Option<string>
  {
    match a
    case PACKAGE => node.packageName
    case CLASS => node.className
    case TEXT => node.text
    case CONTENT_DESC => node.contentDescription
    case RESOURCE_ID => node.viewIdResourceName
    case _ => None
  }

  predicate IsStringAttribute(a: Attribute)
  {
    a == PACKAGE || a == CLASS || a == TEXT || a == CONTENT_DESC || a == RESOURCE_ID
  }

  /** put() semantics: an attribute is stored exactly when its value is not null, and with that value. */
  lemma SnapshotAttributeAt(node: NodeInfo, index: int, a: Attribute)
    ensures a in SnapshotAttributes(node, index) <==> AttributeValue(node, index, a).Some?
    ensures a in SnapshotAttributes(node, index) ==> SnapshotAttributes(node, index)[a] == AttributeValue(node, index, a).value
  {
    AllAttributesListed(a);
  }

  lemma StringAttributeAt(node: NodeInfo, index: int, a: Attribute)
    requires IsStringAttribute(a)
    ensures a in SnapshotAttributes(node, index) <==> StringSource(node, a).Some?
    ensures a in SnapshotAttributes(node, index) ==> SnapshotAttributes(node, index)[a] == AStr(StringSource(node, a).value)
  {
    assert AttributeValue(node, index, a) == StringValue(StringSource(node, a));
    SnapshotAttributeAt(node, index, a);
  }

  lemma SelectionAttributesAt(node: NodeInfo, index: int)
    ensures Selection(node).Some? <==> 0 <= node.textSelectionStart < node.textSelectionEnd
    ensures BackwardsSelection(node) <==> 0 <= node.textSelectionStart && node.textSelectionEnd < node.textSelectionStart
    ensures var m := SnapshotAttributes(node, index);
      && (SELECTION_START in m <==> Selection(node).Some?)
      && (SELECTION_END in m <==> Selection(node).Some?)
      && (Selection(node).Some? ==>
            m[SELECTION_START] == AInt(node.textSelectionStart) && m[SELECTION_END] == AInt(node.textSelectionEnd))
  {
    SnapshotAttributeAt(node, index, SELECTION_START);
    SnapshotAttributeAt(node, index, SELECTION_END);
  }

  /**
   * The snapshot stores its raw index, a string attribute exactly when the node's
   * value is not null, the selection bounds exactly when a selection exists,
   * and the bounds as the node reports them.
   */
  lemma SnapshotAttributesMeaning(node: NodeInfo, index: int)
    ensures var m := SnapshotAttributes(node, index);
      && INDEX in m && m[INDEX] == AInt(index)
      && (forall a :: IsStringAttribute(a) ==> (a in m <==> StringSource(node, a).Some?))
      && (forall a :: IsStringAttribute(a) && a in m ==> m[a] == AStr(StringSource(node, a).value))
      && (SELECTION_START in m <==> Selection(node).Some?)
      && (SELECTION_END in m <==> Selection(node).Some?)
      && (Selection(node).Some? ==>
            m[SELECTION_START] == AInt(Selection(node).value.0) && m[SELECTION_END] == AInt(Selection(node).value.1))
      && BOUNDS in m && m[BOUNDS] == ARect(node.boundsInScreen)
  {
    SnapshotAttributeAt(node, index, INDEX);
    SnapshotAttributeAt(node, index, BOUNDS);
    SelectionAttributesAt(node, index);
    forall a | IsStringAttribute(a)
      ensures a in SnapshotAttributes(node, index) <==> StringSource(node, a).Some?
      ensures a in SnapshotAttributes(node, index) ==> SnapshotAttributes(node, index)[a] == AStr(StringSource(node, a).value)
    {
      StringAttributeAt(node, index, a);
    }
  }

  // ---------------------------------------------------------------------
  // getVisibleBounds
  // ---------------------------------------------------------------------

  /** The number of ancestors the loop visits: those before the first without a node. */
  function Run(chain: seq<Option<Rect>>): (n: nat)
    ensures n <= |chain|
    ensures forall j :: 0 <= j < n ==> chain[j].Some?
    ensures n < |chain| ==> chain[n].None?
  {
    if chain == [] || chain[0].None? then 0 else 1 + Run(chain[1..])
  }

  /** The loop as written: every iteration intersects with the bounds of `this.parent.node`. */
  function AsWrittenFrom(vb: Rect, chain: seq<Option<Rect>>, i: nat): Rect
    requires i <= |chain| && (i > 0 ==> chain[0].Some?)
    decreases |chain| - i
  {
    if i < |chain| && chain[i].Some? then AsWrittenFrom(Intersect(vb, chain[0].value), chain, i + 1) else vb
  }

  /** getVisibleBounds as written: the empty rect when invisible, otherwise the loop from the node's bounds. */
  function VisibleBoundsAsWritten(visible: bool, bounds: Rect, chain: seq<Option<Rect>>): Rect
  {
    if !visible then EmptyRect else AsWrittenFrom(bounds, chain, 0)
  }

  /** getVisibleBounds as the source runs it: intersect a Rect in place while ancestors with a node remain. */
  method GetVisibleBoundsAsWritten(visible: bool, bounds: Rect, chain: seq<Option<Rect>>) returns (vb: Rect)
    ensures vb == VisibleBoundsAsWritten(visible, bounds, chain)
  {
    if !visible {
      return EmptyRect;
    }
    vb := bounds;
    var i := 0;
    while i < |chain| && chain[i].Some?
      invariant 0 <= i <= |chain| && (i > 0 ==> chain[0].Some?)
      invariant AsWrittenFrom(bounds, chain, 0) == AsWrittenFrom(vb, chain, i)
      decreases |chain| - i
    {
      var parentBounds := chain[0].value;
      vb := Intersect(vb, parentBounds);
      i := i + 1;
    }
  }

  lemma {:induction false} AsWrittenStays(vb: Rect, chain: seq<Option<Rect>>, i: nat)
    requires 0 < i <= |chain| && chain[0].Some? && Intersect(vb, chain[0].value) == vb
    ensures AsWrittenFrom(vb, chain, i) == vb
    decreases |chain| - i
  {
    if i < |chain| && chain[i].Some? {
      AsWrittenStays(vb, chain, i + 1);
    }
  }

  /** As written, only the immediate parent clips: the grandparent and further ancestors change nothing. */
  lemma AsWrittenImmediateParentOnly(bounds: Rect, chain: seq<Option<Rect>>)
    ensures VisibleBoundsAsWritten(true, bounds, chain)
      == if chain != [] && chain[0].Some? then Intersect(bounds, chain[0].value) else bounds
  {
    if chain != [] && chain[0].Some? {
      IntersectIdempotent(bounds, chain[0].value);
      AsWrittenStays(Intersect(bounds, chain[0].value), chain, 1);
    }
  }

  /** The evidently intended loop: iteration i intersects with the bounds of the i-th ancestor. */
  function IntendedFrom(vb: Rect, chain: seq<Option<Rect>>, i: nat): Rect
    requires i <= |chain|
    decreases |chain| - i
  {
    if i < |chain| && chain[i].Some? then IntendedFrom(Intersect(vb, chain[i].value), chain, i + 1) else vb
  }

  /** The visible bounds the snapshot stores: clipped by every ancestor that has a node. */
  function VisibleBounds(visible: bool, bounds: Rect, chain: seq<Option<Rect>>): Rect
  {
    if !visible then EmptyRect else IntendedFrom(bounds, chain, 0)
  }

  /** The intended loop, intersecting with each ancestor's bounds in turn. */
  method GetVisibleBounds(visible: bool, bounds: Rect, chain: seq<Option<Rect>>) returns (vb: Rect)
    ensures vb == VisibleBounds(visible, bounds, chain)
  {
    if !visible {
      return EmptyRect;
    }
    vb := bounds;
    var i := 0;
    while i < |chain| && chain[i].Some?
      invariant 0 <= i <= |chain|
      invariant IntendedFrom(bounds, chain, 0) == IntendedFrom(vb, chain, i)
      decreases |chain| - i
    {
      var ancestorBounds := chain[i].value;
      vb := Intersect(vb, ancestorBounds);
      i := i + 1;
    }
  }

  lemma {:induction false} IntendedFromCovers(vb: Rect, chain: seq<Option<Rect>>, i: nat, x0: int, y0: int, x: int, y: int)
    requires i <= Run(chain)
    requires Covers(vb, x0, y0) && forall j :: i <= j < Run(chain) ==> Covers(chain[j].value, x0, y0)
    ensures Covers(IntendedFrom(vb, chain, i), x, y) <==>
      Covers(vb, x, y) && forall j :: i <= j < Run(chain) ==> Covers(chain[j].value, x, y)
    decreases |chain| - i
  {
    if i < Run(chain) {
      var next := Intersect(vb, chain[i].value);
      assert Intersects(vb, chain[i].value) by {
        assert Covers(vb, x0, y0) && Covers(chain[i].value, x0, y0);
      }
      IntendedFromCovers(next, chain, i + 1, x0, y0, x, y);
    }
  }

  /**
   * The intended visible bounds of a visible element: when the element and all
   * ancestors with a node share a point, a point is visible exactly when it
   * lies in the element and in every such ancestor.
   */
  lemma VisibleBoundsClipsAllAncestors(bounds: Rect, chain: seq<Option<Rect>>, x0: int, y0: int, x: int, y: int)
    requires Covers(bounds, x0, y0) && forall j :: 0 <= j < Run(chain) ==> Covers(chain[j].value, x0, y0)
    ensures Covers(VisibleBounds(true, bounds, chain), x, y) <==>
      Covers(bounds, x, y) && forall j :: 0 <= j < Run(chain) ==> Covers(chain[j].value, x, y)
  {
    IntendedFromCovers(bounds, chain, 0, x0, y0, x, y);
  }

  /** An element, a parent of the same size, and a smaller grandparent: as written the grandparent is ignored. */
  lemma VisibleBoundsCounterexample()
    ensures VisibleBoundsAsWritten(true, Rect(0, 0, 100, 100), [Some(Rect(0, 0, 100, 100)), Some(Rect(0, 0, 50, 50)), None])
      == Rect(0, 0, 100, 100)
    ensures VisibleBounds(true, Rect(0, 0, 100, 100), [Some(Rect(0, 0, 100, 100)), Some(Rect(0, 0, 50, 50)), None])
      == Rect(0, 0, 50, 50)
  {
    AsWrittenImmediateParentOnly(Rect(0, 0, 100, 100), [Some(Rect(0, 0, 100, 100)), Some(Rect(0, 0, 50, 50)), None]);
  }

  // ---------------------------------------------------------------------
  // The snapshot tree, without the cache
  // ---------------------------------------------------------------------

  /** buildChildren keeps a raw child when it is not null and is visible or invisible elements are allowed. */
  predicate Kept(child: Option<NodeInfo>, allowInvisible: bool)
  {
    child.Some? && (child.value.visibleToUser || allowInvisible)
  }

  /** The element the constructor builds for a node when no descendant is found in the cache. */
  function Snapshot(node: NodeInfo, chain: seq<Option<Rect>>, index: int, allowInvisible: bool): UiElement
    decreases node, 1
  {
    UiElement(
      Some(node), SnapshotAttributes(node, index), node.visibleToUser,
      Some(VisibleBounds(node.visibleToUser, node.boundsInScreen, chain)),
      if |node.children| == 0 then NoList
      else List(SnapChildren(node, [Some(node.boundsInScreen)] + chain, allowInvisible, |node.children|)))
  }

  /** The kept children among the first n raw children, each built with its raw position as index. */
  function SnapChildren(node: NodeInfo, chain: seq<Option<Rect>>, allowInvisible: bool, n: nat): seq<UiElement>
    requires n <= |node.children|
    decreases node, 0, n
  {
    if n == 0 then []
    else
      var child := node.children[n - 1];
      SnapChildren(node, chain, allowInvisible, n - 1)
        + if Kept(child, allowInvisible) then [Snapshot(child.value, chain, n - 1, allowInvisible)] else []
  }

  /** The raw positions of the kept children among the first n. */
  function KeptPositions(node: NodeInfo, allowInvisible: bool, n: nat): (ps: seq<nat>)
    requires n <= |node.children|
    ensures forall i: nat :: i in ps <==> i < n && Kept(node.children[i], allowInvisible)
    ensures forall a, b :: 0 <= a < b < |ps| ==> ps[a] < ps[b]
    ensures forall a :: 0 <= a < |ps| ==> ps[a] < n
  {
    if n == 0 then []
    else KeptPositions(node, allowInvisible, n - 1) + if Kept(node.children[n - 1], allowInvisible) then [n - 1] else []
  }

  /** cs[j] is the snapshot of the raw child at position ps[j], for every j. */
  predicate SnapshotsAt(node: NodeInfo, chain: seq<Option<Rect>>, allowInvisible: bool, cs: seq<UiElement>, ps: seq<nat>)
  {
    && |cs| == |ps|
    && forall j :: 0 <= j < |cs| ==>
         ps[j] < |node.children| && node.children[ps[j]].Some?
         && cs[j] == Snapshot(node.children[ps[j]].value, chain, ps[j], allowInvisible)
  }

  lemma SnapshotsAtSnoc(node: NodeInfo, chain: seq<Option<Rect>>, allowInvisible: bool, cs: seq<UiElement>, ps: seq<nat>, p: nat)
    requires SnapshotsAt(node, chain, allowInvisible, cs, ps)
    requires p < |node.children| && node.children[p].Some?
    ensures SnapshotsAt(node, chain, allowInvisible, cs + [Snapshot(node.children[p].value, chain, p, allowInvisible)], ps + [p])
  {
    var cs' := cs + [Snapshot(node.children[p].value, chain, p, allowInvisible)];
    var ps' := ps + [p];
    forall j | 0 <= j < |cs'|
      ensures ps'[j] < |node.children| && node.children[ps'[j]].Some?
      ensures cs'[j] == Snapshot(node.children[ps'[j]].value, chain, ps'[j], allowInvisible)
    {
      if j < |cs| {
        assert cs'[j] == cs[j] && ps'[j] == ps[j];
      }
    }
  }

  lemma {:induction false} SnapChildrenAt(node: NodeInfo, chain: seq<Option<Rect>>, allowInvisible: bool, n: nat)
    requires n <= |node.children|
    ensures SnapshotsAt(node, chain, allowInvisible, SnapChildren(node, chain, allowInvisible, n), KeptPositions(node, allowInvisible, n))
  {
    if n > 0 {
      SnapChildrenAt(node, chain, allowInvisible, n - 1);
      var child := node.children[n - 1];
      var cs := SnapChildren(node, chain, allowInvisible, n - 1);
      var ps := KeptPositions(node, allowInvisible, n - 1);
      if Kept(child, allowInvisible) {
        assert SnapChildren(node, chain, allowInvisible, n) == cs + [Snapshot(child.value, chain, n - 1, allowInvisible)];
        assert KeptPositions(node, allowInvisible, n) == ps + [n - 1];
        SnapshotsAtSnoc(node, chain, allowInvisible, cs, ps, n - 1);
      } else {
        assert SnapChildren(node, chain, allowInvisible, n) == cs;
        assert KeptPositions(node, allowInvisible, n) == ps;
      }
    }
  }

  /**
   * The children of a snapshot are exactly the kept raw children, in raw order,
   * and the j-th of them is built with the raw position of that child as its
   * index, not with j.
   */
  lemma SnapChildrenMeaning(node: NodeInfo, chain: seq<Option<Rect>>, allowInvisible: bool, n: nat)
    requires n <= |node.children|
    ensures var cs := SnapChildren(node, chain, allowInvisible, n);
      var ps := KeptPositions(node, allowInvisible, n);
      && |cs| == |ps|
      && forall j :: 0 <= j < |cs| ==>
           node.children[ps[j]].Some? && cs[j] == Snapshot(node.children[ps[j]].value, chain, ps[j], allowInvisible)
  {
    SnapChildrenAt(node, chain, allowInvisible, n);
  }

  /** A node with no children gets null children, which getChildren reports as the empty list. */
  lemma ChildlessSnapshot(node: NodeInfo, chain: seq<Option<Rect>>, index: int, allowInvisible: bool)
    ensures Snapshot(node, chain, index, allowInvisible).children.NoList? <==> |node.children| == 0
    ensures |node.children| == 0 ==> Snapshot(node, chain, index, allowInvisible).GetChildren() == []
  {
  }

  /** The kept child j carries the INDEX of its raw position. */
  lemma ChildIndexIsRawPosition(node: NodeInfo, chain: seq<Option<Rect>>, index: int, allowInvisible: bool, j: nat)
    requires j < |KeptPositions(node, allowInvisible, |node.children|)|
    ensures var kids := Snapshot(node, chain, index, allowInvisible).GetChildren();
      && j < |kids| && INDEX in kids[j].attributes
      && kids[j].attributes[INDEX] == AInt(KeptPositions(node, allowInvisible, |node.children|)[j])
  {
    var chain' := [Some(node.boundsInScreen)] + chain;
    SnapChildrenMeaning(node, chain', allowInvisible, |node.children|);
    var p := KeptPositions(node, allowInvisible, |node.children|)[j];
    SnapshotAttributesMeaning(node.children[p].value, p);
  }

  // ---------------------------------------------------------------------
  // The builder with its cache, as a specification
  // ---------------------------------------------------------------------

  /** What building an element answers: the element, or getSelectionRange's IllegalArgumentException. */
  type Built<T> = Result<T, AccessibilityNodeInfoHelpers.HelperError>

  /**
   * The element constructor: the snapshot of a node, building its children
   * through the cache. A backwards selection throws at the attribute copy,
   * before any child is built; a child that throws ends the construction.
   */
  function Build(node: NodeInfo, chain: seq<Option<Rect>>, index: int, allowInvisible: bool, cache: map<int, UiElement>)
    : (Built<UiElement>, map<int, UiElement>)
    decreases node, 2
  {
    if BackwardsSelection(node) then (Err(AccessibilityNodeInfoHelpers.IllegalArgument), cache)
    else
      var kids := if |node.children| == 0 then (Ok([]), cache)
        else BuildChildren(node, [Some(node.boundsInScreen)] + chain, allowInvisible, cache, |node.children|);
      if kids.0.Err? then (Err(kids.0.error), kids.1)
      else
        (Ok(UiElement(
           Some(node), SnapshotAttributes(node, index), node.visibleToUser,
           Some(VisibleBounds(node.visibleToUser, node.boundsInScreen, chain)),
           if |node.children| == 0 then NoList else List(kids.0.value))),
         kids.1)
  }

  /** buildChildren over the first n raw children; the first child that throws ends the loop. */
  function BuildChildren(node: NodeInfo, chain: seq<Option<Rect>>, allowInvisible: bool, cache: map<int, UiElement>, n: nat)
    : (Built<seq<UiElement>>, map<int, UiElement>)
    requires n <= |node.children|
    decreases node, 1, n
  {
    if n == 0 then (Ok([]), cache)
    else
      var prev := BuildChildren(node, chain, allowInvisible, cache, n - 1);
      var child := node.children[n - 1];
      if prev.0.Err? || !Kept(child, allowInvisible) then prev
      else
        var made := GetOrCreate(child.value, chain, n - 1, allowInvisible, prev.1);
        if made.0.Err? then (Err(made.0.error), made.1) else (Ok(prev.0.value + [made.0.value]), made.1)
  }

  /**
   * getOrCreateElement: the cached element for a node already seen, or a new
   * one, which is cached once it is built (a construction that throws caches
   * nothing for this node).
   */
  function GetOrCreate(raw: NodeInfo, chain: seq<Option<Rect>>, index: int, allowInvisible: bool, cache: map<int, UiElement>)
    : (Built<UiElement>, map<int, UiElement>)
    decreases raw, 3
  {
    if raw.id in cache then (Ok(cache[raw.id]), cache)
    else
      var made := Build(raw, chain, index, allowInvisible, cache);
      if made.0.Err? then made else (made.0, made.1[raw.id := made.0.value])
  }

  /** A backwards selection throws before anything is built or cached. */
  lemma BackwardsSelectionThrows(node: NodeInfo, chain: seq<Option<Rect>>, index: int, allowInvisible: bool, cache: map<int, UiElement>)
    requires 0 <= node.textSelectionStart && node.textSelectionEnd < node.textSelectionStart
    ensures Build(node, chain, index, allowInvisible, cache) == (Err(AccessibilityNodeInfoHelpers.IllegalArgument), cache)
  {
    SelectionAttributesAt(node, index);
  }

  /** Once a child has thrown, the remaining children change nothing. */
  lemma {:induction false} BuildChildrenErrorSticks(node: NodeInfo, chain: seq<Option<Rect>>, allowInvisible: bool,
                                                    cache: map<int, UiElement>, i: nat, n: nat)
    requires i <= n <= |node.children| && BuildChildren(node, chain, allowInvisible, cache, i).0.Err?
    ensures BuildChildren(node, chain, allowInvisible, cache, n) == BuildChildren(node, chain, allowInvisible, cache, i)
    decreases n
  {
    if i < n {
      BuildChildrenErrorSticks(node, chain, allowInvisible, cache, i, n - 1);
    }
  }

  /**
   * Whether building the node throws when nothing is cached: the node has a
   * backwards selection, or some kept child's subtree does.
   */
  predicate Refused(node: NodeInfo, allowInvisible: bool)
    decreases node, 1
  {
    BackwardsSelection(node) || RefusedChildren(node, allowInvisible, |node.children|)
  }

  /** Some kept child among the first n has a refused subtree. */
  predicate RefusedChildren(node: NodeInfo, allowInvisible: bool, n: nat)
    requires n <= |node.children|
    decreases node, 0, n
  {
    n > 0 && (RefusedChildren(node, allowInvisible, n - 1)
              || (Kept(node.children[n - 1], allowInvisible) && Refused(node.children[n - 1].value, allowInvisible)))
  }

  /** The snapshot tree is well defined exactly where building does not throw. */
  function BuildOutcome(node: NodeInfo, chain: seq<Option<Rect>>, index: int, allowInvisible: bool): Built<UiElement>
  {
    if Refused(node, allowInvisible) then Err(AccessibilityNodeInfoHelpers.IllegalArgument)
    else Ok(Snapshot(node, chain, index, allowInvisible))
  }

  // ---------------------------------------------------------------------
  // Node identities
  // ---------------------------------------------------------------------

  /** The identities of a node and all its descendants. */
  function Ids(node: NodeInfo): set<int>
    decreases node, 1
  {
    {node.id} + ChildIds(node, |node.children|)
  }

  /** The identities below the first n raw children. */
  function ChildIds(node: NodeInfo, n: nat): set<int>
    requires n <= |node.children|
    decreases node, 0, n
  {
    if n == 0 then {}
    else ChildIds(node, n - 1) + if node.children[n - 1].Some? then Ids(node.children[n - 1].value) else {}
  }

  /** No identity occurs twice in the tree. */
  predicate DistinctIds(node: NodeInfo)
    decreases node
  {
    var ch := node.children;
    && node.id !in ChildIds(node, |ch|)
    && (forall i, j :: 0 <= i < j < |ch| && ch[i].Some? && ch[j].Some? ==> Ids(ch[i].value) !! Ids(ch[j].value))
    && forall i :: 0 <= i < |ch| && ch[i].Some? ==> DistinctIds(ch[i].value)
  }

  lemma {:induction false} ChildIdsMono(node: NodeInfo, n: nat, m: nat)
    requires n <= m <= |node.children|
    ensures ChildIds(node, n) <= ChildIds(node, m)
    decreases m
  {
    if n < m {
      ChildIdsMono(node, n, m - 1);
    }
  }

  lemma {:induction false} ChildIdsDisjoint(node: NodeInfo, n: nat, m: nat)
    requires n <= m < |node.children| && node.children[m].Some? && DistinctIds(node)
    ensures ChildIds(node, n) !! Ids(node.children[m].value)
    decreases n
  {
    if n > 0 {
      ChildIdsDisjoint(node, n - 1, m);
    }
  }

  lemma {:induction false} BuildChildrenNoHit(node: NodeInfo, chain: seq<Option<Rect>>, allowInvisible: bool, cache: map<int, UiElement>, n: nat)
    requires n <= |node.children| && DistinctIds(node) && ChildIds(node, |node.children|) !! cache.Keys
    ensures BuildChildren(node, chain, allowInvisible, cache, n).0
      == if RefusedChildren(node, allowInvisible, n) then Err(AccessibilityNodeInfoHelpers.IllegalArgument)
         else Ok(SnapChildren(node, chain, allowInvisible, n))
    ensures BuildChildren(node, chain, allowInvisible, cache, n).1.Keys <= cache.Keys + ChildIds(node, n)
    decreases node, 0, n
  {
    if n > 0 {
      BuildChildrenNoHit(node, chain, allowInvisible, cache, n - 1);
      var prev := BuildChildren(node, chain, allowInvisible, cache, n - 1);
      var child := node.children[n - 1];
      ChildIdsMono(node, n - 1, n);
      var refused := RefusedChildren(node, allowInvisible, n);
      assert refused == (RefusedChildren(node, allowInvisible, n - 1)
        || (Kept(child, allowInvisible) && Refused(child.value, allowInvisible)));
      if prev.0.Ok? && Kept(child, allowInvisible) {
        ChildIdsMono(node, n, |node.children|);
        ChildIdsDisjoint(node, n - 1, n - 1);
        var c := child.value;
        assert Ids(c) !! prev.1.Keys;
        assert c.id in Ids(c);
        GetOrCreateNoHit(c, chain, n - 1, allowInvisible, prev.1);
        assert SnapChildren(node, chain, allowInvisible, n)
          == SnapChildren(node, chain, allowInvisible, n - 1) + [Snapshot(c, chain, n - 1, allowInvisible)];
      } else if prev.0.Ok? {
        assert SnapChildren(node, chain, allowInvisible, n) == SnapChildren(node, chain, allowInvisible, n - 1);
      }
    }
  }

  lemma {:induction false} BuildNoHit(node: NodeInfo, chain: seq<Option<Rect>>, index: int, allowInvisible: bool, cache: map<int, UiElement>)
    requires DistinctIds(node) && ChildIds(node, |node.children|) !! cache.Keys
    ensures Build(node, chain, index, allowInvisible, cache).0 == BuildOutcome(node, chain, index, allowInvisible)
    ensures Build(node, chain, index, allowInvisible, cache).1.Keys <= cache.Keys + ChildIds(node, |node.children|)
    decreases node, 1
  {
    assert Refused(node, allowInvisible) == (BackwardsSelection(node) || RefusedChildren(node, allowInvisible, |node.children|));
    if !BackwardsSelection(node) && |node.children| > 0 {
      BuildChildrenNoHit(node, [Some(node.boundsInScreen)] + chain, allowInvisible, cache, |node.children|);
    }
  }

  lemma {:induction false} GetOrCreateNoHit(raw: NodeInfo, chain: seq<Option<Rect>>, index: int, allowInvisible: bool, cache: map<int, UiElement>)
    requires DistinctIds(raw) && Ids(raw) !! cache.Keys
    ensures GetOrCreate(raw, chain, index, allowInvisible, cache).0 == BuildOutcome(raw, chain, index, allowInvisible)
    ensures GetOrCreate(raw, chain, index, allowInvisible, cache).1.Keys <= cache.Keys + Ids(raw)
    decreases raw, 2
  {
    assert raw.id in Ids(raw);
    BuildNoHit(raw, chain, index, allowInvisible, cache);
  }

  /**
   * With distinct node identities and none of them cached, building through
   * the cache throws exactly when some node it reaches has a backwards
   * selection, and otherwise gives the snapshot tree; only identities of the
   * node's descendants are added to the cache (never the node's own).
   */
  lemma BuildIsSnapshot(node: NodeInfo, chain: seq<Option<Rect>>, index: int, allowInvisible: bool, cache: map<int, UiElement>)
    requires DistinctIds(node) && Ids(node) !! cache.Keys
    ensures Build(node, chain, index, allowInvisible, cache).0.Err? <==> Refused(node, allowInvisible)
    ensures !Refused(node, allowInvisible) ==> Build(node, chain, index, allowInvisible, cache).0 == Ok(Snapshot(node, chain, index, allowInvisible))
    ensures node.id !in cache ==> node.id !in Build(node, chain, index, allowInvisible, cache).1
  {
    BuildNoHit(node, chain, index, allowInvisible, cache);
  }

  // ---------------------------------------------------------------------
  // The synthetic root
  // ---------------------------------------------------------------------

  /** The attributes of the synthetic root: index, class and every flag false. */
  function HierarchyAttributes(hierarchyClassName: string, index: int): map<Attribute, AValue>
  {
    map[
      INDEX := AInt(index), CLASS := AStr(hierarchyClassName),
      CHECKABLE := ABool(false), CHECKED := ABool(false), CLICKABLE := ABool(false),
      ENABLED := ABool(false), FOCUSABLE := ABool(false), FOCUSED := ABool(false),
      LONG_CLICKABLE := ABool(false), PASSWORD := ABool(false), SCROLLABLE := ABool(false),
      SELECTED := ABool(false)]
  }

  /** The node addToastMsgToRoot creates for a toast message. */
  function ToastNode(message: string): NodeInfo
  {
    Obtain(TOAST_NODE_ID).(text := Some(message), className := Some(TOAST_CLASS_NAME), packageName := Some(TOAST_PACKAGE_NAME))
  }

  /** The toast children added for the messages, in order. */
  function ToastChildren(messages: seq<string>, allowInvisible: bool): (ts: seq<UiElement>)
    ensures |ts| == |messages|
  {
    seq(|messages|, i requires 0 <= i < |messages| => Snapshot(ToastNode(messages[i]), [None], 0, allowInvisible))
  }

  lemma ToastChildrenSnoc(messages: seq<string>, message: string, allowInvisible: bool)
    ensures ToastChildren(messages + [message], allowInvisible)
      == ToastChildren(messages, allowInvisible) + [Snapshot(ToastNode(message), [None], 0, allowInvisible)]
  {
  }

  function ToastList(toastMessages: Option<seq<string>>): seq<string>
  {
    if toastMessages.None? then [] else toastMessages.value
  }

  /** rebuildForNewRoot as a specification: the root and the cache it leaves. */
  function RootSpec(rawElement: NodeInfo, toastMessages: Option<seq<string>>, allowInvisible: bool)
    : (Built<UiElement>, map<int, UiElement>)
  {
    var window := Build(rawElement, [None], 0, allowInvisible, map[]);
    if window.0.Err? then (Err(window.0.error), window.1)
    else
      (Ok(UiElement(None, HierarchyAttributes(HIERARCHY_CLASS_NAME, 0), true, None,
         List([window.0.value] + ToastChildren(ToastList(toastMessages), allowInvisible)))),
       window.1)
  }

  /** A toast child is an invisible element of class android.widget.Toast holding the message as its text. */
  lemma ToastElement(message: string, allowInvisible: bool)
    ensures var t := Snapshot(ToastNode(message), [None], 0, allowInvisible);
      && t.ClassName() == Some(TOAST_CLASS_NAME) && !t.visible && t.children.NoList?
      && TEXT in t.attributes && t.attributes[TEXT] == AStr(message)
  {
    SnapshotAttributeAt(ToastNode(message), 0, CLASS);
    SnapshotAttributeAt(ToastNode(message), 0, TEXT);
  }

  /** The synthetic root stores only its index, its class and false for every flag. */
  lemma HierarchyAttributesMeaning(index: int)
    ensures var m := HierarchyAttributes(HIERARCHY_CLASS_NAME, index);
      && m[INDEX] == AInt(index) && m[CLASS] == AStr(HIERARCHY_CLASS_NAME)
      && forall a :: a in m && a != INDEX && a != CLASS ==> m[a] == ABool(false)
  {
  }

  /**
   * The rebuilt root has class `hierarchy`, no node and no visible bounds, the
   * window root as its first child at index 0, and one Toast child per message
   * after it.
   */
  lemma {:induction false} RootShape(rawElement: NodeInfo, toastMessages: Option<seq<string>>, allowInvisible: bool)
    ensures RootSpec(rawElement, toastMessages, allowInvisible).0.Err? <==> Build(rawElement, [None], 0, allowInvisible, map[]).0.Err?
    ensures RootSpec(rawElement, toastMessages, allowInvisible).0.Ok? ==>
      var root := RootSpec(rawElement, toastMessages, allowInvisible).0.value;
      && root.node.None? && root.visibleBounds.None? && root.ClassName() == Some(HIERARCHY_CLASS_NAME)
      && |root.GetChildren()| == 1 + |ToastList(toastMessages)|
      && INDEX in root.GetChildren()[0].attributes && root.GetChildren()[0].attributes[INDEX] == AInt(0)
      && forall i :: 1 <= i < |root.GetChildren()| ==> root.GetChildren()[i].ClassName() == Some(TOAST_CLASS_NAME)
  {
    var spec := RootSpec(rawElement, toastMessages, allowInvisible).0;
    if spec.Ok? {
      var root := spec.value;
      SnapshotAttributeAt(rawElement, 0, INDEX);
      forall i | 1 <= i < |root.GetChildren()| ensures root.GetChildren()[i].ClassName() == Some(TOAST_CLASS_NAME) {
        ToastElement(ToastList(toastMessages)[i - 1], allowInvisible);
      }
    }
  }

  /**
   * On a tree with distinct identities, rebuilding throws exactly when the
   * window tree holds a backwards selection; otherwise the window root is its
   * snapshot. The window root itself is never cached.
   */
  lemma RootWindowIsSnapshot(rawElement: NodeInfo, toastMessages: Option<seq<string>>, allowInvisible: bool)
    requires DistinctIds(rawElement)
    ensures RootSpec(rawElement, toastMessages, allowInvisible).0.Err? <==> Refused(rawElement, allowInvisible)
    ensures RootSpec(rawElement, toastMessages, allowInvisible).0.Ok? ==>
      RootSpec(rawElement, toastMessages, allowInvisible).0.value.GetChildren()[0] == Snapshot(rawElement, [None], 0, allowInvisible)
    ensures rawElement.id !in RootSpec(rawElement, toastMessages, allowInvisible).1
  {
    BuildIsSnapshot(rawElement, [None], 0, allowInvisible, map[]);
  }

  // ---------------------------------------------------------------------
  // The cache, as the source keeps it
  // ---------------------------------------------------------------------

  /** The static WeakHashMap of UiAutomationElement, keyed by node identity. */
  class ElementCache {
    var cache: map<int, UiElement>

    constructor ()
      ensures cache == map[]
    {
      cache := map[];
    }

    /**
     * UiAutomationElement(node, parent, index): copy the attributes, refusing
     * a backwards selection, then build the children.
     */
    method NewElement(node: NodeInfo, chain: seq<Option<Rect>>, index: int, allowInvisible: bool) returns (r: Built<UiElement>)
      modifies this
      ensures (r, cache) == Build(node, chain, index, allowInvisible, old(cache))
      decreases node, 2
    {
      var selectionRange := AccessibilityNodeInfoHelpers.GetSelectionRange(Some(node));
      if selectionRange.Err? {
        return Err(selectionRange.error);
      }
      var attribs := SnapshotAttributes(node, index);
      var visible := node.visibleToUser;
      var visibleBounds := GetVisibleBounds(visible, node.boundsInScreen, chain);
      var children := BuildChildrenOf(node, [Some(node.boundsInScreen)] + chain, allowInvisible);
      if children.Err? {
        return Err(children.error);
      }
      r := Ok(UiElement(Some(node), attribs, visible, Some(visibleBounds), children.value));
    }

    /**
     * buildChildren: null for a node without children, otherwise the kept
     * children through the cache, stopping at the first that throws.
     */
    method BuildChildrenOf(node: NodeInfo, chain: seq<Option<Rect>>, allowInvisible: bool) returns (r: Built<Children>)
      modifies this
      ensures |node.children| == 0 ==> r == Ok(NoList) && cache == old(cache)
      ensures |node.children| > 0 ==>
        var spec := BuildChildren(node, chain, allowInvisible, old(cache), |node.children|);
        && cache == spec.1
        && (r.Err? <==> spec.0.Err?)
        && (r.Err? ==> r.error == spec.0.error)
        && (r.Ok? ==> r.value == List(spec.0.value))
      decreases node, 1
    {
      var childCount := |node.children|;
      if childCount == 0 {
        return Ok(NoList);
      }
      var list: seq<UiElement> := [];
      var i := 0;
      while i < childCount
        invariant 0 <= i <= childCount
        invariant (Ok(list), cache) == BuildChildren(node, chain, allowInvisible, old(cache), i)
      {
        var child := node.children[i];
        if child.Some? && (child.value.visibleToUser || allowInvisible) {
          var e := GetOrCreateElement(child.value, chain, i, allowInvisible);
          if e.Err? {
            BuildChildrenErrorSticks(node, chain, allowInvisible, old(cache), i + 1, childCount);
            return Err(e.error);
          }
          list := list + [e.value];
        }
        i := i + 1;
      }
      return Ok(List(list));
    }

    /** getOrCreateElement: a node already in the cache gives the cached element and changes nothing. */
    method GetOrCreateElement(raw: NodeInfo, chain: seq<Option<Rect>>, index: int, allowInvisible: bool) returns (r: Built<UiElement>)
      modifies this
      ensures (r, cache) == GetOrCreate(raw, chain, index, allowInvisible, old(cache))
      ensures raw.id in old(cache) ==> r == Ok(old(cache)[raw.id]) && cache == old(cache)
      ensures r.Ok? ==> raw.id in cache && cache[raw.id] == r.value
      decreases raw, 3
    {
      if raw.id in cache {
        return Ok(cache[raw.id]);
      }
      r := NewElement(raw, chain, index, allowInvisible);
      if r.Ok? {
        cache := cache[raw.id := r.value];
      }
    }

    /**
     * rebuildForNewRoot: clear the cache, build the synthetic root over the
     * window root, then add the toasts; a window tree that throws leaves the
     * cache holding what was built before the throw.
     */
    method RebuildForNewRoot(rawElement: NodeInfo, toastMessages: Option<seq<string>>, allowInvisible: bool) returns (r: Built<UiElement>)
      modifies this
      ensures (r, cache) == RootSpec(rawElement, toastMessages, allowInvisible)
    {
      cache := map[];
      var window := NewElement(rawElement, [None], 0, allowInvisible);
      if window.Err? {
        return Err(window.error);
      }
      var children := [window.value];
      ghost var messages := ToastList(toastMessages);
      if toastMessages.Some? && toastMessages.value != [] {
        var k := 0;
        while k < |toastMessages.value|
          invariant 0 <= k <= |messages|
          invariant children == [window.value] + ToastChildren(messages[..k], allowInvisible)
          invariant cache == Build(rawElement, [None], 0, allowInvisible, map[]).1
        {
          var toast := AddToastMsgToRoot(toastMessages.value[k], allowInvisible);
          children := children + [toast];
          assert messages[..k + 1] == messages[..k] + [messages[k]];
          ToastChildrenSnoc(messages[..k], messages[k], allowInvisible);
          k := k + 1;
        }
        assert messages[..k] == messages;
      } else {
        assert ToastChildren(messages, allowInvisible) == [];
      }
      assert window == Build(rawElement, [None], 0, allowInvisible, map[]).0;
      assert children == [window.value] + ToastChildren(messages, allowInvisible);
      assert cache == Build(rawElement, [None], 0, allowInvisible, map[]).1;
      r := Ok(UiElement(None, HierarchyAttributes(HIERARCHY_CLASS_NAME, 0), true, None, List(children)));
    }

    /**
     * addToastMsgToRoot: the element for a fresh node holding the message; its
     * node has no selection and no children, so it never throws and the cache
     * is untouched.
     */
    method AddToastMsgToRoot(message: string, allowInvisible: bool) returns (toast: UiElement)
      modifies this
      ensures toast == Snapshot(ToastNode(message), [None], 0, allowInvisible) && cache == old(cache)
    {
      var made := NewElement(ToastNode(message), [None], 0, allowInvisible);
      toast := made.value;
    }

    /**
     * getCachedElement: rebuild from the window root when the node is not
     * cached, then look it up; an exception from the rebuild propagates.
     */
    method GetCachedElement(rawElement: NodeInfo, windowRoot: NodeInfo, allowInvisible: bool) returns (r: Built<Option<UiElement>>)
      modifies this
      ensures rawElement.id in old(cache) ==> r == Ok(Some(old(cache)[rawElement.id])) && cache == old(cache)
      ensures rawElement.id !in old(cache) ==>
        var spec := RootSpec(windowRoot, None, allowInvisible);
        && cache == spec.1
        && (spec.0.Err? ==> r == Err(spec.0.error))
        && (spec.0.Ok? ==> r == Ok(if rawElement.id in cache then Some(cache[rawElement.id]) else None))
    {
      if rawElement.id !in cache {
        var rebuilt := RebuildForNewRoot(windowRoot, None, allowInvisible);
        if rebuilt.Err? {
          return Err(rebuilt.error);
        }
      }
      r := Ok(if rawElement.id in cache then Some(cache[rawElement.id]) else None);
    }
  }
}
