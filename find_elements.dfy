/**
 * FindElements: every element a locator matches, on the whole screen or
 * under a cached context element, answered as a JSON array of new element
 * handles. The device is seen only through what it answers to each query.
 */
module FindElementsHandler {
  import opened Common
  import opened Json
  import opened Elements
  import opened AppiumResponses
  import opened NativeAndroidBySelector
  import opened SelectorStrings
  import opened LocationHelpers
  import opened ElementHelpers
  import opened KnownElementsCache

  // ---------------------------------------------------------------------
  // fetchElements
  // ---------------------------------------------------------------------

  /**
   * One UiSelector as the device answers it: `text` is its toString();
   * `self` the object findObject(sel) finds, when it exists; `byIndex(n)` and
   * `byInstance(n)` the existing object findObject finds for sel.index(n) and
   * sel.instance(n); `child(n)` what the base element's getChild(sel.instance(n))
   * answers, which may throw. From `bound` on no probe finds anything: a
   * screen holds finitely many objects.
   */
  datatype SelectorView = SelectorView(
    text: string,
    self: Option<nat>,
    byIndex: nat -> Option<nat>,
    byInstance: nat -> Option<nat>,
    child: nat -> Result<Option<nat>, Throwable>,
    bound: nat)

  predicate Finite(sel: SelectorView)
  {
    sel.byIndex(sel.bound).None? && sel.byInstance(sel.bound).None?
    && !(sel.child(sel.bound).Ok? && sel.child(sel.bound).value.Some?)
  }

  /** What probing with `counter` finds: a child of the base element when there is one, else by index or by instance. */
  function Probe(sel: SelectorView, hasBase: bool, useIndex: bool, counter: nat): Result<Option<nat>, Throwable>
  {
    if !hasBase then Ok(if useIndex then sel.byIndex(counter) else sel.byInstance(counter))
    else sel.child(counter)
  }

  predicate Hit(p: Result<Option<nat>, Throwable>)
  {
    p.Ok? && p.value.Some?
  }

  /** `xs` in front of a list that may not have been obtained. */
  function Prefixed<T>(xs: seq<T>, r: Result<seq<T>, Throwable>): Result<seq<T>, Throwable>
  {
    match r
    case Err(e) => Err(e)
    case Ok(rest) => Ok(xs + rest)
  }

  lemma PrefixedAppend<T>(xs: seq<T>, ys: seq<T>, r: Result<seq<T>, Throwable>)
    ensures Prefixed(xs + ys, r) == Prefixed(xs, Prefixed(ys, r))
    ensures Prefixed([], r) == r
  {
    if r.Ok? {
      assert xs + ys + r.value == xs + (ys + r.value);
      assert [] + r.value == r.value;
    }
  }

  /** Probing from `counter` on: every hit is kept, the first miss stops, and an exception ends it. */
  function FetchFrom(sel: SelectorView, hasBase: bool, useIndex: bool, counter: nat): Result<seq<nat>, Throwable>
    requires counter <= sel.bound && Finite(sel)
    decreases sel.bound - counter
  {
    var p := Probe(sel, hasBase, useIndex, counter);
    if p.Err? then Err(p.error)
    else if p.value.None? then Ok([])
    else Prefixed([p.value.value], FetchFrom(sel, hasBase, useIndex, counter + 1))
  }

  /**
   * What fetchElements answers, given what the cache answered for the
   * context key: a selector ending in an instance finds at most its own object;
   * any other probes counter 0, 1, 2, ... by index when it has a class regex
   * and by instance otherwise, or among the base element's children.
   */
  function FetchSpec(sel: SelectorView, base: Result<Option<nat>, Throwable>): Result<seq<nat>, Throwable>
    requires Finite(sel)
  {
    if EndsWithInstance(sel.text) then Ok(if sel.self.Some? then [sel.self.value] else [])
    else if base.Err? then Err(base.error)
    else FetchFrom(sel, base.value.Some?, UsesIndex(sel.text), 0)
  }

  method FetchElements(sel: SelectorView, base: Result<Option<nat>, Throwable>) returns (r: Result<seq<nat>, Throwable>)
    requires Finite(sel)
    ensures r == FetchSpec(sel, base)
  {
    var keepSearching := true;
    var selectorString := sel.text;
    var useIndex := UsesIndex(selectorString);
    var endsWithInstance := EndsWithInstance(selectorString);
    var elements: seq<nat> := [];
    if endsWithInstance {
      if sel.self.Some? {
        elements := elements + [sel.self.value];
        assert elements == [sel.self.value];
      }
      return Ok(elements);
    }
    if base.Err? {
      return Err(base.error);
    }
    var hasBase := base.value.Some?;
    var counter: nat := 0;
    PrefixedAppend(elements, elements, FetchFrom(sel, hasBase, useIndex, counter));
    while keepSearching
      invariant keepSearching ==> counter <= sel.bound
      invariant keepSearching ==> Prefixed(elements, FetchFrom(sel, hasBase, useIndex, counter)) == FetchSpec(sel, base)
      invariant !keepSearching ==> Ok(elements) == FetchSpec(sel, base)
      decreases if keepSearching then sel.bound - counter + 1 else 0
    {
      var lastFound: Option<nat>;
      if !hasBase {
        if useIndex {
          lastFound := sel.byIndex(counter);
        } else {
          lastFound := sel.byInstance(counter);
        }
      } else {
        var got := sel.child(counter);
        if got.Err? {
          return Err(got.error);
        }
        lastFound := got.value;
      }
      counter := counter + 1;
      if lastFound.Some? {
        PrefixedAppend(elements, [lastFound.value], FetchFrom(sel, hasBase, useIndex, counter));
        elements := elements + [lastFound.value];
      } else {
        assert elements + [] == elements;
        keepSearching := false;
      }
    }
    return Ok(elements);
  }

  /** `xs` is exactly the run of hits from `counter` on, ended by a miss. */
  predicate HitRun(sel: SelectorView, hasBase: bool, useIndex: bool, counter: nat, xs: seq<nat>)
  {
    (forall j :: 0 <= j < |xs| ==> Probe(sel, hasBase, useIndex, counter + j) == Ok(Some(xs[j])))
    && Probe(sel, hasBase, useIndex, counter + |xs|) == Ok(None)
  }

  /** Every probe from `counter` up to `k` hits. */
  predicate HitsUpTo(sel: SelectorView, hasBase: bool, useIndex: bool, counter: nat, k: nat)
  {
    forall j :: counter <= j < k ==> Hit(Probe(sel, hasBase, useIndex, j))
  }

  /** The answer is the run of hits up to the first miss, or the exception of the first probe that throws. */
  lemma {:induction false} FetchFromMeaning(sel: SelectorView, hasBase: bool, useIndex: bool, counter: nat)
    requires counter <= sel.bound && Finite(sel)
    ensures var r := FetchFrom(sel, hasBase, useIndex, counter);
      && (r.Ok? ==> HitRun(sel, hasBase, useIndex, counter, r.value))
      && (r.Err? ==> exists k :: counter <= k && HitsUpTo(sel, hasBase, useIndex, counter, k)
                                && Probe(sel, hasBase, useIndex, k) == Err(r.error))
    decreases sel.bound - counter
  {
    var p := Probe(sel, hasBase, useIndex, counter);
    if p.Err? {
      assert HitsUpTo(sel, hasBase, useIndex, counter, counter);
    } else if p.value.Some? {
      FetchFromMeaning(sel, hasBase, useIndex, counter + 1);
      var rest := FetchFrom(sel, hasBase, useIndex, counter + 1);
      if rest.Ok? {
        var xs := [p.value.value] + rest.value;
        forall j | 0 <= j < |xs|
          ensures Probe(sel, hasBase, useIndex, counter + j) == Ok(Some(xs[j]))
        {
          if j > 0 {
            assert xs[j] == rest.value[j - 1];
            assert counter + j == counter + 1 + (j - 1);
          }
        }
        assert counter + |xs| == counter + 1 + |rest.value|;
      } else {
        var k :| counter + 1 <= k && HitsUpTo(sel, hasBase, useIndex, counter + 1, k)
                 && Probe(sel, hasBase, useIndex, k) == Err(rest.error);
        assert HitsUpTo(sel, hasBase, useIndex, counter, k);
      }
    }
  }

  /** Conversely, any run of hits ended by a miss is what probing answers. */
  lemma {:induction false} FetchFromRun(sel: SelectorView, hasBase: bool, useIndex: bool, counter: nat, xs: seq<nat>)
    requires counter <= sel.bound && Finite(sel)
    requires HitRun(sel, hasBase, useIndex, counter, xs)
    ensures FetchFrom(sel, hasBase, useIndex, counter) == Ok(xs)
    decreases sel.bound - counter
  {
    if xs != [] {
      assert Probe(sel, hasBase, useIndex, counter + 0) == Ok(Some(xs[0]));
      assert counter < sel.bound;
      assert HitRun(sel, hasBase, useIndex, counter + 1, xs[1..]) by {
        forall j | 0 <= j < |xs[1..]|
          ensures Probe(sel, hasBase, useIndex, counter + 1 + j) == Ok(Some(xs[1..][j]))
        {
          assert counter + 1 + j == counter + (j + 1);
        }
        assert counter + 1 + |xs[1..]| == counter + |xs|;
      }
      FetchFromRun(sel, hasBase, useIndex, counter + 1, xs[1..]);
      assert [xs[0]] + xs[1..] == xs;
    } else {
      assert Probe(sel, hasBase, useIndex, counter + 0) == Ok(None);
    }
  }

  /** Without an instance suffix and with the cache answering, fetchElements answers exactly the existing prefix. */
  lemma FetchSpecPrefix(sel: SelectorView, base: Option<nat>, xs: seq<nat>)
    requires Finite(sel) && !EndsWithInstance(sel.text)
    ensures FetchSpec(sel, Ok(base)) == Ok(xs) <==> HitRun(sel, base.Some?, UsesIndex(sel.text), 0, xs)
  {
    FetchFromMeaning(sel, base.Some?, UsesIndex(sel.text), 0);
    if HitRun(sel, base.Some?, UsesIndex(sel.text), 0, xs) {
      FetchFromRun(sel, base.Some?, UsesIndex(sel.text), 0, xs);
    }
  }

  /** A selector ending in an instance yields at most one element, included exactly when it exists. */
  lemma FetchInstanceAtMostOne(sel: SelectorView, base: Result<Option<nat>, Throwable>)
    requires Finite(sel) && EndsWithInstance(sel.text)
    ensures FetchSpec(sel, base).Ok? && |FetchSpec(sel, base).value| <= 1
    ensures FetchSpec(sel, base).value == [] <==> sel.self.None?
  {
  }

  // ---------------------------------------------------------------------
  // getUiObjectsUsingAutomator
  // ---------------------------------------------------------------------

  predicate AllFinite(sels: seq<SelectorView>)
  {
    forall i :: 0 <= i < |sels| ==> Finite(sels[i])
  }

  /** What fetchElements answers for each selector, in order. */
  function Fetches(sels: seq<SelectorView>, base: Result<Option<nat>, Throwable>): (fs: seq<Result<seq<nat>, Throwable>>)
    requires AllFinite(sels)
    ensures |fs| == |sels| && forall j :: 0 <= j < |sels| ==> fs[j] == FetchSpec(sels[j], base)
  {
    seq(|sels|, j requires 0 <= j < |sels| => FetchSpec(sels[j], base))
  }

  /**
   * The fetches' finds from `i` on, concatenated in selector order; a
   * fetch that throws UiObjectNotFoundException adds nothing, and any
   * other exception ends the search.
   */
  function Collect(fs: seq<Result<seq<nat>, Throwable>>, i: nat): Result<seq<nat>, Throwable>
    requires i <= |fs|
    decreases |fs| - i
  {
    if i == |fs| then Ok([])
    else if fs[i].Err? && !fs[i].error.UiObjectNotFound? then Err(fs[i].error)
    else Prefixed(if fs[i].Ok? then fs[i].value else [], Collect(fs, i + 1))
  }

  /** What getUiObjectsUsingAutomator answers: the collected objects, without two sharing an accessibility node. */
  function AutomatorSpec(sels: seq<SelectorView>, base: Result<Option<nat>, Throwable>, nodeOf: nat -> Option<int>): Result<seq<nat>, Throwable>
    requires AllFinite(sels)
  {
    match Collect(Fetches(sels, base), 0)
    case Err(e) => Err(e)
    case Ok(found) => Ok(DedupeSpec(found, nodeOf))
  }

  method GetUiObjectsUsingAutomator(sels: seq<SelectorView>, base: Result<Option<nat>, Throwable>, nodeOf: nat -> Option<int>)
    returns (r: Result<seq<nat>, Throwable>)
    requires AllFinite(sels)
    ensures r == AutomatorSpec(sels, base, nodeOf)
  {
    ghost var fs := Fetches(sels, base);
    var foundElements: seq<nat> := [];
    var i := 0;
    PrefixedAppend(foundElements, foundElements, Collect(fs, 0));
    while i < |sels|
      invariant 0 <= i <= |sels|
      invariant Prefixed(foundElements, Collect(fs, i)) == Collect(fs, 0)
    {
      var elementsFromSelector := FetchElements(sels[i], base);
      assert fs[i] == elementsFromSelector;
      if elementsFromSelector.Err? && !elementsFromSelector.error.UiObjectNotFound? {
        CollectStops(fs, i, foundElements);
        return Err(elementsFromSelector.error);
      }
      CollectStep(fs, i, foundElements);
      if elementsFromSelector.Ok? {
        foundElements := foundElements + elementsFromSelector.value;
      }
      i := i + 1;
    }
    CollectStep(fs, i, foundElements);
    foundElements := Dedupe(foundElements, nodeOf);
    return Ok(foundElements);
  }

  /** One turn of the loop of getUiObjectsUsingAutomator: a fetch that answers adds its finds. */
  lemma CollectStep(fs: seq<Result<seq<nat>, Throwable>>, i: nat, acc: seq<nat>)
    requires i <= |fs|
    ensures i == |fs| ==> Prefixed(acc, Collect(fs, i)) == Ok(acc)
    ensures i < |fs| && fs[i].Ok? ==> Prefixed(acc, Collect(fs, i)) == Prefixed(acc + fs[i].value, Collect(fs, i + 1))
    ensures i < |fs| && fs[i].Err? && fs[i].error.UiObjectNotFound? ==>
      Prefixed(acc, Collect(fs, i)) == Prefixed(acc, Collect(fs, i + 1))
  {
    if i == |fs| {
      assert acc + [] == acc;
    } else if fs[i].Ok? {
      PrefixedAppend(acc, fs[i].value, Collect(fs, i + 1));
    } else if fs[i].error.UiObjectNotFound? {
      PrefixedAppend(acc, [], Collect(fs, i + 1));
      assert acc + [] == acc;
    }
  }

  /** A fetch that throws anything but UiObjectNotFoundException ends the loop with that exception. */
  lemma CollectStops(fs: seq<Result<seq<nat>, Throwable>>, i: nat, acc: seq<nat>)
    requires i < |fs| && fs[i].Err? && !fs[i].error.UiObjectNotFound?
    ensures Prefixed(acc, Collect(fs, i)) == Err(fs[i].error)
  {
  }

  /** Every object a fetch from `i` on found is collected. */
  lemma {:induction false} CollectCovers(fs: seq<Result<seq<nat>, Throwable>>, i: nat)
    requires i <= |fs|
    ensures Collect(fs, i).Ok? ==> forall j, x :: i <= j < |fs| && fs[j].Ok? && x in fs[j].value ==> x in Collect(fs, i).value
    decreases |fs| - i
  {
    if i < |fs| {
      CollectCovers(fs, i + 1);
    }
  }

  /** Every collected object was found by a fetch from `i` on. */
  lemma {:induction false} CollectSound(fs: seq<Result<seq<nat>, Throwable>>, i: nat)
    requires i <= |fs|
    ensures Collect(fs, i).Ok? ==> forall x :: x in Collect(fs, i).value ==> exists j :: i <= j < |fs| && fs[j].Ok? && x in fs[j].value
    decreases |fs| - i
  {
    if i < |fs| {
      CollectSound(fs, i + 1);
    }
  }

  /** A failed collection is the exception of one fetch from `i` on, never a UiObjectNotFoundException. */
  lemma {:induction false} CollectFailure(fs: seq<Result<seq<nat>, Throwable>>, i: nat)
    requires i <= |fs|
    ensures Collect(fs, i).Err? ==>
      !Collect(fs, i).error.UiObjectNotFound? && exists j :: i <= j < |fs| && fs[j] == Err(Collect(fs, i).error)
    decreases |fs| - i
  {
    if i < |fs| {
      CollectFailure(fs, i + 1);
    }
  }

  /** The fetch of selector `j` answered and `x` is among its finds. */
  predicate FoundBy(sels: seq<SelectorView>, base: Result<Option<nat>, Throwable>, j: int, x: nat)
    requires AllFinite(sels)
  {
    0 <= j < |sels| && Fetches(sels, base)[j].Ok? && x in Fetches(sels, base)[j].value
  }

  /**
   * getUiObjectsUsingAutomator, when it answers: its objects are exactly
   * those some selector found, no two share a node, and every found
   * object's node is among theirs.
   */
  lemma AutomatorMeaning(sels: seq<SelectorView>, base: Result<Option<nat>, Throwable>, nodeOf: nat -> Option<int>, j: nat, x: nat)
    requires AllFinite(sels) && AutomatorSpec(sels, base, nodeOf).Ok?
    ensures var r := AutomatorSpec(sels, base, nodeOf).value;
      var ns := NodesOf(r, nodeOf);
      && (forall k1, k2 :: 0 <= k1 < k2 < |ns| ==> ns[k1] != ns[k2])
      && (FoundBy(sels, base, j, x) ==> nodeOf(x) in ns)
      && (forall y :: y in r ==> exists k :: FoundBy(sels, base, k, y))
  {
    var fs := Fetches(sels, base);
    var found := Collect(fs, 0).value;
    var r := DedupeSpec(found, nodeOf);
    CollectCovers(fs, 0);
    CollectSound(fs, 0);
    DedupeCovers(found, nodeOf);
    if FoundBy(sels, base, j, x) {
      assert x in found;
      var k :| 0 <= k < |found| && found[k] == x;
    }
    DedupeKeptIndices(found, nodeOf);
    forall y | y in r
      ensures exists k :: FoundBy(sels, base, k, y)
    {
      var m :| 0 <= m < |r| && r[m] == y;
      assert y in found;
      var k :| 0 <= k < |fs| && fs[k].Ok? && y in fs[k].value;
      assert FoundBy(sels, base, k, y);
    }
  }

  /** When getUiObjectsUsingAutomator fails, some selector's fetch threw that exception, which is not UiObjectNotFoundException. */
  lemma AutomatorFailure(sels: seq<SelectorView>, base: Result<Option<nat>, Throwable>, nodeOf: nat -> Option<int>)
    requires AllFinite(sels) && AutomatorSpec(sels, base, nodeOf).Err?
    ensures var e := AutomatorSpec(sels, base, nodeOf).error;
      !e.UiObjectNotFound? && exists k :: 0 <= k < |sels| && FetchSpec(sels[k], base) == Err(e)
  {
    var fs := Fetches(sels, base);
    CollectFailure(fs, 0);
    var k :| 0 <= k < |fs| && fs[k] == Err(Collect(fs, 0).error);
    assert FetchSpec(sels[k], base) == Err(Collect(fs, 0).error);
  }

  // ---------------------------------------------------------------------
  // findElements(by) and findElements(by, contextId)
  // ---------------------------------------------------------------------

  /** What the device is asked for: by resource id, content description, class name, or the objects of matched nodes. */
  datatype Query = Res(resourceId: string) | Desc(description: string) | Clazz(className: string) | Nodes(nodeIds: seq<int>)

  /**
   * The device around one request: `find(root, q)` is findObjects(q) (None)
   * or root.getChildren(q, by); `xpath(expression, root)` the nodes
   * getXPathNodeMatch matches; `selectors` what toSelectors parses a
   * UiAutomator expression into; `nodeOf` the accessibility node of an object
   * (dedupe); `cached(id)` the object of the element the known-element cache
   * answers for an id.
   */
  datatype Screen = Screen(
    find: (Option<nat>, Query) -> Result<seq<nat>, Throwable>,
    xpath: (string, Option<nat>) -> Result<seq<int>, Throwable>,
    selectors: string -> Result<seq<SelectorView>, Throwable>,
    nodeOf: nat -> Option<int>,
    cached: string -> Result<Option<nat>, Throwable>)

  /** A UiAutomator expression parses into selectors whose probing ends. */
  predicate SelectorsFinite(screen: Screen, expression: string)
  {
    screen.selectors(expression).Ok? ==> AllFinite(screen.selectors(expression).value)
  }

  /** getClass().getSimpleName() of each locator class. */
  function SimpleName(s: Strategy): string
  {
    match s
    case Id => "ById"
    case Name => "ByName"
    case LinkText => "ByLinkText"
    case PartialLinkText => "ByPartialLinkText"
    case XPath => "ByXPath"
    case ClassName => "ByClass"
    case CssSelector => "ByCssSelector"
    case AccessibilityId => "ByAccessibilityId"
    case AndroidUiAutomator => "ByAndroidUiAutomator"
  }

  const UNSUPPORTED_OPERATION := "java.lang.UnsupportedOperationException"

  /** The UnsupportedOperationException for a locator kind; the two overloads spell the message differently. */
  function Unsupported(s: Strategy, withContext: bool): Throwable
  {
    Other(UNSUPPORTED_OPERATION, Some("By locator " + SimpleName(s)
      + (if withContext then " is currently not supported!" else " is curently not supported!")))
  }

  const ELEMENT_NOT_FOUND: Throwable := UiAutomator2(ElementNotFound, None)

  /** The search for one located kind, among `root`'s descendants when there is a root; `key` is the context id, "" without one. */
  function FindIn(how: By, root: Option<nat>, key: string, screen: Screen, capabilities: map<string, JValue>): (r: Result<seq<nat>, Throwable>)
    requires how.strategy == AndroidUiAutomator ==> SelectorsFinite(screen, how.locator)
  {
    match how.strategy
    case Id => screen.find(root, Res(RewriteIdLocator(how.locator, capabilities)))
    case AccessibilityId => screen.find(root, Desc(how.locator))
    case ClassName => screen.find(root, Clazz(how.locator))
    case XPath =>
      (match screen.xpath(how.locator, root)
       case Err(e) => Err(e)
       case Ok(matched) => if matched == [] then Ok([]) else screen.find(None, Nodes(matched)))
    case AndroidUiAutomator =>
      (match screen.selectors(how.locator)
       case Err(e) => Err(e)
       case Ok(sels) => AutomatorSpec(sels, screen.cached(key), screen.nodeOf))
    case _ => Err(Unsupported(how.strategy, root.Some?))
  }

  /** The two findElements overloads: with a non-empty context id the search starts from that cached element, which must be known. */
  function FindSpec(how: By, contextId: string, screen: Screen, capabilities: map<string, JValue>): Result<seq<nat>, Throwable>
    requires how.strategy == AndroidUiAutomator ==> SelectorsFinite(screen, how.locator)
  {
    if |contextId| > 0 then
      match screen.cached(contextId)
      case Err(e) => Err(e)
      case Ok(root) => if root.None? then Err(ELEMENT_NOT_FOUND) else FindIn(how, root, contextId, screen, capabilities)
    else FindIn(how, None, "", screen, capabilities)
  }

  method FindObjects(how: By, contextId: string, screen: Screen, capabilities: map<string, JValue>)
    returns (r: Result<seq<nat>, Throwable>)
    requires how.strategy == AndroidUiAutomator ==> SelectorsFinite(screen, how.locator)
    ensures r == FindSpec(how, contextId, screen, capabilities)
  {
    var root: Option<nat> := None;
    var key := "";
    if |contextId| > 0 {
      var element := screen.cached(contextId);
      if element.Err? {
        return Err(element.error);
      }
      if element.value.None? {
        return Err(ELEMENT_NOT_FOUND);
      }
      root := element.value;
      key := contextId;
    }
    if how.strategy == AndroidUiAutomator {
      var sels := screen.selectors(how.locator);
      if sels.Err? {
        return Err(sels.error);
      }
      r := GetUiObjectsUsingAutomator(sels.value, screen.cached(key), screen.nodeOf);
      return r;
    }
    return FindIn(how, root, key, screen, capabilities);
  }

  /** An XPath that matches nothing finds nothing, with or without a root. */
  lemma XPathNoMatch(expression: string, root: Option<nat>, key: string, screen: Screen, capabilities: map<string, JValue>)
    requires screen.xpath(expression, root) == Ok([])
    ensures FindIn(By(XPath, expression), root, key, screen, capabilities) == Ok([])
  {
  }

  /** A context id the cache does not know is an ElementNotFoundException, whatever the locator. */
  lemma UnknownContext(how: By, contextId: string, screen: Screen, capabilities: map<string, JValue>)
    requires how.strategy == AndroidUiAutomator ==> SelectorsFinite(screen, how.locator)
    requires |contextId| > 0 && screen.cached(contextId) == Ok(None)
    ensures FindSpec(how, contextId, screen, capabilities) == Err(ELEMENT_NOT_FOUND)
  {
  }

  // ---------------------------------------------------------------------
  // safeHandle
  // ---------------------------------------------------------------------

  /** The handle getAndroidElement makes for a found object: its id, the locator, not a single match, no context. */
  function Handles(objects: seq<nat>, how: By, uuid: nat -> string): (hs: seq<AndroidElement>)
    ensures |hs| == |objects|
    ensures forall i :: 0 <= i < |hs| ==> hs[i] == AndroidElement(uuid(i), objects[i], Some(how), false, None)
  {
    seq(|objects|, i requires 0 <= i < |objects| => AndroidElement(uuid(i), objects[i], Some(how), false, None))
  }

  /** The locator pickFrom makes, or its UiAutomator2Exception for an unknown strategy name. */
  function Pick(strategyName: string, selector: string): (r: Result<By, Throwable>)
    ensures r.Ok? <==> PickFrom(strategyName, selector).Ok?
    ensures r.Ok? ==> PickFrom(strategyName, selector) == Ok(r.value) && r.value.strategy != AndroidUiAutomator
    ensures r.Err? ==> r.error.UiAutomator2? && r.error.kind == Generic
  {
    match PickFrom(strategyName, selector)
    case Ok(how) => Ok(how)
    case Err(_) => Err(UiAutomator2(Generic, Some("method (by) not found: " + strategyName)))
  }

  /** The handles for every object the request's locator finds, in found order; `uuid(i)` is the i-th random id. */
  function FoundHandles(strategyName: string, selector: string, contextId: string, screen: Screen,
                        capabilities: map<string, JValue>, uuid: nat -> string): Result<seq<AndroidElement>, Throwable>
  {
    match Pick(strategyName, selector)
    case Err(e) => Err(e)
    case Ok(how) =>
      match FindSpec(how, contextId, screen, capabilities)
      case Err(e) => Err(e)
      case Ok(objects) => Ok(Handles(objects, how, uuid))
  }

  /** The JSON of the handles turned into JSON so far, and the exception that stopped it, if one did. */
  datatype Encoding = Encoding(jsons: seq<JValue>, failure: Option<Throwable>)

  /** toJSON of each handle from `i` on, in order, up to the first that throws. */
  function EncodeFrom<T>(hs: seq<T>, toJson: T -> Result<seq<(string, JValue)>, Throwable>, i: nat): Encoding
    requires i <= |hs|
    decreases |hs| - i
  {
    if i == |hs| then Encoding([], None)
    else
      match toJson(hs[i])
      case Err(e) => Encoding([], Some(e))
      case Ok(members) =>
        var rest := EncodeFrom(hs, toJson, i + 1);
        Encoding([JObject(members)] + rest.jsons, rest.failure)
  }

  predicate IsElementNotFound(e: Throwable)
  {
    e.UiAutomator2? && e.kind == ElementNotFound
  }

  /**
   * The array safeHandle answers from what was found: an
   * ElementNotFoundException, from the search or from toJSON, ends the search
   * with the array built so far; any other exception is raised.
   */
  function Answer<T>(found: Result<seq<T>, Throwable>, toJson: T -> Result<seq<(string, JValue)>, Throwable>): Result<seq<JValue>, Throwable>
  {
    match found
    case Err(e) => if IsElementNotFound(e) then Ok([]) else Err(e)
    case Ok(hs) =>
      var enc := EncodeFrom(hs, toJson, 0);
      if enc.failure.None? || IsElementNotFound(enc.failure.value) then Ok(enc.jsons) else Err(enc.failure.value)
  }

  /** toJSON of a handle, through what it reads of the element. */
  function JsonOf(viewOf: AndroidElement -> ElementView, capabilities: map<string, JValue>): AndroidElement -> Result<seq<(string, JValue)>, Throwable>
  {
    h => ToJsonSpec(viewOf(h), capabilities)
  }

  function HandleSpec(strategyName: string, selector: string, contextId: string, screen: Screen,
                      capabilities: map<string, JValue>, uuid: nat -> string,
                      viewOf: AndroidElement -> ElementView): Result<seq<JValue>, Throwable>
  {
    Answer(FoundHandles(strategyName, selector, contextId, screen, capabilities, uuid), JsonOf(viewOf, capabilities))
  }

  /**
   * The loop of safeHandle: each handle is added to the cache, then turned
   * into JSON; `result` is the JSON made and `failure` the exception that
   * stopped it.
   */
  method EncodeAll(hs: seq<AndroidElement>, viewOf: AndroidElement -> ElementView, capabilities: map<string, JValue>,
                   ke: KnownElements)
    returns (result: seq<JValue>, failure: Option<Throwable>)
    modifies ke
    requires KeyedById(ke.cache)
    ensures Encoding(result, failure) == EncodeFrom(hs, JsonOf(viewOf, capabilities), 0)
    ensures KeyedById(ke.cache)
    ensures forall k :: k in ke.cache ==> (k in old(ke.cache) && ke.cache[k] == old(ke.cache)[k]) || ke.cache[k] in hs
  {
    var toJson := JsonOf(viewOf, capabilities);
    result := [];
    var i := 0;
    while i < |hs|
      invariant 0 <= i <= |hs|
      invariant EncodeFrom(hs, toJson, 0)
        == Encoding(result + EncodeFrom(hs, toJson, i).jsons, EncodeFrom(hs, toJson, i).failure)
      invariant KeyedById(ke.cache)
      invariant forall k :: k in ke.cache ==> (k in old(ke.cache) && ke.cache[k] == old(ke.cache)[k]) || ke.cache[k] in hs
    {
      var _ := ke.Add(hs[i]);
      var jsonElement := ToJson(viewOf(hs[i]), capabilities);
      assert toJson(hs[i]) == ToJsonSpec(viewOf(hs[i]), capabilities);
      if jsonElement.Err? {
        assert result + [] == result;
        return result, Some(jsonElement.error);
      }
      ghost var rest := EncodeFrom(hs, toJson, i + 1);
      assert result + ([jsonElement.value] + rest.jsons) == (result + [jsonElement.value]) + rest.jsons;
      result := result + [jsonElement.value];
      i := i + 1;
    }
    assert result + [] == result;
    return result, None;
  }

  /**
   * safeHandle: the request's strategy, selector and context id are
   * parameters, `uuid(i)` is the i-th random id, and `viewOf` what toJSON
   * reads of a handle. Every handle made is added to a new KnownElements,
   * which is answered too.
   */
  method SafeHandle(sessionId: Option<string>, strategyName: string, selector: string, contextId: string,
                    screen: Screen, capabilities: map<string, JValue>, uuid: nat -> string,
                    viewOf: AndroidElement -> ElementView)
    returns (r: Result<AppiumResponse, Throwable>, ke: KnownElements)
    ensures var spec := HandleSpec(strategyName, selector, contextId, screen, capabilities, uuid, viewOf);
      && (r.Ok? <==> spec.Ok?)
      && (r.Ok? ==> r.value == NewResponse(sessionId, Value(JArray(spec.value))))
      && (r.Err? ==> r.error == spec.error)
    ensures fresh(ke) && KeyedById(ke.cache)
    ensures var found := FoundHandles(strategyName, selector, contextId, screen, capabilities, uuid);
      forall k :: k in ke.cache ==> found.Ok? && ke.cache[k] in found.value
  {
    ke := new KnownElements();
    var picked := Pick(strategyName, selector);
    if picked.Err? {
      return Err(picked.error), ke;
    }
    var how := picked.value;
    var elements := FindObjects(how, contextId, screen, capabilities);
    if elements.Err? {
      if IsElementNotFound(elements.error) {
        return Ok(NewResponse(sessionId, Value(JArray([])))), ke;
      }
      return Err(elements.error), ke;
    }
    var hs := Handles(elements.value, how, uuid);
    var result, failure := EncodeAll(hs, viewOf, capabilities, ke);
    if failure.Some? && !IsElementNotFound(failure.value) {
      return Err(failure.value), ke;
    }
    return Ok(NewResponse(sessionId, Value(JArray(result)))), ke;
  }

  /** Each of `jsons` is the JSON of the handle at the same place from `i` on. */
  predicate EncodedRun<T>(hs: seq<T>, toJson: T -> Result<seq<(string, JValue)>, Throwable>, i: nat, jsons: seq<JValue>)
  {
    i + |jsons| <= |hs|
    && forall j :: 0 <= j < |jsons| ==> jsons[j].JObject? && toJson(hs[i + j]) == Ok(jsons[j].members)
  }

  /** The JSON of handles from `i` on: each is toJSON of the next handle, and it stops short only at one that throws. */
  lemma {:induction false} EncodeMeaning<T>(hs: seq<T>, toJson: T -> Result<seq<(string, JValue)>, Throwable>, i: nat)
    requires i <= |hs|
    ensures var enc := EncodeFrom(hs, toJson, i);
      && EncodedRun(hs, toJson, i, enc.jsons)
      && (enc.failure.None? <==> i + |enc.jsons| == |hs|)
      && (enc.failure.Some? ==> toJson(hs[i + |enc.jsons|]) == Err(enc.failure.value))
    decreases |hs| - i
  {
    if i < |hs| && toJson(hs[i]).Ok? {
      EncodeMeaning(hs, toJson, i + 1);
      var rest := EncodeFrom(hs, toJson, i + 1);
      var jsons := EncodeFrom(hs, toJson, i).jsons;
      assert jsons == [JObject(toJson(hs[i]).value)] + rest.jsons;
      forall j | 0 <= j < |jsons|
        ensures jsons[j].JObject? && toJson(hs[i + j]) == Ok(jsons[j].members)
      {
        if j > 0 {
          assert jsons[j] == rest.jsons[j - 1];
          assert i + j == (i + 1) + (j - 1);
        }
      }
    }
  }

  /**
   * The answered array lists the found handles in found order, each as its
   * JSON; it is shorter only when toJSON of the next handle raised
   * ElementNotFoundException.
   */
  lemma AnswerOrder<T>(hs: seq<T>, toJson: T -> Result<seq<(string, JValue)>, Throwable>)
    requires Answer(Ok(hs), toJson).Ok?
    ensures var js := Answer(Ok(hs), toJson).value;
      && |js| <= |hs|
      && (forall i :: 0 <= i < |js| ==> js[i].JObject? && toJson(hs[i]) == Ok(js[i].members))
      && (|js| < |hs| ==> toJson(hs[|js|]).Err? && IsElementNotFound(toJson(hs[|js|]).error))
  {
    EncodeMeaning(hs, toJson, 0);
    var js := Answer(Ok(hs), toJson).value;
    assert js == EncodeFrom(hs, toJson, 0).jsons;
    assert EncodedRun(hs, toJson, 0, js);
    forall i | 0 <= i < |js|
      ensures js[i].JObject? && toJson(hs[i]) == Ok(js[i].members)
    {
      assert js[i].JObject? && toJson(hs[0 + i]) == Ok(js[i].members);
    }
  }

  /** Conversely, an array reaches every handle when toJSON succeeds on each. */
  lemma AnswerComplete<T>(hs: seq<T>, toJson: T -> Result<seq<(string, JValue)>, Throwable>)
    requires forall i :: 0 <= i < |hs| ==> toJson(hs[i]).Ok?
    ensures Answer(Ok(hs), toJson).Ok? && |Answer(Ok(hs), toJson).value| == |hs|
  {
    EncodeMeaning(hs, toJson, 0);
  }

  /** An ElementNotFoundException from the search, an unknown context id above all, answers an empty array; any other exception is raised. */
  lemma AnswerSearchFailure<T>(e: Throwable, toJson: T -> Result<seq<(string, JValue)>, Throwable>)
    ensures Answer(Err(e), toJson) == (if IsElementNotFound(e) then Ok([]) else Err(e))
  {
  }

  /** A context id the cache does not know answers an empty array. */
  lemma HandleUnknownContextEmpty(strategyName: string, selector: string, contextId: string, screen: Screen,
                                  capabilities: map<string, JValue>, uuid: nat -> string, viewOf: AndroidElement -> ElementView)
    requires PickFrom(strategyName, selector).Ok?
    requires |contextId| > 0 && screen.cached(contextId) == Ok(None)
    ensures HandleSpec(strategyName, selector, contextId, screen, capabilities, uuid, viewOf) == Ok([])
  {
    assert FoundHandles(strategyName, selector, contextId, screen, capabilities, uuid) == Err(ELEMENT_NOT_FOUND);
  }

  /**
   * pickFrom makes no accessibility-id or UiAutomator locator, so through this
   * handler the name, link text and css strategies are refused with an
   * UnsupportedOperationException whenever the search starts.
   */
  lemma HandleUnsupported(strategyName: string, selector: string, contextId: string, screen: Screen,
                          capabilities: map<string, JValue>, uuid: nat -> string, viewOf: AndroidElement -> ElementView)
    requires strategyName in [SELECTOR_NAME, SELECTOR_TEXT, SELECTOR_PARTIAL_TEXT, SELECTOR_CSS]
    requires |contextId| == 0 || (screen.cached(contextId).Ok? && screen.cached(contextId).value.Some?)
    ensures var r := HandleSpec(strategyName, selector, contextId, screen, capabilities, uuid, viewOf);
      r.Err? && r.error.Other? && r.error.className == UNSUPPORTED_OPERATION
  {
    var how := Pick(strategyName, selector).value;
    assert how.strategy in {Name, LinkText, PartialLinkText, CssSelector};
    var root := if |contextId| > 0 then screen.cached(contextId).value else None;
    assert FindSpec(how, contextId, screen, capabilities) == Err(Unsupported(how.strategy, root.Some?));
  }
}
