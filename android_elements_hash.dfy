/**
 * The counter-keyed table of elements the (older) element lookup keeps:
 * every element it finds is stored under the next counter value.
 */
module ElementsHash {
  import opened Common
  import opened SelectorStrings

  /** An element of the table: its key and the UiObject2 it wraps. */
  datatype HashElement = HashElement(id: string, uiObject: nat)

  /** A lookup on the device: the selector as given, or with instance(n) or index(n) applied to it. */
  datatype Query = Plain(selector: string) | Instance(selector: string, n: nat) | Index(selector: string, n: nat)

  /** What asking an element for a child gives: the child, null, or a UiObjectNotFoundException. */
  datatype ChildLookup = Child(obj: nat) | NoChild | ChildNotFound

  datatype HashError = ElementNotFound | NullPointer | UiObjectNotFound

  /**
   * The device as the table sees it: findObject on the screen (null when
   * nothing matches), getChild under an element, and the enabled flag and
   * the bounds of each UI object.
   */
  datatype Device = Device(
    find: Query -> Option<nat>,
    child: (nat, Query) -> ChildLookup,
    enabled: nat -> bool,
    bounds: nat -> Rect,
    visibleBounds: nat -> Rect)

  /** The element the table holds under `key`, or null. */
  function Stored(elements: map<string, HashElement>, key: string): Option<HashElement>
  {
    if key in elements then Some(elements[key]) else None
  }

  /**
   * getElement(sel, key) as written: without a parent the result of
   * findObject is used unchecked, and under a parent the child is used
   * unchecked when getChild answers null.
   */
  function LocateAsWritten(base: Option<HashElement>, sel: string, dev: Device): (r: Result<nat, HashError>)
    ensures r == Err(NullPointer) <==>
      if base.None? then dev.find(Plain(sel)).None? else dev.child(base.value.uiObject, Plain(sel)).NoChild?
    ensures r != Err(NullPointer) ==> r == Locate(base, sel, dev)
  {
    var found :=
      if base.None? then
        (if dev.find(Plain(sel)).None? then Err(NullPointer) else Ok(dev.find(Plain(sel)).value))
      else
        match dev.child(base.value.uiObject, Plain(sel))
        case ChildNotFound => Err(ElementNotFound)
        case NoChild => Err(NullPointer)
        case Child(o) =>
          if !Intersects(dev.bounds(base.value.uiObject), dev.visibleBounds(o)) then Err(ElementNotFound) else Ok(o);
    if found.Err? then found
    else if dev.enabled(found.value) then found
    else Err(ElementNotFound)
  }

  /**
   * getElement(sel, key) as evidently meant: an element that is not there
   * is an ElementNotFoundException, however the device reports its absence.
   */
  function Locate(base: Option<HashElement>, sel: string, dev: Device): (r: Result<nat, HashError>)
    ensures r.Err? ==> r.error == ElementNotFound
    ensures r.Ok? ==>
      dev.enabled(r.value) &&
      if base.None? then dev.find(Plain(sel)) == Some(r.value)
      else dev.child(base.value.uiObject, Plain(sel)) == Child(r.value)
           && Intersects(dev.bounds(base.value.uiObject), dev.visibleBounds(r.value))
    ensures base.None? && dev.find(Plain(sel)).Some? && dev.enabled(dev.find(Plain(sel)).value) ==> r.Ok?
    ensures (base.Some? && dev.child(base.value.uiObject, Plain(sel)).Child?
             && dev.enabled(dev.child(base.value.uiObject, Plain(sel)).obj)
             && Intersects(dev.bounds(base.value.uiObject), dev.visibleBounds(dev.child(base.value.uiObject, Plain(sel)).obj)))
            ==> r.Ok?
  {
    var found :=
      if base.None? then
        (if dev.find(Plain(sel)).None? then Err(ElementNotFound) else Ok(dev.find(Plain(sel)).value))
      else
        match dev.child(base.value.uiObject, Plain(sel))
        case ChildNotFound => Err(ElementNotFound)
        case NoChild => Err(ElementNotFound)
        case Child(o) =>
          if !Intersects(dev.bounds(base.value.uiObject), dev.visibleBounds(o)) then Err(ElementNotFound) else Ok(o);
    if found.Err? then found
    else if dev.enabled(found.value) then found
    else Err(ElementNotFound)
  }

  /** The two agree except where the device answers null: there the code as written dereferences it. */
  lemma LocateNullCounterexample(sel: string, dev: Device)
    requires dev.find(Plain(sel)).None?
    ensures LocateAsWritten(None, sel, dev) == Err(NullPointer)
    ensures Locate(None, sel, dev) == Err(ElementNotFound)
  {
  }

  lemma LocateAgrees(base: Option<HashElement>, sel: string, dev: Device)
    requires LocateAsWritten(base, sel, dev) != Err(NullPointer)
    ensures Locate(base, sel, dev) == LocateAsWritten(base, sel, dev)
  {
  }

  /** What the k-th probe of the lookup loop sees when it probes instance or index k. */
  function ProbeAt(base: Option<HashElement>, sel: string, dev: Device, k: nat): ChildLookup
  {
    if base.None? then
      var q := if UsesIndex(sel) then Index(sel, k) else Instance(sel, k);
      if dev.find(q).Some? then Child(dev.find(q).value) else NoChild
    else dev.child(base.value.uiObject, Instance(sel, k))
  }

  /** The k-th probe finds an enabled object, so the loop goes on. */
  predicate Hit(base: Option<HashElement>, sel: string, dev: Device, k: nat)
  {
    ProbeAt(base, sel, dev, k).Child? && dev.enabled(ProbeAt(base, sel, dev, k).obj)
  }

  /** The objects the probes find from k on, up to the first miss; a thrown UiObjectNotFoundException ends the call. */
  function FoundFrom(base: Option<HashElement>, sel: string, dev: Device, k: nat, bound: nat): (r: Result<seq<nat>, HashError>)
    requires k <= bound && !Hit(base, sel, dev, bound)
    ensures r.Ok? ==> |r.value| <= bound - k
    decreases bound - k
  {
    match ProbeAt(base, sel, dev, k)
    case ChildNotFound => Err(UiObjectNotFound)
    case NoChild => Ok([])
    case Child(o) =>
      if !dev.enabled(o) then Ok([])
      else match FoundFrom(base, sel, dev, k + 1, bound)
        case Err(e) => Err(e)
        case Ok(rest) => Ok([o] + rest)
  }

  /** found[0] is what probe k found enabled, found[1] what probe k + 1 found, and so on. */
  predicate ProbesFound(base: Option<HashElement>, sel: string, dev: Device, k: nat, found: seq<nat>)
    decreases |found|
  {
    found != [] ==>
      Hit(base, sel, dev, k) && ProbeAt(base, sel, dev, k).obj == found[0] && ProbesFound(base, sel, dev, k + 1, found[1..])
  }

  /** Read index by index: found[j] is what probe k + j found enabled. */
  lemma {:induction false} ProbesFoundAt(base: Option<HashElement>, sel: string, dev: Device, k: nat, found: seq<nat>, j: nat)
    requires ProbesFound(base, sel, dev, k, found) && j < |found|
    ensures Hit(base, sel, dev, k + j) && ProbeAt(base, sel, dev, k + j).obj == found[j]
    decreases j
  {
    if j > 0 {
      ProbesFoundAt(base, sel, dev, k + 1, found[1..], j - 1);
      assert k + j == (k + 1) + (j - 1);
    }
  }

  /** Every object found is one a probe found enabled, in probe order from instance k on. */
  lemma {:induction false} FoundFromHits(base: Option<HashElement>, sel: string, dev: Device, k: nat, bound: nat)
    requires k <= bound && !Hit(base, sel, dev, bound)
    ensures FoundFrom(base, sel, dev, k, bound).Ok? ==> ProbesFound(base, sel, dev, k, FoundFrom(base, sel, dev, k, bound).value)
    decreases bound - k
  {
    FoundFromStep(base, sel, dev, k, bound);
    var r := FoundFrom(base, sel, dev, k, bound);
    if Hit(base, sel, dev, k) && r.Ok? {
      FoundFromHits(base, sel, dev, k + 1, bound);
      var rest := FoundFrom(base, sel, dev, k + 1, bound).value;
      assert ([ProbeAt(base, sel, dev, k).obj] + rest)[1..] == rest;
    } else if r.Ok? {
      assert r.value == [];
    }
  }

  /** The UI objects of the elements, in order. */
  function Objects(found: seq<HashElement>): (r: seq<nat>)
    ensures |r| == |found|
  {
    if found == [] then [] else [found[0].uiObject] + Objects(found[1..])
  }

  lemma {:induction false} ObjectsSnoc(found: seq<HashElement>, e: HashElement)
    ensures Objects(found + [e]) == Objects(found) + [e.uiObject]
    decreases |found|
  {
    if found == [] {
      assert found + [e] == [e];
    } else {
      assert (found + [e])[1..] == found[1..] + [e];
      ObjectsSnoc(found[1..], e);
    }
  }

  /** The keys the counter has handed out so far: "1" to the counter's value. */
  predicate CounterKey(counter: int, k: string)
  {
    exists i :: 1 <= i <= counter && k == IntToString(i)
  }

  lemma IntToStringInjective(a: int, b: int)
    requires IsInt32(a) && IsInt32(b) && IntToString(a) == IntToString(b)
    ensures a == b
  {
    ParseIntToString(a);
    ParseIntToString(b);
  }

  /** Every key is one the counter handed out, and holds the element created with it. */
  predicate ValidTable(counter: int, elements: map<string, HashElement>)
  {
    0 <= counter <= INT_MAX &&
    forall k :: k in elements ==> elements[k].id == k && CounterKey(counter, k)
  }

  /**
   * The probing loop so far, from a table `start` with counter `startCounter`:
   * the table is valid, the counter went up once per element found, and the
   * elements found are new and stored.
   */
  predicate Tracked(counter: int, elements: map<string, HashElement>, start: map<string, HashElement>,
                    startCounter: int, found: seq<HashElement>)
  {
    ValidTable(counter, elements) && counter == startCounter + |found|
    && FreshIn(found, start, elements) && start.Keys <= elements.Keys
  }

  lemma TrackedSnoc(counter: int, elements: map<string, HashElement>, start: map<string, HashElement>,
                    startCounter: int, found: seq<HashElement>, el: HashElement,
                    counter': int, elements': map<string, HashElement>)
    requires Tracked(counter, elements, start, startCounter, found)
    requires ValidTable(counter', elements') && el.id !in elements && elements' == elements[el.id := el]
    requires counter' == counter + 1
    ensures Tracked(counter', elements', start, startCounter, found + [el])
  {
    FreshSnoc(found, el, start, elements, elements');
  }

  class AndroidElementsHash {
    var counter: int
    var elements: map<string, HashElement>

    predicate Valid()
      reads this
    {
      ValidTable(counter, elements)
    }

    constructor ()
      ensures counter == 0 && elements == map[] && Valid()
    {
      counter := 0;
      elements := map[];
    }

    /**
     * addElement: the Integer counter goes up by one (wrapping like Java's
     * int) and the element is stored under its decimal string; until the
     * counter reaches Integer.MAX_VALUE the key is one never used before.
     */
    method AddElement(obj: nat) returns (el: HashElement)
      modifies this
      ensures counter == ToInt32(old(counter) + 1)
      ensures el == HashElement(IntToString(counter), obj) && elements == old(elements)[el.id := el]
      ensures old(Valid()) && old(counter) < INT_MAX ==> el.id !in old(elements) && Valid()
    {
      counter := ToInt32(counter + 1);
      var key := IntToString(counter);
      el := HashElement(key, obj);
      if old(Valid()) && old(counter) < INT_MAX {
        forall k | k in old(elements)
          ensures k != key
        {
          var i :| 1 <= i <= old(counter) && k == IntToString(i);
          if k == key {
            IntToStringInjective(i, counter);
          }
        }
      }
      elements := elements[key := el];
    }

    /** getElement(key): what is stored under the key, or null. */
    method GetElementByKey(key: string) returns (r: Option<HashElement>)
      ensures r.Some? <==> key in elements
      ensures r.Some? ==> r.value == elements[key]
    {
      if key in elements {
        return Some(elements[key]);
      }
      return None;
    }

    /** getElement(sel, key): the element Locate finds, added to the table. */
    method GetElement(sel: string, key: string, dev: Device) returns (r: Result<HashElement, HashError>)
      modifies this
      ensures var l := Locate(Stored(old(elements), key), sel, dev);
        && (l.Err? ==> r == Err(ElementNotFound) && counter == old(counter) && elements == old(elements))
        && (l.Ok? ==> r == Ok(HashElement(IntToString(counter), l.value))
                      && counter == ToInt32(old(counter) + 1)
                      && elements == old(elements)[r.value.id := r.value])
    {
      var baseEl := GetElementByKey(key);
      var found := Locate(baseEl, sel, dev);
      if found.Err? {
        return Err(ElementNotFound);
      }
      var el := AddElement(found.value);
      return Ok(el);
    }

    /**
     * getElements as written, run for at most `fuel` rounds: the loop probes
     * the same unchanged selector every round, so once the first probe finds
     * an enabled object it never stops: after any number of rounds it is
     * still searching and has added that object once per round.
     */
    method GetElementsAsWritten(sel: string, key: string, dev: Device, fuel: nat)
      returns (r: Result<seq<HashElement>, HashError>, stillSearching: bool)
      modifies this
      ensures !EndsWithInstance(sel) && Hit0(Stored(old(elements), key), sel, dev) ==>
        r.Ok? && stillSearching && |r.value| == fuel
        && forall j :: 0 <= j < fuel ==> r.value[j].uiObject == FirstProbe(Stored(old(elements), key), sel, dev).obj
      ensures fuel > 0 && !EndsWithInstance(sel) && FirstProbe(Stored(old(elements), key), sel, dev) == NoChild ==>
        r == Ok([]) && !stillSearching
    {
      var found: seq<HashElement> := [];
      if EndsWithInstance(sel) {
        var instanceObj := dev.find(Plain(sel));
        if instanceObj.Some? && dev.enabled(instanceObj.value) {
          var el := AddElement(instanceObj.value);
          found := found + [el];
        }
        return Ok(found), false;
      }
      var baseEl := GetElementByKey(key);
      ghost var first := FirstProbe(baseEl, sel, dev);
      var keepSearching := true;
      var rounds := 0;
      while keepSearching && rounds < fuel
        invariant 0 <= rounds <= fuel && |found| <= rounds
        invariant !first.Child? ==> found == [] && (rounds > 0 ==> !keepSearching)
        invariant Hit0(baseEl, sel, dev) ==>
          (keepSearching && |found| == rounds && forall j :: 0 <= j < |found| ==> found[j].uiObject == first.obj)
      {
        var lastFoundObj := FirstProbe(baseEl, sel, dev);
        if lastFoundObj.ChildNotFound? {
          return Err(UiObjectNotFound), false;
        }
        rounds := rounds + 1;
        if lastFoundObj.Child? && dev.enabled(lastFoundObj.obj) {
          var el := AddElement(lastFoundObj.obj);
          found := found + [el];
        } else {
          keepSearching := false;
        }
      }
      return Ok(found), keepSearching;
    }

    /**
     * getElements as the commented-out probing code intends: round k probes
     * instance k (index k for a CLASS_REGEX selector) and the loop stops at
     * the first miss. `bound` is a probe known to miss, which ends the loop.
     */
    method GetElements(sel: string, key: string, dev: Device, bound: nat)
      returns (r: Result<seq<HashElement>, HashError>)
      modifies this
      requires !Hit(Stored(elements, key), sel, dev, bound)
      ensures EndsWithInstance(sel) ==>
        (r.Ok? && |r.value| <= 1
         && (r.value != [] <==> dev.find(Plain(sel)).Some? && dev.enabled(dev.find(Plain(sel)).value))
         && (r.value != [] ==> r.value[0].uiObject == dev.find(Plain(sel)).value))
      ensures !EndsWithInstance(sel) ==> var spec := FoundFrom(Stored(old(elements), key), sel, dev, 0, bound);
        (spec.Err? <==> r.Err?) && (r.Ok? ==> Objects(r.value) == spec.value)
      ensures r.Ok? && old(Valid()) && old(counter) + bound < INT_MAX ==>
        Valid() && FreshIn(r.value, old(elements), elements)
    {
      if EndsWithInstance(sel) {
        r := GetInstanceElements(sel, dev);
      } else {
        r := ProbeElements(sel, key, dev, bound);
      }
    }

    /** The branch for a selector already naming its instance: only that one object, when it is there and enabled. */
    method GetInstanceElements(sel: string, dev: Device) returns (r: Result<seq<HashElement>, HashError>)
      modifies this
      ensures r.Ok? && |r.value| <= 1
      ensures r.value != [] <==> dev.find(Plain(sel)).Some? && dev.enabled(dev.find(Plain(sel)).value)
      ensures r.value != [] ==> r.value[0].uiObject == dev.find(Plain(sel)).value
      ensures r.value == [] ==> elements == old(elements) && counter == old(counter)
      ensures old(Valid()) && old(counter) < INT_MAX ==> Valid() && FreshIn(r.value, old(elements), elements)
    {
      var found: seq<HashElement> := [];
      var instanceObj := dev.find(Plain(sel));
      if instanceObj.Some? && dev.enabled(instanceObj.value) {
        var el := AddElement(instanceObj.value);
        found := found + [el];
      }
      return Ok(found);
    }

    /** The probing loop of getElements, for a selector without an instance. */
    method ProbeElements(sel: string, key: string, dev: Device, bound: nat)
      returns (r: Result<seq<HashElement>, HashError>)
      modifies this
      requires !Hit(Stored(elements, key), sel, dev, bound)
      ensures var spec := FoundFrom(Stored(old(elements), key), sel, dev, 0, bound);
        (spec.Err? <==> r.Err?) && (r.Ok? ==> Objects(r.value) == spec.value)
      ensures r.Ok? && old(Valid()) && old(counter) + bound < INT_MAX ==>
        Valid() && FreshIn(r.value, old(elements), elements)
    {
      var found: seq<HashElement> := [];
      var baseEl := GetElementByKey(key);
      assert baseEl == Stored(elements, key);
      assert !Hit(baseEl, sel, dev, bound);
      ghost var start, startCounter := elements, counter;
      ghost var tracked := Valid() && counter + bound < INT_MAX;
      ghost var spec := FoundFrom(baseEl, sel, dev, 0, bound);
      var keepSearching := true;
      var k := 0;
      PrependNothing(spec);
      while keepSearching
        invariant keepSearching ==> k <= bound
        invariant keepSearching ==> spec == Prepend(Objects(found), FoundFrom(baseEl, sel, dev, k, bound))
        invariant !keepSearching ==> spec == Ok(Objects(found))
        invariant |found| <= k
        invariant tracked ==> Tracked(counter, elements, start, startCounter, found)
        decreases if keepSearching then bound - k + 1 else 0
      {
        var lastFoundObj := ProbeAt(baseEl, sel, dev, k);
        FoundFromStep(baseEl, sel, dev, k, bound);
        if lastFoundObj.ChildNotFound? {
          return Err(UiObjectNotFound);
        }
        ghost var before := found;
        ghost var counterBefore := counter;
        ghost var elementsBefore := elements;
        if lastFoundObj.Child? && dev.enabled(lastFoundObj.obj) {
          var el := AddElement(lastFoundObj.obj);
          if tracked {
            TrackedSnoc(counterBefore, elementsBefore, start, startCounter, before, el, counter, elements);
          }
          found := found + [el];
          SpecStep(spec, before, el,
                   FoundFrom(baseEl, sel, dev, k, bound), FoundFrom(baseEl, sel, dev, k + 1, bound));
        } else {
          keepSearching := false;
          assert Objects(found) + [] == Objects(found);
        }
        k := k + 1;
      }
      return Ok(found);
    }
  }

  /** The first (and, as written, every) probe of getElements: the unchanged selector. */
  function FirstProbe(base: Option<HashElement>, sel: string, dev: Device): ChildLookup
  {
    if base.None? then
      (if dev.find(Plain(sel)).Some? then Child(dev.find(Plain(sel)).value) else NoChild)
    else dev.child(base.value.uiObject, Plain(sel))
  }

  predicate Hit0(base: Option<HashElement>, sel: string, dev: Device)
  {
    FirstProbe(base, sel, dev).Child? && dev.enabled(FirstProbe(base, sel, dev).obj)
  }

  /** The found elements are new to the table and are all stored in it now. */
  predicate FreshIn(found: seq<HashElement>, before: map<string, HashElement>, after: map<string, HashElement>)
  {
    forall j :: 0 <= j < |found| ==> found[j].id !in before && found[j].id in after && after[found[j].id] == found[j]
  }

  /** One round of the probing loop, read off FoundFrom. */
  lemma FoundFromStep(base: Option<HashElement>, sel: string, dev: Device, k: nat, bound: nat)
    requires k <= bound && !Hit(base, sel, dev, bound)
    ensures Hit(base, sel, dev, k) ==>
      (k < bound &&
       FoundFrom(base, sel, dev, k, bound) ==
         match FoundFrom(base, sel, dev, k + 1, bound)
         case Err(e) => Err(e)
         case Ok(rest) => Ok([ProbeAt(base, sel, dev, k).obj] + rest))
    ensures !Hit(base, sel, dev, k) && !ProbeAt(base, sel, dev, k).ChildNotFound? ==>
      FoundFrom(base, sel, dev, k, bound) == Ok([])
    ensures ProbeAt(base, sel, dev, k).ChildNotFound? ==> FoundFrom(base, sel, dev, k, bound) == Err(UiObjectNotFound)
  {
  }

  lemma FreshSnoc(found: seq<HashElement>, el: HashElement, start: map<string, HashElement>,
                  before: map<string, HashElement>, after: map<string, HashElement>)
    requires FreshIn(found, start, before) && start.Keys <= before.Keys
    requires el.id !in before && after == before[el.id := el]
    ensures FreshIn(found + [el], start, after) && start.Keys <= after.Keys
  {
  }

  function Prepend(acc: seq<nat>, r: Result<seq<nat>, HashError>): Result<seq<nat>, HashError>
  {
    match r
    case Err(e) => Err(e)
    case Ok(rest) => Ok(acc + rest)
  }

  /** One hit of the probing loop keeps "found so far, then the rest of the probes" equal to the whole. */
  lemma SpecStep(spec: Result<seq<nat>, HashError>, before: seq<HashElement>, el: HashElement,
                 cur: Result<seq<nat>, HashError>, next: Result<seq<nat>, HashError>)
    requires spec == Prepend(Objects(before), cur)
    requires cur == match next case Err(e) => Err(e) case Ok(rest) => Ok([el.uiObject] + rest)
    ensures spec == Prepend(Objects(before + [el]), next)
  {
    ObjectsSnoc(before, el);
    PrependSnoc(Objects(before), el.uiObject, next);
  }

  lemma PrependNothing(r: Result<seq<nat>, HashError>)
    ensures Prepend([], r) == r
  {
    if r.Ok? {
      assert [] + r.value == r.value;
    }
  }

  lemma PrependSnoc(acc: seq<nat>, o: nat, r: Result<seq<nat>, HashError>)
    ensures Prepend(acc, match r case Err(e) => Err(e) case Ok(rest) => Ok([o] + rest)) == Prepend(acc + [o], r)
  {
    if r.Ok? {
      assert acc + ([o] + r.value) == acc + [o] + r.value;
    }
  }
}
