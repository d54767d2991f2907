/**
 * The known-element cache: element handles by id, deduplicated by value,
 * with stale handles restored from the locator they were found with.
 */
module KnownElementsCache {
  import opened Common
  import opened Elements

  /** What restoring may raise: a StaleElementReferenceException, or exhausting the call stack. */
  datatype KnownError = StaleElementReference | StackOverflow

  /** The strategies restoreCachedElement knows how to search again with. */
  predicate Restorable(s: Strategy)
  {
    s == Id || s == AccessibilityId || s == ClassName || s == XPath || s == AndroidUiAutomator
  }

  /** Every handle is cached under its own id. */
  predicate KeyedById(cache: map<string, AndroidElement>)
  {
    forall k :: k in cache ==> cache[k].id == k
  }

  /** `after` holds the same ids as `before`, each for the same located element. */
  predicate Refreshed(before: map<string, AndroidElement>, after: map<string, AndroidElement>)
  {
    after.Keys == before.Keys && forall k :: k in before ==> SameLocator(after[k], before[k])
  }

  class KnownElements {
    var cache: map<string, AndroidElement>

    constructor ()
      ensures cache == map[]
    {
      cache := map[];
    }

    /** getCacheKey: the key of some entry holding `element`, or null. */
    method GetCacheKey(element: AndroidElement) returns (key: Option<string>)
      ensures key.Some? <==> element in cache.Values
      ensures key.Some? ==> key.value in cache && cache[key.value] == element
    {
      var entries := cache.Keys;
      while entries != {}
        invariant entries <= cache.Keys
        invariant forall k :: k in cache && k !in entries ==> cache[k] != element
        decreases |entries|
      {
        var k :| k in entries;
        if cache[k] == element {
          return Some(k);
        }
        entries := entries - {k};
      }
      return None;
    }

    /** add: an element already cached keeps its key; a new one is stored under its own id. */
    method Add(element: AndroidElement) returns (id: string)
      modifies this
      ensures element in old(cache).Values ==> cache == old(cache)
      ensures element !in old(cache).Values ==> cache == old(cache)[element.id := element] && id == element.id
      ensures id in cache && cache[id] == element
      ensures KeyedById(old(cache)) ==> KeyedById(cache)
    {
      if element in cache.Values {
        var key := GetCacheKey(element);
        return key.value;
      }
      cache := cache[element.id := element];
      return element.id;
    }

    /**
     * getElementFromCache: null for an unknown id. A cached handle whose
     * object no longer answers (`alive` is false) is first restored, which can
     * fail. `fuel` bounds the depth of the recursion through context elements.
     */
    method GetElementFromCache(id: string, alive: AndroidElement -> bool,
                               locate: (Option<AndroidElement>, By) -> Option<nat>, fuel: nat)
      returns (r: Result<Option<AndroidElement>, KnownError>)
      modifies this
      requires KeyedById(cache)
      ensures KeyedById(cache) && Refreshed(old(cache), cache)
      ensures id !in old(cache) ==> r == Ok(None) && cache == old(cache)
      ensures id in old(cache) && alive(old(cache)[id]) ==> r == Ok(Some(old(cache)[id])) && cache == old(cache)
      ensures id in old(cache) && RestoreRefused(old(cache)[id]) && !alive(old(cache)[id]) ==>
        r == Err(StaleElementReference) && cache == old(cache)
      ensures r.Ok? ==> (r.value.Some? <==> id in cache) && (r.value.Some? ==> r.value.value == cache[id])
      decreases fuel, 1
    {
      if id in cache {
        var result := cache[id];
        if !alive(result) {
          var restored := RestoreCachedElement(result, alive, locate, fuel);
          if restored.Err? {
            return Err(restored.error);
          }
        }
      }
      if id in cache {
        return Ok(Some(cache[id]));
      }
      return Ok(None);
    }

    /**
     * restoreCachedElement: a handle without a locator, or from a multiple
     * match, cannot be restored; otherwise it is searched for again (under its
     * context element, when it has one) and, when found, cached again under
     * the same id holding the object found.
     */
    method RestoreCachedElement(element: AndroidElement, alive: AndroidElement -> bool,
                                locate: (Option<AndroidElement>, By) -> Option<nat>, fuel: nat)
      returns (r: Result<(), KnownError>)
      modifies this
      requires KeyedById(cache) && element.id in cache && SameLocator(cache[element.id], element)
      ensures KeyedById(cache) && Refreshed(old(cache), cache)
      ensures RestoreRefused(element) ==> r == Err(StaleElementReference) && cache == old(cache)
      ensures r.Ok? ==> cache[element.id] == element.(uiObject := cache[element.id].uiObject)
      ensures r.Ok? && element.contextId.None? ==>
        cache == old(cache)[element.id := cache[element.id]]
        && locate(None, element.locatedBy.value) == Some(cache[element.id].uiObject)
      ensures (!RestoreRefused(element) && element.contextId.None?
               && (!Restorable(element.locatedBy.value.strategy) || locate(None, element.locatedBy.value).None?)) ==>
        r == Err(StaleElementReference) && cache == old(cache)
      decreases fuel, 0
    {
      if element.locatedBy.None? || !element.singleMatch {
        return Err(StaleElementReference);
      }
      var locator := element.locatedBy.value;
      var searchRoot: Option<AndroidElement> := None;
      if element.contextId.Some? {
        if fuel == 0 {
          return Err(StackOverflow);
        }
        var root := GetElementFromCache(element.contextId.value, alive, locate, fuel - 1);
        if root.Err? {
          return Err(root.error);
        }
        searchRoot := root.value;
      }
      var ui2Object: Option<nat> := None;
      if Restorable(locator.strategy) {
        ui2Object := locate(searchRoot, locator);
      }
      if ui2Object.None? {
        return Err(StaleElementReference);
      }
      var restoredElement := element.(uiObject := ui2Object.value);
      cache := cache[restoredElement.id := restoredElement];
      return Ok(());
    }
  }

  /** The guards restoreCachedElement fails on before searching: no locator, or not a single match. */
  predicate RestoreRefused(element: AndroidElement)
  {
    element.locatedBy.None? || !element.singleMatch
  }
}
