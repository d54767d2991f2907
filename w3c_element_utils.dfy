/**
 * Element references in JSON (W3CElementUtils): an element is referenced by
 * its id under the old JSON Wire Protocol key `ELEMENT` and under the web
 * element identifier of the W3C WebDriver Recommendation (section 12.1,
 * "Elements").
 */
module W3CElementUtils {
  import opened Common
  import opened Json

  const JSONWP_ELEMENT_ID_KEY_NAME := "ELEMENT"
  const W3C_ELEMENT_ID_KEY_NAME := "element-6066-11e4-a52e-4f735466cecf"

  /** A key that names an element id, compared ignoring case. */
  predicate IsIdKey(key: string)
  {
    EqualsIgnoreCase(key, JSONWP_ELEMENT_ID_KEY_NAME) || EqualsIgnoreCase(key, W3C_ELEMENT_ID_KEY_NAME)
  }

  /** The member at position i is an id key whose value (as `opt` reads it) is a string. */
  predicate IdAt(m: seq<(string, JValue)>, i: int)
    requires 0 <= i < |m|
  {
    IsIdKey(m[i].0) && Get(m, m[i].0).Some? && Get(m, m[i].0).value.JString?
  }

  /** The key scan of extractElementId, from position i on. */
  function ElementIdFrom(m: seq<(string, JValue)>, i: nat): (r: Option<string>)
    requires i <= |m|
    ensures r.None? <==> forall j :: i <= j < |m| ==> !IdAt(m, j)
    ensures r.Some? ==>
      exists j :: i <= j < |m| && IdAt(m, j) && Get(m, m[j].0) == Some(JString(r.value))
        && forall k :: i <= k < j ==> !IdAt(m, k)
    decreases |m| - i
  {
    if i == |m| then None
    else if IdAt(m, i) then
      var id := Get(m, m[i].0).value.s;
      assert Get(m, m[i].0) == Some(JString(id));
      Some(id)
    else ElementIdFrom(m, i + 1)
  }

  /** extractElementId: the string value of the first id key in key order, or null. */
  function ElementId(m: seq<(string, JValue)>): Option<string>
  {
    ElementIdFrom(m, 0)
  }

  /** extractElementId as the source runs it: a loop over the key iterator with an early return. */
  method ExtractElementId(obj: JsonObject) returns (r: Option<string>)
    ensures r == ElementId(obj.members)
  {
    var keys := Keys(obj.members);
    var i := 0;
    while i < |keys|
      invariant 0 <= i <= |keys|
      invariant ElementIdFrom(obj.members, 0) == ElementIdFrom(obj.members, i)
    {
      var key := keys[i];
      var v := Get(obj.members, key);
      if IsIdKey(key) && v.Some? && v.value.JString? {
        return Some(v.value.s);
      }
      i := i + 1;
    }
    return None;
  }

  /** With distinct keys, `opt` of a member's key is that member's value. */
  lemma {:induction false} GetMember(m: seq<(string, JValue)>, i: int)
    requires UniqueKeys(m) && 0 <= i < |m|
    ensures Get(m, m[i].0) == Some(m[i].1)
  {
    if i > 0 {
      assert m[0].0 != m[i].0;
      assert UniqueKeys(m[1..]) by {
        forall a, b | 0 <= a < b < |m[1..]| ensures m[1..][a].0 != m[1..][b].0 {
          assert m[1..][a] == m[a + 1] && m[1..][b] == m[b + 1];
        }
      }
      GetMember(m[1..], i - 1);
    }
  }

  /**
   * On an object (keys are distinct), extractElementId finds nothing exactly when
   * every id key holds a non-string, and otherwise returns the string under the
   * first id key that holds one; id keys holding other values are passed over.
   */
  lemma ElementIdMeaning(m: seq<(string, JValue)>)
    requires UniqueKeys(m)
    ensures ElementId(m).None? <==> forall j :: 0 <= j < |m| && IsIdKey(m[j].0) ==> !m[j].1.JString?
    ensures ElementId(m).Some? ==>
      exists j :: 0 <= j < |m| && IsIdKey(m[j].0) && m[j].1 == JString(ElementId(m).value)
        && forall k :: 0 <= k < j && IsIdKey(m[k].0) ==> !m[k].1.JString?
  {
    forall j | 0 <= j < |m| ensures IdAt(m, j) <==> IsIdKey(m[j].0) && m[j].1.JString? {
      GetMember(m, j);
    }
  }

  /** attachElementId on the members of the destination: put the id under the JSONWP key, then the W3C key. */
  function Attach(m: seq<(string, JValue)>, id: string): seq<(string, JValue)>
  {
    Update(Update(m, JSONWP_ELEMENT_ID_KEY_NAME, JString(id)), W3C_ELEMENT_ID_KEY_NAME, JString(id))
  }

  /** attachElementId(element, destination), with the element's id given. */
  method AttachElementId(id: string, destination: JsonObject)
    modifies destination
    ensures destination.members == Attach(old(destination.members), id)
  {
    destination.Put(JSONWP_ELEMENT_ID_KEY_NAME, JString(id));
    destination.Put(W3C_ELEMENT_ID_KEY_NAME, JString(id));
  }

  /** Both keys hold the id afterwards, every other key keeps its value, and keys stay distinct. */
  lemma AttachWrites(m: seq<(string, JValue)>, id: string, other: string)
    ensures Get(Attach(m, id), JSONWP_ELEMENT_ID_KEY_NAME) == Some(JString(id))
    ensures Get(Attach(m, id), W3C_ELEMENT_ID_KEY_NAME) == Some(JString(id))
    ensures other != JSONWP_ELEMENT_ID_KEY_NAME && other != W3C_ELEMENT_ID_KEY_NAME ==>
      Get(Attach(m, id), other) == Get(m, other)
    ensures UniqueKeys(m) ==> UniqueKeys(Attach(m, id))
  {
    var m1 := Update(m, JSONWP_ELEMENT_ID_KEY_NAME, JString(id));
    GetUpdate(m, JSONWP_ELEMENT_ID_KEY_NAME, JString(id), other);
    GetUpdate(m1, W3C_ELEMENT_ID_KEY_NAME, JString(id), other);
    GetUpdate(m1, W3C_ELEMENT_ID_KEY_NAME, JString(id), JSONWP_ELEMENT_ID_KEY_NAME);
  }

  /** A key of m that matches an id key ignoring case but is neither of the two exact names and holds a string. */
  predicate HasStrayIdKey(m: seq<(string, JValue)>)
  {
    exists j :: 0 <= j < |m| && IsIdKey(m[j].0) && m[j].0 != JSONWP_ELEMENT_ID_KEY_NAME
      && m[j].0 != W3C_ELEMENT_ID_KEY_NAME && m[j].1.JString?
  }

  /**
   * Round trip: extracting from an object attachElementId wrote to always finds
   * a string, and finds the attached id unless the object already held another
   * case variant of an id key (such as "element") with a string value.
   */
  lemma AttachExtract(m: seq<(string, JValue)>, id: string)
    requires UniqueKeys(m)
    ensures ElementId(Attach(m, id)).Some?
    ensures !HasStrayIdKey(m) ==> ElementId(Attach(m, id)) == Some(id)
  {
    var r := Attach(m, id);
    AttachWrites(m, id, "");
    assert JSONWP_ELEMENT_ID_KEY_NAME in Keys(r) by {
      assert Get(r, JSONWP_ELEMENT_ID_KEY_NAME).Some?;
    }
    var w :| 0 <= w < |r| && r[w].0 == JSONWP_ELEMENT_ID_KEY_NAME;
    assert IsIdKey(r[w].0);
    GetMember(r, w);
    ElementIdMeaning(r);
    if !HasStrayIdKey(m) {
      var j :| 0 <= j < |r| && IsIdKey(r[j].0) && r[j].1 == JString(ElementId(r).value);
      GetMember(r, j);
      if r[j].0 != JSONWP_ELEMENT_ID_KEY_NAME && r[j].0 != W3C_ELEMENT_ID_KEY_NAME {
        AttachWrites(m, id, r[j].0);
        assert false;
      }
    }
  }

  /** A fresh object (as the element JSON responses use) always round-trips. */
  lemma AttachFreshExtract(id: string)
    ensures ElementId(Attach([], id)) == Some(id)
  {
    AttachExtract([], id);
  }
}
