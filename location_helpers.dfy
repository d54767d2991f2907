/**
 * LocationHelpers: turning an id locator into a fully qualified resource id,
 * and picking the first selector out of a UiAutomator expression.
 */
module LocationHelpers {
  import opened Common
  import opened Json

  const ID_INFIX := ":id/"

  /** `[a-zA-Z_]`: the first character of a Java package. */
  predicate IsPackageStart(c: char)
  {
    ('a' <= c <= 'z') || ('A' <= c <= 'Z') || c == '_'
  }

  /** `[a-zA-Z0-9._]`: the other characters of a Java package. */
  predicate IsPackageChar(c: char)
  {
    IsPackageStart(c) || ('0' <= c <= '9') || c == '.'
  }

  predicate PackagePart(p: string)
  {
    |p| >= 1 && IsPackageStart(p[0]) && forall i :: 1 <= i < |p| ==> IsPackageChar(p[i])
  }

  /** `[^/]+`: the resource type. */
  predicate TypePart(t: string)
  {
    |t| >= 1 && '/' !in t
  }

  /** `\S+`: the resource name. */
  predicate NamePart(n: string)
  {
    |n| >= 1 && forall i :: 0 <= i < |n| ==> !IsRegexSpace(n[i])
  }

  /** The shape `^[a-zA-Z_][a-zA-Z0-9._]*:[^/]+/\S+$` describes: package, ':', type, '/', name. */
  predicate ResourceIdShaped(s: string, p: string, t: string, n: string)
  {
    s == p + ":" + t + "/" + n && PackagePart(p) && TypePart(t) && NamePart(n)
  }

  /** The length of the longest prefix of package characters. */
  function PackageRun(s: string): (k: nat)
    ensures k <= |s| && (forall i :: 0 <= i < k ==> IsPackageChar(s[i]))
    ensures k < |s| ==> !IsPackageChar(s[k])
  {
    if s == [] || !IsPackageChar(s[0]) then 0 else 1 + PackageRun(s[1..])
  }

  /** The index of the first occurrence of `c`, or the length when there is none. */
  function IndexOf(s: string, c: char): (k: nat)
    ensures k <= |s| && c !in s[..k]
    ensures k < |s| ==> s[k] == c
  {
    if s == [] then 0
    else if s[0] == c then 0
    else
      var k := 1 + IndexOf(s[1..], c);
      assert s[..k] == [s[0]] + s[1..][..k - 1];
      k
  }

  /** The regex match, decided the way a backtracking matcher must end up: the package stops at the colon, the type at the first slash. */
  predicate IsResourceId(s: string)
  {
    |s| >= 1 && IsPackageStart(s[0]) &&
    var colon := 1 + PackageRun(s[1..]);
    colon < |s| && s[colon] == ':' &&
    var rest := s[colon + 1..];
    var slash := IndexOf(rest, '/');
    1 <= slash < |rest| && NamePart(rest[slash + 1..])
  }

  /** The decision procedure accepts exactly the strings of the regex's shape. */
  lemma IsResourceIdMeaning(s: string)
    ensures IsResourceId(s) <==> exists p, t, n :: ResourceIdShaped(s, p, t, n)
  {
    if IsResourceId(s) {
      IsResourceIdSound(s);
    }
    if exists p, t, n :: ResourceIdShaped(s, p, t, n) {
      var p, t, n :| ResourceIdShaped(s, p, t, n);
      IsResourceIdComplete(p, t, n);
    }
  }

  lemma IsResourceIdSound(s: string)
    requires IsResourceId(s)
    ensures exists p, t, n :: ResourceIdShaped(s, p, t, n)
  {
    var colon := 1 + PackageRun(s[1..]);
    var rest := s[colon + 1..];
    var slash := IndexOf(rest, '/');
    PackagePrefix(s);
    Reassembled(s, colon, slash);
    assert ResourceIdShaped(s, s[..colon], rest[..slash], rest[slash + 1..]);
  }

  /** The three parts around the colon at `colon` and the first slash after it make up the string. */
  lemma Reassembled(s: string, colon: nat, slash: nat)
    requires colon < |s| && s[colon] == ':'
    requires slash < |s[colon + 1..]| && s[colon + 1..][slash] == '/'
    ensures var rest := s[colon + 1..];
      s == s[..colon] + ":" + rest[..slash] + "/" + rest[slash + 1..]
  {
    var rest := s[colon + 1..];
    SplitAt(s, colon);
    SplitAt(rest, slash);
  }

  /** A string is the part before position i, the character at i, and the part after it. */
  lemma SplitAt(s: string, i: nat)
    requires i < |s|
    ensures s == s[..i] + [s[i]] + s[i + 1..]
  {
  }

  /** A package start followed by the longest run of package characters is a package. */
  lemma PackagePrefix(s: string)
    requires |s| >= 1 && IsPackageStart(s[0])
    ensures PackagePart(s[..1 + PackageRun(s[1..])])
  {
    var p := s[..1 + PackageRun(s[1..])];
    forall i | 1 <= i < |p|
      ensures IsPackageChar(p[i])
    {
      assert p[i] == s[1..][i - 1];
    }
  }

  /** Every package, type and name joined as `package:type/name` is accepted. */
  lemma IsResourceIdComplete(p: string, t: string, n: string)
    requires PackagePart(p) && TypePart(t) && NamePart(n)
    ensures IsResourceId(p + ":" + t + "/" + n)
  {
    var s := p + ":" + t + "/" + n;
    assert s[1..][|p| - 1] == ':';
    PackageRunOf(s[1..], |p| - 1);
    var colon := 1 + PackageRun(s[1..]);
    var rest := s[colon + 1..];
    assert rest == t + "/" + n;
    IndexOfAfter(t, '/', n);
    assert rest[IndexOf(rest, '/') + 1..] == n;
  }

  lemma {:induction false} PackageRunOf(s: string, k: nat)
    requires k < |s| && !IsPackageChar(s[k]) && forall i :: 0 <= i < k ==> IsPackageChar(s[i])
    ensures PackageRun(s) == k
  {
    if k > 0 {
      PackageRunOf(s[1..], k - 1);
    }
  }

  lemma IndexOfAfter(t: string, c: char, n: string)
    requires c !in t
    ensures IndexOf(t + [c] + n, c) == |t|
    decreases |t|
  {
    if t != [] {
      assert (t + [c] + n)[1..] == t[1..] + [c] + n;
      IndexOfAfter(t[1..], c, n);
    }
  }

  /**
   * rewriteIdLocator: a fully qualified resource id is kept; anything else is
   * prefixed with the appPackage capability and ":id/". An absent capability
   * is concatenated as the text "null".
   */
  function RewriteIdLocator(locator: string, capabilities: map<string, JValue>): (r: string)
    ensures IsResourceId(locator) ==> r == locator
    ensures !IsResourceId(locator) ==>
      r == (if "appPackage" in capabilities then ValueOf(capabilities["appPackage"]) else "null") + ID_INFIX + locator
  {
    if IsResourceId(locator) then locator
    else (if "appPackage" in capabilities then ValueOf(capabilities["appPackage"]) else "null") + ID_INFIX + locator
  }

  /** A bare name rewritten with a known package becomes a fully qualified id, which a second rewrite keeps. */
  lemma RewriteIdLocatorQualifies(locator: string, capabilities: map<string, JValue>, pkg: string)
    requires "appPackage" in capabilities && capabilities["appPackage"] == JString(pkg) && PackagePart(pkg)
    requires NamePart(locator)
    ensures IsResourceId(RewriteIdLocator(locator, capabilities))
    ensures RewriteIdLocator(RewriteIdLocator(locator, capabilities), capabilities) == RewriteIdLocator(locator, capabilities)
  {
    var r := RewriteIdLocator(locator, capabilities);
    if !IsResourceId(locator) {
      assert r == pkg + ":" + "id" + "/" + locator;
      assert TypePart("id");
      IsResourceIdComplete(pkg, "id", locator);
    }
  }

  /** The documented example is already qualified. */
  lemma DocumentedExample(s: string)
    requires s == "com.example.Test:id/enter"
    ensures IsResourceId(s)
  {
    var p, t, n := "com.example.Test", "id", "enter";
    assert s == p + ":" + t + "/" + n;
    assert PackagePart(p) && TypePart(t) && NamePart(n);
    IsResourceIdComplete(p, t, n);
  }

  /** toSelector: the first selector the parser produced, or null when it produced none. */
  function ToSelector<S, E>(parsed: Result<seq<S>, E>): (r: Result<Option<S>, E>)
    ensures parsed.Err? ==> r == Err(parsed.error)
    ensures parsed.Ok? ==> r.Ok? && (r.value.None? <==> parsed.value == [])
    ensures parsed.Ok? && r.value.Some? ==> r.value.value == parsed.value[0]
  {
    match parsed
    case Err(e) => Err(e)
    case Ok(selectors) => if selectors == [] then Ok(None) else Ok(Some(selectors[0]))
  }
}
