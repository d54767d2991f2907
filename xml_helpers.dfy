/**
 * XML-safe names and strings (XMLHelpers). `ToSafeXmlString` replaces every
 * character outside the `Char` production of XML 1.0 (Fifth Edition, section
 * 2.2) and `ToNodeName` turns a Java class name into an XML tag name through
 * a chain of regular-expression rewrites, each modelled by its own function.
 */
module XMLHelpers {
  import opened Common

  const DEFAULT_VIEW_CLASS_NAME := "android.view.View"

  /** The XML 1.0 Char production: #x9 | #xA | #xD | [#x20-#xD7FF] | [#xE000-#xFFFD] | [#x10000-#x10FFFF]. */
  predicate IsXmlChar(c: char)
  {
    c == '\t' || c == '\n' || c == '\r' || ('\U{20}' <= c <= '\U{D7FF}') || ('\U{E000}' <= c <= '\U{FFFD}')
    || '\U{10000}' <= c
  }

  predicate AllXmlChars(s: string)
  {
    forall i :: 0 <= i < |s| ==> IsXmlChar(s[i])
  }

  /** The replacement of XML10_PATTERN: each illegal character becomes `replacement`. */
  function SafeXml(s: string, replacement: string): (r: string)
    ensures AllXmlChars(s) ==> r == s
    ensures AllXmlChars(replacement) ==> AllXmlChars(r)
    ensures forall c :: c in r ==> c in s || c in replacement
    ensures |replacement| == 1 ==>
      |r| == |s| && forall i :: 0 <= i < |s| ==> r[i] == if IsXmlChar(s[i]) then s[i] else replacement[0]
  {
    if s == [] then []
    else (if IsXmlChar(s[0]) then [s[0]] else replacement) + SafeXml(s[1..], replacement)
  }

  /** toSafeXmlString: null stays null; otherwise the string with illegal characters replaced. */
  function ToSafeXmlString(source: Option<string>, replacement: string): (r: Option<string>)
    ensures r.None? <==> source.None?
    ensures source.Some? && AllXmlChars(source.value) ==> r == source
    ensures source.Some? && AllXmlChars(replacement) ==> AllXmlChars(r.value)
  {
    if source.None? then None else Some(SafeXml(source.value, replacement))
  }

  // ---------------------------------------------------------------------
  // The rewrites of toNodeName
  // ---------------------------------------------------------------------

  /** Characters of `[$@#&]`, rewritten to a dot. */
  predicate IsRenamed(c: char)
  {
    c == '$' || c == '@' || c == '#' || c == '&'
  }

  /** Characters of `[ˋˊ\s]`, removed. */
  predicate IsDropped(c: char)
  {
    c == '\U{02CB}' || c == '\U{02CA}' || IsRegexSpace(c)
  }

  predicate IsQuestionMark(c: char)
  {
    c == '?'
  }

  /** replaceAll("[$@#&]", "."). */
  function ReplaceRenamed(s: string): (r: string)
    ensures |r| == |s| && forall i :: 0 <= i < |s| ==> r[i] == if IsRenamed(s[i]) then '.' else s[i]
  {
    if s == [] then [] else [if IsRenamed(s[0]) then '.' else s[0]] + ReplaceRenamed(s[1..])
  }

  /** replaceAll with an empty replacement for a one-character class. */
  function Remove(s: string, drop: char -> bool): (r: string)
    ensures forall i :: 0 <= i < |r| ==> !drop(r[i])
    ensures forall c :: c in r ==> c in s
    ensures (forall i :: 0 <= i < |s| ==> !drop(s[i])) ==> r == s
  {
    if s == [] then [] else (if drop(s[0]) then [] else [s[0]]) + Remove(s[1..], drop)
  }

  predicate StartsDot(s: string) { s != [] && s[0] == '.' }
  predicate EndsDot(s: string) { s != [] && s[|s| - 1] == '.' }

  predicate NoDoubleDot(s: string)
  {
    forall i :: 0 <= i < |s| - 1 ==> s[i] != '.' || s[i + 1] != '.'
  }

  /** The characters of s other than dots. */
  function NonDots(s: string): string
  {
    if s == [] then [] else (if s[0] == '.' then [] else [s[0]]) + NonDots(s[1..])
  }

  /** replaceAll("\\.+", "."): every run of dots becomes a single dot. */
  function CollapseDots(s: string): (r: string)
    ensures NoDoubleDot(r)
    ensures NoDoubleDot(s) ==> r == s
    ensures NonDots(r) == NonDots(s)
    ensures StartsDot(r) <==> StartsDot(s)
    ensures EndsDot(r) <==> EndsDot(s)
    ensures forall c :: c in r ==> c in s
    ensures s != [] ==> r != []
  {
    if |s| < 2 then s
    else if s[0] == '.' && s[1] == '.' then
      var t := CollapseDots(s[1..]);
      DropDoubledDot(s, t);
      t
    else
      var t := CollapseDots(s[1..]);
      KeepFirst(s, t);
      KeepFirstNoDoubleDot(s, t);
      [s[0]] + t
  }

  /** The first of two leading dots is dropped. */
  lemma DropDoubledDot(s: string, t: string)
    requires |s| >= 2 && s[0] == '.' && s[1] == '.'
    requires NonDots(t) == NonDots(s[1..]) && (StartsDot(t) <==> StartsDot(s[1..]))
    requires EndsDot(t) <==> EndsDot(s[1..])
    requires forall c :: c in t ==> c in s[1..]
    ensures NonDots(t) == NonDots(s) && (StartsDot(t) <==> StartsDot(s)) && (EndsDot(t) <==> EndsDot(s))
    ensures forall c :: c in t ==> c in s
    ensures !NoDoubleDot(s)
  {
    assert NonDots(s) == NonDots(s[1..]);
    assert s[|s| - 1] == s[1..][|s| - 2];
  }

  /** A first character that does not start a double dot is kept in front of the collapsed rest. */
  lemma KeepFirst(s: string, t: string)
    requires |s| >= 2 && !(s[0] == '.' && s[1] == '.')
    requires NonDots(t) == NonDots(s[1..]) && (StartsDot(t) <==> StartsDot(s[1..]))
    requires EndsDot(t) <==> EndsDot(s[1..])
    requires forall c :: c in t ==> c in s[1..]
    requires s[1..] != [] ==> t != []
    ensures NonDots([s[0]] + t) == NonDots(s)
    ensures StartsDot([s[0]] + t) <==> StartsDot(s)
    ensures EndsDot([s[0]] + t) <==> EndsDot(s)
    ensures forall c :: c in [s[0]] + t ==> c in s
  {
    var r := [s[0]] + t;
    assert r[1..] == t;
    assert NonDots(s) == (if s[0] == '.' then [] else [s[0]]) + NonDots(s[1..]);
    assert r[|r| - 1] == t[|t| - 1];
    assert s[|s| - 1] == s[1..][|s| - 2];
  }

  lemma KeepFirstNoDoubleDot(s: string, t: string)
    requires |s| >= 2 && !(s[0] == '.' && s[1] == '.')
    requires NoDoubleDot(t) && (StartsDot(t) <==> StartsDot(s[1..]))
    requires NoDoubleDot(s[1..]) ==> t == s[1..]
    ensures NoDoubleDot([s[0]] + t)
    ensures NoDoubleDot(s) ==> [s[0]] + t == s
  {
    var r := [s[0]] + t;
    forall i | 0 <= i < |r| - 1 ensures r[i] != '.' || r[i + 1] != '.' {
      if i > 0 {
        assert r[i] == t[i - 1] && r[i + 1] == t[i];
      }
    }
    if NoDoubleDot(s) {
      forall i | 0 <= i < |s[1..]| - 1 ensures s[1..][i] != '.' || s[1..][i + 1] != '.' {
        assert s[1..][i] == s[i + 1] && s[1..][i + 1] == s[i + 2];
      }
    }
  }

  /** The line terminators before which java.util.regex lets `$` match at the end of the input. */
  predicate IsLineTerminator(c: char)
  {
    c == '\n' || c == '\r' || c == '\U{85}' || c == '\U{2028}' || c == '\U{2029}'
  }

  /** A dot followed only by one final line terminator: what `\.$` also matches. */
  predicate DotBeforeFinalTerminator(s: string)
  {
    |s| >= 2 && s[|s| - 2] == '.' && IsLineTerminator(s[|s| - 1])
  }

  /** The `^\\.` alternative: a leading dot is dropped. */
  function StripLeading(s: string): (a: string)
    ensures StartsDot(s) ==> s == ['.'] + a
    ensures !StartsDot(s) ==> a == s
  {
    if StartsDot(s) then s[1..] else s
  }

  /** The `\\.$` alternative: a dot at the end of the input, or right before a final line terminator, is dropped. */
  function StripTrailing(a: string): (r: string)
    ensures NonDots(r) == NonDots(a)
    ensures forall c :: c in r ==> c in a
    ensures !EndsDot(a) && !DotBeforeFinalTerminator(a) ==> r == a
    ensures NoDoubleDot(a) && !StartsDot(a) ==> NoDoubleDot(r) && !StartsDot(r) && !EndsDot(r)
  {
    if EndsDot(a) then
      StripLastDot(a);
      a[..|a| - 1]
    else if DotBeforeFinalTerminator(a) then
      StripDotBeforeTerminator(a);
      a[..|a| - 2] + [a[|a| - 1]]
    else a
  }

  lemma StripLastDot(a: string)
    requires EndsDot(a)
    ensures NonDots(a[..|a| - 1]) == NonDots(a)
    ensures forall c :: c in a[..|a| - 1] ==> c in a
    ensures NoDoubleDot(a) && !StartsDot(a) ==>
      NoDoubleDot(a[..|a| - 1]) && !StartsDot(a[..|a| - 1]) && !EndsDot(a[..|a| - 1])
  {
    NonDotsConcat(a[..|a| - 1], ".");
    assert a == a[..|a| - 1] + ".";
  }

  lemma StripDotBeforeTerminator(a: string)
    requires DotBeforeFinalTerminator(a)
    ensures NonDots(a[..|a| - 2] + [a[|a| - 1]]) == NonDots(a)
    ensures forall c :: c in a[..|a| - 2] + [a[|a| - 1]] ==> c in a
    ensures NoDoubleDot(a) && !StartsDot(a) ==>
      var b := a[..|a| - 2] + [a[|a| - 1]];
      NoDoubleDot(b) && !StartsDot(b) && !EndsDot(b)
  {
    var b := a[..|a| - 2] + [a[|a| - 1]];
    NonDotsConcat(a[..|a| - 2], [a[|a| - 1]]);
    NonDotsConcat(a[..|a| - 2], ['.', a[|a| - 1]]);
    assert NonDots(['.', a[|a| - 1]]) == NonDots([a[|a| - 1]]) by {
      assert ['.', a[|a| - 1]][1..] == [a[|a| - 1]];
    }
    assert a == a[..|a| - 2] + ['.', a[|a| - 1]];
    if NoDoubleDot(a) && !StartsDot(a) {
      forall i | 0 <= i < |b| - 1 ensures b[i] != '.' || b[i + 1] != '.' {
        if i < |b| - 2 {
          assert b[i] == a[i] && b[i + 1] == a[i + 1];
        }
      }
    }
  }

  /** replaceAll("(^\\.|\\.$)", ""): both alternatives, leading first. */
  function StripEdgeDots(s: string): (r: string)
    ensures NoDoubleDot(s) ==> NoDoubleDot(r) && !StartsDot(r) && !EndsDot(r)
    ensures !StartsDot(s) && !EndsDot(s) && !DotBeforeFinalTerminator(s) ==> r == s
    ensures NonDots(r) == NonDots(s)
    ensures forall c :: c in r ==> c in s
  {
    var a := StripLeading(s);
    assert NoDoubleDot(s) ==> NoDoubleDot(a) && !StartsDot(a) by {
      if NoDoubleDot(s) && StartsDot(s) {
        forall i | 0 <= i < |a| - 1 ensures a[i] != '.' || a[i + 1] != '.' {
          assert a[i] == s[i + 1] && a[i + 1] == s[i + 2];
        }
        if a != [] { assert a[0] == s[1]; }
      }
    }
    assert NonDots(s) == NonDots(a) by { if StartsDot(s) { assert s[1..] == a; } }
    StripTrailing(a)
  }

  lemma {:induction false} NonDotsConcat(a: string, b: string)
    ensures NonDots(a + b) == NonDots(a) + NonDots(b)
  {
    if a != [] {
      assert (a + b)[0] == a[0];
      assert (a + b)[1..] == a[1..] + b;
      NonDotsConcat(a[1..], b);
      var head: string := if a[0] == '.' then [] else [a[0]];
      assert NonDots(a + b) == head + NonDots(a[1..] + b);
      assert head + (NonDots(a[1..]) + NonDots(b)) == (head + NonDots(a[1..])) + NonDots(b);
    } else {
      assert a + b == b;
    }
  }

  /** The rewriting stages of toNodeName on a non-blank class name, before the blank check. */
  function RewriteClassName(className: string): string
  {
    var renamed := ReplaceRenamed(className);
    var compact := Remove(renamed, IsDropped);
    var safe := SafeXml(compact, "?");
    var noQuestion := Remove(safe, IsQuestionMark);
    StripEdgeDots(CollapseDots(noQuestion))
  }

  /** toNodeName: a blank or null class name, or one that rewrites to a blank name, becomes android.view.View. */
  function ToNodeName(className: Option<string>): (r: string)
    ensures className.None? || IsBlank(className.value) ==> r == DEFAULT_VIEW_CLASS_NAME
  {
    if className.None? || IsBlank(className.value) then DEFAULT_VIEW_CLASS_NAME
    else
      var fixedName := RewriteClassName(className.value);
      if IsBlank(fixedName) then DEFAULT_VIEW_CLASS_NAME else fixedName
  }

  /** What every tag name toNodeName returns satisfies. */
  predicate GoodNodeName(s: string)
  {
    && (forall i :: 0 <= i < |s| ==> IsXmlChar(s[i]) && !IsRenamed(s[i]) && !IsDropped(s[i]) && s[i] != '?')
    && NoDoubleDot(s) && !StartsDot(s) && !EndsDot(s)
    && !IsBlank(s)
  }

  lemma DefaultNameGood()
    ensures GoodNodeName(DEFAULT_VIEW_CLASS_NAME)
  {
    assert DEFAULT_VIEW_CLASS_NAME[0] == 'a';
  }

  /**
   * The output of toNodeName contains none of `$ @ # &`, no `\s` whitespace, no
   * `ˋ`/`ˊ`, no `?` and only XML characters; it has no run of dots, does not
   * start or end with a dot, and is never blank.
   */
  lemma NodeNameGood(className: Option<string>)
    ensures GoodNodeName(ToNodeName(className))
  {
    DefaultNameGood();
    if className.Some? && !IsBlank(className.value) {
      var r := RewriteClassName(className.value);
      forall i | 0 <= i < |r|
        ensures IsXmlChar(r[i]) && !IsRenamed(r[i]) && !IsDropped(r[i]) && r[i] != '?'
      {
        RewriteChar(className.value, r[i]);
      }
    }
  }

  /** Every character the rewriting stages leave is an XML character that none of them removes or renames. */
  lemma RewriteChar(className: string, c: char)
    requires c in RewriteClassName(className)
    ensures IsXmlChar(c) && !IsRenamed(c) && !IsDropped(c) && c != '?'
  {
    var compact := Remove(ReplaceRenamed(className), IsDropped);
    var noQuestion := Remove(SafeXml(compact, "?"), IsQuestionMark);
    assert c in noQuestion;
    SafeStageChar(compact, c);
    RenameStageChar(className, c);
  }

  /** A character left by the two removals around the XML replacement is an XML character other than `?`, from their input. */
  lemma SafeStageChar(compact: string, c: char)
    requires c in Remove(SafeXml(compact, "?"), IsQuestionMark)
    ensures IsXmlChar(c) && c != '?' && c in compact
  {
    var safe := SafeXml(compact, "?");
    var noQuestion := Remove(safe, IsQuestionMark);
    var k :| 0 <= k < |noQuestion| && noQuestion[k] == c;
    assert c in safe;
    assert AllXmlChars("?");
    var j :| 0 <= j < |safe| && safe[j] == c;
  }

  /** A character left by the renaming and the whitespace removal is neither renamed nor dropped. */
  lemma RenameStageChar(className: string, c: char)
    requires c in Remove(ReplaceRenamed(className), IsDropped)
    ensures !IsRenamed(c) && !IsDropped(c)
  {
    var renamed := ReplaceRenamed(className);
    var compact := Remove(renamed, IsDropped);
    var m :| 0 <= m < |compact| && compact[m] == c;
    assert c in renamed;
    var n :| 0 <= n < |renamed| && renamed[n] == c;
  }

  /** A name that already satisfies the rules (and has no dot before a final line terminator) is kept as it is. */
  lemma NodeNameFixpoint(s: string)
    requires GoodNodeName(s) && !DotBeforeFinalTerminator(s)
    ensures ToNodeName(Some(s)) == s
  {
    RewriteCleanName(s);
  }

  /** The rewriting stages leave a name with no renamed, dropped, illegal or `?` characters and no double dot to the edge-dot strip. */
  lemma RewriteCleanName(s: string)
    requires forall i :: 0 <= i < |s| ==> IsXmlChar(s[i]) && !IsRenamed(s[i]) && !IsDropped(s[i]) && s[i] != '?'
    requires NoDoubleDot(s)
    ensures RewriteClassName(s) == StripEdgeDots(s)
  {
    assert ReplaceRenamed(s) == s;
    assert Remove(s, IsDropped) == s;
    assert AllXmlChars(s);
    assert Remove(s, IsQuestionMark) == s;
  }

  /**
   * Because `$` also matches before a final line terminator, a dot that is not
   * the last character can be removed, so toNodeName is not idempotent:
   * "a.\u2028." becomes "a.\u2028", which in turn becomes "a\u2028".
   */
  lemma NodeNameNotIdempotent()
    ensures ToNodeName(Some("a.\U{2028}.")) == "a.\U{2028}"
    ensures ToNodeName(Some("a.\U{2028}")) == "a\U{2028}"
  {
    var s, t, u := "a.\U{2028}.", "a.\U{2028}", "a\U{2028}";
    assert u[0] == 'a';
    StripSample();
    SampleClean(s, t);
    NodeNameOfClean(s, t);
    NodeNameOfClean(t, u);
  }

  lemma SampleClean(s: string, t: string)
    requires s == "a.\U{2028}." && t == "a.\U{2028}"
    ensures s[0] == 'a' && t[0] == 'a'
    ensures forall i :: 0 <= i < |s| ==> IsXmlChar(s[i]) && !IsRenamed(s[i]) && !IsDropped(s[i]) && s[i] != '?'
    ensures forall i :: 0 <= i < |t| ==> IsXmlChar(t[i]) && !IsRenamed(t[i]) && !IsDropped(t[i]) && t[i] != '?'
    ensures NoDoubleDot(s) && NoDoubleDot(t)
  {
    assert s[0] == 'a' && s[1] == '.' && s[2] == '\U{2028}' && s[3] == '.';
    assert t == s[..3];
  }

  /** A clean name that does not start with whitespace and strips to a name that does not either is renamed to that. */
  lemma NodeNameOfClean(s: string, t: string)
    requires forall i :: 0 <= i < |s| ==> IsXmlChar(s[i]) && !IsRenamed(s[i]) && !IsDropped(s[i]) && s[i] != '?'
    requires NoDoubleDot(s) && StripEdgeDots(s) == t
    requires s != [] && !IsJavaWhitespace(s[0]) && t != [] && !IsJavaWhitespace(t[0])
    ensures ToNodeName(Some(s)) == t
  {
    RewriteCleanName(s);
  }

  lemma StripSample()
    ensures StripEdgeDots("a.\U{2028}.") == "a.\U{2028}"
    ensures StripEdgeDots("a.\U{2028}") == "a\U{2028}"
  {
    var s := "a.\U{2028}.";
    var t := "a.\U{2028}";
    assert StripLeading(s) == s;
    assert s[..|s| - 1] == t;
    assert StripLeading(t) == t;
    assert !EndsDot(t) && DotBeforeFinalTerminator(t);
    assert t[..|t| - 2] + [t[|t| - 1]] == "a\U{2028}";
  }
}
