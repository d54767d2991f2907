/**
 * Tests on the string form of a UiSelector that decide how elements are
 * probed: the `.*INSTANCE=\d+]$` pattern and the `CLASS_REGEX=` marker.
 */
module SelectorStrings {
  import opened Common

  const INSTANCE_MARK := "INSTANCE="
  const CLASS_REGEX_MARK := "CLASS_REGEX="

  /** The line terminators `.` does not match in a java.util.regex pattern without DOTALL. */
  predicate IsLineTerminator(c: char)
  {
    c == '\n' || c == '\r' || c == '\U{0085}' || c == '\U{2028}' || c == '\U{2029}'
  }

  predicate NoLineTerminator(s: string)
  {
    forall i :: 0 <= i < |s| ==> !IsLineTerminator(s[i])
  }

  /** `s` without its trailing run of decimal digits. */
  function DropTrailingDigits(s: string): (r: string)
    ensures |r| <= |s| && s[..|r|] == r && AllDigits(s[|r|..])
    ensures r == [] || !IsDigit(r[|r| - 1])
  {
    if s != [] && IsDigit(s[|s| - 1]) then
      var r := DropTrailingDigits(s[..|s| - 1]);
      assert s[..|s| - 1][..|r|] == s[..|r|];
      assert s[|r|..] == s[..|s| - 1][|r|..] + [s[|s| - 1]];
      r
    else s
  }

  /** The whole selector string matches `.*INSTANCE=\d+]$`. */
  predicate EndsWithInstance(s: string)
  {
    |s| >= 1 && s[|s| - 1] == ']' &&
    var stem := DropTrailingDigits(s[..|s| - 1]);
    |stem| < |s| - 1 && EndsWith(stem, INSTANCE_MARK) && NoLineTerminator(stem[..|stem| - |INSTANCE_MARK|])
  }

  /** The shape the pattern describes: a prefix without line breaks, INSTANCE=, one or more digits, and ']'. */
  predicate InstanceShaped(s: string, prefix: string, digits: string)
  {
    s == prefix + INSTANCE_MARK + digits + "]" && digits != [] && AllDigits(digits) && NoLineTerminator(prefix)
  }

  lemma DropTrailingDigitsOf(stem: string, digits: string)
    requires stem != [] && !IsDigit(stem[|stem| - 1]) && AllDigits(digits)
    ensures DropTrailingDigits(stem + digits) == stem
    decreases |digits|
  {
    if digits == [] {
      assert stem + digits == stem;
    } else {
      var init := digits[..|digits| - 1];
      assert (stem + digits)[..|stem + digits| - 1] == stem + init;
      DropTrailingDigitsOf(stem, init);
    }
  }

  /** The pattern matches exactly the strings of that shape. */
  lemma EndsWithInstanceMeaning(s: string)
    ensures EndsWithInstance(s) <==> exists prefix, digits :: InstanceShaped(s, prefix, digits)
  {
    if EndsWithInstance(s) {
      var body := s[..|s| - 1];
      var stem := DropTrailingDigits(body);
      var prefix := stem[..|stem| - |INSTANCE_MARK|];
      var digits := body[|stem|..];
      assert stem == prefix + INSTANCE_MARK;
      assert body == stem + digits;
      assert s == body + "]";
      assert InstanceShaped(s, prefix, digits);
    }
    if exists prefix, digits :: InstanceShaped(s, prefix, digits) {
      var prefix, digits :| InstanceShaped(s, prefix, digits);
      var stem := prefix + INSTANCE_MARK;
      assert s[..|s| - 1] == stem + digits;
      assert stem[|stem| - 1] == '=';
      DropTrailingDigitsOf(stem, digits);
      assert stem[..|stem| - |INSTANCE_MARK|] == prefix;
      assert stem[|stem| - |INSTANCE_MARK|..] == INSTANCE_MARK;
    }
  }

  /** A selector string ending in `INSTANCE=n]` for a number n, as `instance(n)` prints it, matches. */
  lemma InstanceSuffix(prefix: string, n: nat)
    requires NoLineTerminator(prefix)
    ensures EndsWithInstance(prefix + INSTANCE_MARK + NatToString(n) + "]")
  {
    var s := prefix + INSTANCE_MARK + NatToString(n) + "]";
    assert InstanceShaped(s, prefix, NatToString(n));
    EndsWithInstanceMeaning(s);
  }

  /** Without the instance part the pattern does not match. */
  lemma NoInstanceExample()
    ensures !EndsWithInstance("UiSelector[CLASS=android.widget.Button]")
  {
    var t := "UiSelector[CLASS=android.widget.Button]";
    assert t[|t| - 2] == 'n';
  }

  /** useIndex: the selector string mentions CLASS_REGEX=. */
  predicate UsesIndex(s: string)
  {
    Contains(s, CLASS_REGEX_MARK)
  }
}
