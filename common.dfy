/**
 * Shared vocabulary of the model: optional values and results, the integer
 * rectangle of android.graphics.Rect, and the java.lang operations on strings
 * and integers that the server relies on (whitespace tests, trimming,
 * splitting, case-insensitive comparison, decimal rendering and parsing,
 * truncating division and 32-bit narrowing).
 */
module Common {

  datatype Option<T> = None | Some(value: T)

  /** The outcome of a Java call that may throw: a value, or the exception. */
  datatype Result<T, E> = Ok(value: T) | Err(error: E)

  // ---------------------------------------------------------------------
  // android.graphics.Rect
  // ---------------------------------------------------------------------

  /** An integer rectangle (left, top, right, bottom); right and bottom are exclusive. */
  datatype Rect = Rect(left: int, top: int, right: int, bottom: int)
  {
    function Width(): int { right - left }
    function Height(): int { bottom - top }
    /** Rect.centerX is (left + right) >> 1, which rounds toward minus infinity. */
    function CenterX(): int { (left + right) / 2 }
    function CenterY(): int { (top + bottom) / 2 }
  }

  /** `new Rect()`: all four coordinates are zero. */
  const EmptyRect := Rect(0, 0, 0, 0)

  /** The point (x, y) lies in the half-open area of r. */
  predicate Covers(r: Rect, x: int, y: int)
  {
    r.left <= x < r.right && r.top <= y < r.bottom
  }

  /** Rect.intersects(a, b): the two areas share a point. */
  predicate Intersects(a: Rect, b: Rect)
  {
    a.left < b.right && b.left < a.right && a.top < b.bottom && b.top < a.bottom
  }

  function Max(a: int, b: int): int { if a < b then b else a }
  function Min(a: int, b: int): int { if a < b then a else b }

  /**
   * `a.intersect(b)` as the Android API documents it: when the rectangles
   * overlap the receiver becomes their intersection, otherwise it is unchanged.
   */
  function Intersect(a: Rect, b: Rect): (r: Rect)
    ensures Intersects(a, b) ==> forall x, y :: Covers(r, x, y) <==> Covers(a, x, y) && Covers(b, x, y)
    ensures !Intersects(a, b) ==> r == a
  {
    if Intersects(a, b) then
      Rect(Max(a.left, b.left), Max(a.top, b.top), Min(a.right, b.right), Min(a.bottom, b.bottom))
    else a
  }

  /** Intersecting twice with the same rectangle changes nothing the second time. */
  lemma IntersectIdempotent(a: Rect, b: Rect)
    ensures Intersect(Intersect(a, b), b) == Intersect(a, b)
  {
  }

  // ---------------------------------------------------------------------
  // java.lang.String
  // ---------------------------------------------------------------------

  /** Character.isWhitespace: Unicode space separators other than the no-break ones, and the ASCII/C0 separators. */
  predicate IsJavaWhitespace(c: char)
  {
    c == ' ' || ('\t' <= c <= '\r') || ('\U{1C}' <= c <= '\U{1F}')
    || c == '\U{1680}' || ('\U{2000}' <= c <= '\U{2006}') || ('\U{2008}' <= c <= '\U{200A}')
    || c == '\U{2028}' || c == '\U{2029}' || c == '\U{205F}' || c == '\U{3000}'
  }

  /** The `\s` class of java.util.regex: [ \t\n\x0B\f\r]. */
  predicate IsRegexSpace(c: char)
  {
    c == ' ' || ('\t' <= c <= '\r')
  }

  /** StringUtils.isBlank of a non-null string: empty or only whitespace. */
  predicate IsBlank(s: string)
  {
    forall i :: 0 <= i < |s| ==> IsJavaWhitespace(s[i])
  }

  /** String.trim drops every leading and trailing character at or below U+0020. */
  function TrimStart(s: string): (r: string)
    ensures |r| <= |s| && r == s[|s| - |r|..]
    ensures r == [] || r[0] > ' '
    ensures forall i :: 0 <= i < |s| - |r| ==> s[i] <= ' '
  {
    if s == [] || s[0] > ' ' then s else TrimStart(s[1..])
  }

  function TrimEnd(s: string): (r: string)
    ensures |r| <= |s| && r == s[..|r|]
    ensures r == [] || r[|r| - 1] > ' '
    ensures forall i :: |r| <= i < |s| ==> s[i] <= ' '
  {
    if s == [] || s[|s| - 1] > ' ' then s else TrimEnd(s[..|s| - 1])
  }

  function Trim(s: string): (r: string)
    ensures r == [] || (r[0] > ' ' && r[|r| - 1] > ' ')
  {
    TrimEnd(TrimStart(s))
  }

  predicate IsAsciiUpper(c: char) { 'A' <= c <= 'Z' }

  /** ASCII lower-casing of one character (other characters are kept). */
  function LowerAscii(c: char): (r: char)
    ensures !IsAsciiUpper(r)
    ensures IsAsciiUpper(c) || r == c
  {
    if IsAsciiUpper(c) then (c as int + 32) as char else c
  }

  function LowerAsciiString(s: string): (r: string)
    ensures |r| == |s| && forall i :: 0 <= i < |s| ==> r[i] == LowerAscii(s[i])
  {
    if s == [] then [] else [LowerAscii(s[0])] + LowerAsciiString(s[1..])
  }

  /** String.equalsIgnoreCase, with case folding restricted to ASCII letters. */
  predicate EqualsIgnoreCase(a: string, b: string)
  {
    |a| == |b| && forall i :: 0 <= i < |a| ==> LowerAscii(a[i]) == LowerAscii(b[i])
  }

  predicate StartsWith(s: string, prefix: string)
  {
    |prefix| <= |s| && s[..|prefix|] == prefix
  }

  predicate EndsWith(s: string, suffix: string)
  {
    |suffix| <= |s| && s[|s| - |suffix|..] == suffix
  }

  /** s contains `part` as a contiguous substring. */
  predicate Contains(s: string, part: string)
  {
    exists i :: 0 <= i <= |s| && StartsWith(s[i..], part)
  }

  /** The pieces between occurrences of the separator, all of them, empty ones included. */
  function Pieces(s: string, sep: char): (r: seq<string>)
    ensures |r| >= 1
    ensures forall k, j :: 0 <= k < |r| && 0 <= j < |r[k]| ==> r[k][j] != sep
  {
    if s == [] then [[]]
    else
      var rest := Pieces(s[1..], sep);
      if s[0] == sep then [[]] + rest else [[s[0]] + rest[0]] + rest[1..]
  }

  /** Joining with the separator undoes Pieces. */
  function Join(parts: seq<string>, sep: char): string
  {
    if parts == [] then [] else if |parts| == 1 then parts[0] else parts[0] + [sep] + Join(parts[1..], sep)
  }

  lemma {:induction false} JoinPieces(s: string, sep: char)
    ensures Join(Pieces(s, sep), sep) == s
  {
    if s != [] {
      JoinPieces(s[1..], sep);
      var rest := Pieces(s[1..], sep);
      if s[0] != sep {
        assert Join([[s[0]] + rest[0]] + rest[1..], sep) == [s[0]] + Join(rest, sep) by {
          if |rest| > 1 {
            assert ([[s[0]] + rest[0]] + rest[1..])[1..] == rest[1..];
          }
        }
      }
    }
  }

  function DropTrailingEmpty(parts: seq<string>): (r: seq<string>)
    ensures |r| <= |parts| && r == parts[..|r|]
    ensures r == [] || r[|r| - 1] != []
    ensures forall k :: |r| <= k < |parts| ==> parts[k] == []
  {
    if parts == [] || parts[|parts| - 1] != [] then parts else DropTrailingEmpty(parts[..|parts| - 1])
  }

  /**
   * String.split with a one-character separator: the pieces, with trailing
   * empty pieces removed; a string without the separator is its own single piece.
   */
  function Split(s: string, sep: char): (r: seq<string>)
    ensures sep !in s ==> r == [s]
    ensures sep in s ==> |r| <= |Pieces(s, sep)| && r == Pieces(s, sep)[..|r|] && (r == [] || r[|r| - 1] != [])
    ensures forall k, j :: 0 <= k < |r| && 0 <= j < |r[k]| ==> r[k][j] != sep
  {
    if sep !in s then [s] else DropTrailingEmpty(Pieces(s, sep))
  }

  // ---------------------------------------------------------------------
  // java.lang.Integer
  // ---------------------------------------------------------------------

  const INT_MIN: int := -0x8000_0000
  const INT_MAX: int := 0x7FFF_FFFF

  predicate IsInt32(x: int) { INT_MIN <= x <= INT_MAX }

  /** A narrowing cast to int (Long.intValue): the low 32 bits, read as two's complement. */
  function ToInt32(x: int): (r: int)
    ensures IsInt32(r)
    ensures (r - x) % 0x1_0000_0000 == 0
    ensures IsInt32(x) ==> r == x
  {
    (x - INT_MIN) % 0x1_0000_0000 + INT_MIN
  }

  /** Java's `/` on int: the quotient is truncated toward zero. */
  function JavaDiv(a: int, b: int): (q: int)
    requires b != 0
    ensures a >= 0 && b > 0 ==> q == a / b
  {
    if (a >= 0) == (b > 0) then (if a >= 0 then a / b else (-a) / (-b))
    else -((if a >= 0 then a else -a) / (if b > 0 then b else -b))
  }

  /** Java's `%` on int: the remainder has the sign of the dividend. */
  function JavaRem(a: int, b: int): (m: int)
    requires b != 0
    ensures a == JavaDiv(a, b) * b + m
  {
    a - JavaDiv(a, b) * b
  }

  function IsDigit(c: char): bool { '0' <= c <= '9' }

  function DigitChar(d: nat): (c: char)
    requires d < 10
    ensures IsDigit(c)
  {
    ('0' as int + d) as char
  }

  /** The decimal digits of a natural number, without leading zeros. */
  function NatToString(n: nat): (s: string)
    ensures |s| >= 1 && forall i :: 0 <= i < |s| ==> IsDigit(s[i])
    ensures s[0] != '0' || n == 0
    decreases n
  {
    if n < 10 then [DigitChar(n)] else NatToString(n / 10) + [DigitChar(n % 10)]
  }

  /** Integer.toString / String.valueOf of an integer. */
  function IntToString(n: int): string
  {
    if n < 0 then "-" + NatToString(-n) else NatToString(n)
  }

  function DigitValue(c: char): nat
    requires IsDigit(c)
  {
    c as int - '0' as int
  }

  /** The value of a string of decimal digits. */
  function DigitsValue(s: string): nat
    requires forall i :: 0 <= i < |s| ==> IsDigit(s[i])
  {
    if s == [] then 0 else DigitsValue(s[..|s| - 1]) * 10 + DigitValue(s[|s| - 1])
  }

  lemma {:induction false} DigitsOfNat(n: nat)
    ensures DigitsValue(NatToString(n)) == n
    decreases n
  {
    if n >= 10 {
      DigitsOfNat(n / 10);
      var s := NatToString(n);
      assert s[..|s| - 1] == NatToString(n / 10);
    }
  }

  /** Distinct natural numbers have distinct decimal strings. */
  lemma NatToStringInjective(a: nat, b: nat)
    requires NatToString(a) == NatToString(b)
    ensures a == b
  {
    DigitsOfNat(a);
    DigitsOfNat(b);
  }

  predicate AllDigits(s: string)
  {
    forall i :: 0 <= i < |s| ==> IsDigit(s[i])
  }

  /**
   * Integer.parseInt with ASCII digits: an optional sign, at least one digit,
   * and a value that fits in an int; anything else is a NumberFormatException (None).
   */
  function ParseInt(s: string): (r: Option<int>)
    ensures r.Some? ==> IsInt32(r.value)
    ensures s == [] ==> r == None
  {
    if s == [] then None
    else
      var neg := s[0] == '-';
      var body := if s[0] == '-' || s[0] == '+' then s[1..] else s;
      if body == [] || !AllDigits(body) then None
      else
        var mag: int := DigitsValue(body);
        var v := if neg then -mag else mag;
        if IsInt32(v) then Some(v) else None
  }

  /** Rendering an int and parsing it back gives the same int. */
  lemma ParseIntToString(n: int)
    requires IsInt32(n)
    ensures ParseInt(IntToString(n)) == Some(n)
  {
    var s := IntToString(n);
    if n < 0 {
      var digits := NatToString(-n);
      assert s[0] == '-' && s[1..] == digits;
      assert AllDigits(digits);
      DigitsOfNat(-n);
    } else {
      assert IsDigit(s[0]) && AllDigits(s);
      DigitsOfNat(n);
    }
  }
}
