/**
 * The org.json values the server reads and writes. On Android a JSONObject
 * keeps its keys in insertion order, so an object is modelled as a list of
 * (key, value) members with distinct keys; `put` overwrites a present key in
 * place and appends a new one.
 */
module Json {
  import opened Common

  datatype JValue =
    | JNull                                  // JSONObject.NULL
    | JBool(b: bool)
    | JInt(i: int)                           // a java.lang.Integer
    | JLong(l: int)                          // a java.lang.Long
    | JString(s: string)
    | JArray(items: seq<JValue>)
    | JObject(members: seq<(string, JValue)>)

  function Keys(m: seq<(string, JValue)>): (ks: seq<string>)
    ensures |ks| == |m| && forall i :: 0 <= i < |m| ==> ks[i] == m[i].0
  {
    if m == [] then [] else [m[0].0] + Keys(m[1..])
  }

  predicate UniqueKeys(m: seq<(string, JValue)>)
  {
    forall i, j :: 0 <= i < j < |m| ==> m[i].0 != m[j].0
  }

  /** JSONObject.opt: the value stored under a key, if any. */
  function Get(m: seq<(string, JValue)>, key: string): (r: Option<JValue>)
    ensures r.None? <==> key !in Keys(m)
    ensures r.Some? ==> exists i :: 0 <= i < |m| && m[i] == (key, r.value)
  {
    if m == [] then None else if m[0].0 == key then Some(m[0].1) else Get(m[1..], key)
  }

  predicate Has(m: seq<(string, JValue)>, key: string)
  {
    key in Keys(m)
  }

  /** JSONObject.put of a non-null value: overwrite the member in place, or append it. */
  function Update(m: seq<(string, JValue)>, key: string, v: JValue): (r: seq<(string, JValue)>)
    ensures Keys(r) == if key in Keys(m) then Keys(m) else Keys(m) + [key]
    ensures UniqueKeys(m) ==> UniqueKeys(r)
  {
    if m == [] then [(key, v)]
    else if m[0].0 == key then
      var r := [(key, v)] + m[1..];
      OverwriteHead(m, r, key, v);
      r
    else
      var t := Update(m[1..], key, v);
      ConsUpdated(m, t, key);
      [m[0]] + t
  }

  /** Overwriting the first member keeps the keys and their distinctness. */
  lemma OverwriteHead(m: seq<(string, JValue)>, r: seq<(string, JValue)>, key: string, v: JValue)
    requires m != [] && m[0].0 == key && r == [(key, v)] + m[1..]
    ensures Keys(r) == Keys(m)
    ensures UniqueKeys(m) ==> UniqueKeys(r)
  {
    assert forall i :: 0 < i < |m| ==> r[i] == m[i];
  }

  /** Putting the first member back in front of an updated tail. */
  lemma ConsUpdated(m: seq<(string, JValue)>, t: seq<(string, JValue)>, key: string)
    requires m != [] && m[0].0 != key
    requires Keys(t) == if key in Keys(m[1..]) then Keys(m[1..]) else Keys(m[1..]) + [key]
    requires UniqueKeys(m[1..]) ==> UniqueKeys(t)
    ensures Keys([m[0]] + t) == if key in Keys(m) then Keys(m) else Keys(m) + [key]
    ensures UniqueKeys(m) ==> UniqueKeys([m[0]] + t)
  {
    ConsKeys(m, t, key);
    if UniqueKeys(m) {
      UniqueTail(m);
      UniqueCons(m[0], t);
    }
  }

  lemma ConsKeys(m: seq<(string, JValue)>, t: seq<(string, JValue)>, key: string)
    requires m != [] && m[0].0 != key
    requires Keys(t) == if key in Keys(m[1..]) then Keys(m[1..]) else Keys(m[1..]) + [key]
    ensures Keys([m[0]] + t) == if key in Keys(m) then Keys(m) else Keys(m) + [key]
    ensures m[0].0 !in Keys(m[1..]) ==> m[0].0 !in Keys(t)
  {
    assert Keys(m) == [m[0].0] + Keys(m[1..]);
    assert Keys([m[0]] + t) == [m[0].0] + Keys(t);
  }

  /** The tail of a member list with distinct keys has distinct keys, none of them the head's. */
  lemma UniqueTail(m: seq<(string, JValue)>)
    requires m != [] && UniqueKeys(m)
    ensures UniqueKeys(m[1..]) && m[0].0 !in Keys(m[1..])
  {
    forall i, j | 0 <= i < j < |m[1..]| ensures m[1..][i].0 != m[1..][j].0 {
      assert m[1..][i] == m[i + 1] && m[1..][j] == m[j + 1];
    }
    forall i | 0 <= i < |m[1..]| ensures Keys(m[1..])[i] != m[0].0 {
      assert m[1..][i] == m[i + 1];
    }
  }

  /** A fresh key in front of a member list with distinct keys keeps them distinct. */
  lemma UniqueCons(x: (string, JValue), t: seq<(string, JValue)>)
    requires UniqueKeys(t) && x.0 !in Keys(t)
    ensures UniqueKeys([x] + t)
  {
    var r := [x] + t;
    forall i, j | 0 <= i < j < |r| ensures r[i].0 != r[j].0 {
      if i == 0 {
        assert r[j].0 == Keys(t)[j - 1];
      } else {
        assert r[i] == t[i - 1] && r[j] == t[j - 1];
      }
    }
  }

  /** After a put the key holds the new value; every other key keeps its old value. */
  lemma GetUpdate(m: seq<(string, JValue)>, key: string, v: JValue, other: string)
    ensures Get(Update(m, key, v), key) == Some(v)
    ensures other != key ==> Get(Update(m, key, v), other) == Get(m, other)
  {
    GetUpdateKey(m, key, v);
    if other != key {
      GetUpdateOther(m, key, v, other);
    }
  }

  lemma {:induction false} GetUpdateKey(m: seq<(string, JValue)>, key: string, v: JValue)
    ensures Get(Update(m, key, v), key) == Some(v)
  {
    if m != [] && m[0].0 != key {
      var tail := Update(m[1..], key, v);
      GetUpdateKey(m[1..], key, v);
      var r := [m[0]] + tail;
      assert Update(m, key, v) == r;
      assert r[0] == m[0] && r[1..] == tail;
    }
  }

  lemma {:induction false} GetUpdateOther(m: seq<(string, JValue)>, key: string, v: JValue, other: string)
    requires other != key
    ensures Get(Update(m, key, v), other) == Get(m, other)
  {
    if m == [] {
      assert Update(m, key, v) == [(key, v)];
      assert [(key, v)][1..] == [];
    } else if m[0].0 == key {
      var r := [(key, v)] + m[1..];
      assert Update(m, key, v) == r;
      assert r[1..] == m[1..];
    } else {
      var tail := Update(m[1..], key, v);
      GetUpdateOther(m[1..], key, v, other);
      var r := [m[0]] + tail;
      assert Update(m, key, v) == r;
      assert r[0] == m[0] && r[1..] == tail;
    }
  }

  /** Putting a new key appends it. */
  lemma {:induction false} UpdateAppends(m: seq<(string, JValue)>, key: string, v: JValue)
    requires key !in Keys(m)
    ensures Update(m, key, v) == m + [(key, v)]
  {
    if m != [] {
      assert Keys(m[1..]) == Keys(m)[1..];
      assert m[0].0 != key by {
        assert Keys(m)[0] == m[0].0;
      }
      UpdateAppends(m[1..], key, v);
      assert Update(m, key, v) == [m[0]] + Update(m[1..], key, v);
      assert [m[0]] + (m[1..] + [(key, v)]) == m + [(key, v)];
    }
  }

  /** A mutable org.json JSONObject. */
  class JsonObject {
    var members: seq<(string, JValue)>

    constructor ()
      ensures members == []
    {
      members := [];
    }

    method Put(key: string, v: JValue)
      modifies this
      ensures members == Update(old(members), key, v)
    {
      members := Update(members, key, v);
    }
  }

  /** No character below U+0020 (RFC 8259's control characters) occurs unescaped. */
  predicate Printable(t: string)
  {
    forall i :: 0 <= i < |t| ==> t[i] >= ' '
  }

  /** JSONObject.quote / JSONStringer.string: the escaped characters between double quotes. */
  function Quote(s: string): (q: string)
    ensures Printable(q) && |q| >= 2 && q[0] == '"' && q[|q| - 1] == '"'
  {
    "\"" + Escape(s) + "\""
  }

  const BACKSPACE: char := 8 as char
  const FORM_FEED: char := 12 as char

  /** A hexadecimal digit as String.format's `%x` writes it: lower case. */
  function HexDigit(d: nat): (c: char)
    requires d < 16
    ensures c >= '0'
  {
    if d < 10 then ('0' as int + d) as char else ('a' as int + d - 10) as char
  }

  /** The value of a hexadecimal digit of either case. */
  function HexValue(c: char): Option<nat>
  {
    if '0' <= c <= '9' then Some(c as int - '0' as int)
    else if 'a' <= c <= 'f' then Some(c as int - 'a' as int + 10)
    else if 'A' <= c <= 'F' then Some(c as int - 'A' as int + 10)
    else None
  }

  /**
   * The escape JSONStringer.string writes for one character: the quote, the
   * backslash and the slash get a backslash in front; tab, backspace,
   * newline, carriage return and form feed their short forms; every other
   * character below U+0020 is written `\u00xx` in lower-case hex; any other
   * character is written as it is.
   */
  function EscapeChar(c: char): (e: string)
    ensures Printable(e) && |e| >= 1
    ensures c >= ' ' && c != '"' && c != '\\' && c != '/' ==> e == [c]
    ensures |e| > 1 <==> e[0] == '\\'
  {
    if c == '"' || c == '\\' || c == '/' then ['\\', c]
    else if c == '\t' then "\\t"
    else if c == BACKSPACE then "\\b"
    else if c == '\n' then "\\n"
    else if c == '\r' then "\\r"
    else if c == FORM_FEED then "\\f"
    else if c < ' ' then "\\u00" + [HexDigit(c as int / 16), HexDigit(c as int % 16)]
    else [c]
  }

  function Escape(s: string): (t: string)
    ensures Printable(t)
  {
    if s == [] then [] else EscapeChar(s[0]) + Escape(s[1..])
  }

  function Prepend(c: char, r: Option<string>): Option<string>
  {
    if r.None? then None else Some([c] + r.value)
  }

  /**
   * Reading the body of a JSON string back: each escape stands for one
   * character; a backslash that starts no escape makes the text malformed.
   */
  function Unescape(t: string): Option<string>
    decreases |t|
  {
    if t == [] then Some([])
    else if t[0] != '\\' then Prepend(t[0], Unescape(t[1..]))
    else if |t| < 2 then None
    else
      var c := t[1];
      if c == '"' || c == '\\' || c == '/' then Prepend(c, Unescape(t[2..]))
      else if c == 't' then Prepend('\t', Unescape(t[2..]))
      else if c == 'b' then Prepend(BACKSPACE, Unescape(t[2..]))
      else if c == 'n' then Prepend('\n', Unescape(t[2..]))
      else if c == 'r' then Prepend('\r', Unescape(t[2..]))
      else if c == 'f' then Prepend(FORM_FEED, Unescape(t[2..]))
      else if c == 'u' && |t| >= 6 && HexValue(t[2]).Some? && HexValue(t[3]).Some?
              && HexValue(t[4]).Some? && HexValue(t[5]).Some? then
        var code := ((HexValue(t[2]).value * 16 + HexValue(t[3]).value) * 16 + HexValue(t[4]).value) * 16
                    + HexValue(t[5]).value;
        if 0xD800 <= code < 0xE000 then None else Prepend(code as char, Unescape(t[6..]))
      else None
  }

  lemma HexDigitValue(d: nat)
    requires d < 16
    ensures HexValue(HexDigit(d)) == Some(d)
  {
  }

  /** Reading one escape back gives its character and goes on after it. */
  lemma UnescapeChar(c: char, rest: string)
    ensures Unescape(EscapeChar(c) + rest) == Prepend(c, Unescape(rest))
  {
    var t := EscapeChar(c) + rest;
    if |EscapeChar(c)| == 1 {
      assert t[0] == c && t[1..] == rest;
    } else if c < ' ' && c != '\t' && c != BACKSPACE && c != '\n' && c != '\r' && c != FORM_FEED {
      var hi, lo := c as int / 16, c as int % 16;
      HexDigitValue(hi);
      HexDigitValue(lo);
      assert t[..6] == "\\u00" + [HexDigit(hi), HexDigit(lo)];
      assert t[2] == '0' && t[3] == '0' && t[4] == HexDigit(hi) && t[5] == HexDigit(lo);
      assert t[6..] == rest;
      assert ((0 * 16 + 0) * 16 + hi) * 16 + lo == c as int;
    } else {
      assert t[0] == '\\' && t[1] == EscapeChar(c)[1] && t[2..] == rest;
    }
  }

  /** Escaping loses nothing: reading the escaped text back gives the string. */
  lemma {:induction false} UnescapeEscape(s: string)
    ensures Unescape(Escape(s)) == Some(s)
  {
    if s != [] {
      UnescapeEscape(s[1..]);
      UnescapeChar(s[0], Escape(s[1..]));
      assert [s[0]] + s[1..] == s;
    }
  }

  /** The JSON text of a value (JSONObject.toString / JSONArray.toString). */
  function Text(v: JValue): (t: string)
    ensures |t| > 0 && Printable(t)
    ensures v.JObject? ==> t[0] == '{'
    ensures v.JArray? ==> t[0] == '['
    decreases v, 1
  {
    match v
    case JNull => "null"
    case JBool(b) => if b then "true" else "false"
    case JInt(i) => IntToString(i)
    case JLong(l) => IntToString(l)
    case JString(s) => Quote(s)
    case JArray(items) => "[" + ItemsText(v, items) + "]"
    case JObject(ms) => "{" + MembersText(v, ms) + "}"
  }

  function ItemsText(parent: JValue, items: seq<JValue>): (t: string)
    requires forall i :: 0 <= i < |items| ==> items[i] < parent
    ensures Printable(t)
    decreases parent, 0, |items|
  {
    if items == [] then []
    else Text(items[0]) + (if |items| == 1 then "" else "," + ItemsText(parent, items[1..]))
  }

  function MembersText(parent: JValue, ms: seq<(string, JValue)>): (t: string)
    requires forall i :: 0 <= i < |ms| ==> ms[i].1 < parent
    ensures Printable(t)
    decreases parent, 0, |ms|
  {
    if ms == [] then []
    else Quote(ms[0].0) + ":" + Text(ms[0].1) + (if |ms| == 1 then "" else "," + MembersText(parent, ms[1..]))
  }

  /**
   * String.valueOf of a value read from JSON: a string is itself, every other
   * value is its JSON text.
   */
  function ValueOf(v: JValue): (s: string)
    ensures v.JString? ==> s == v.s
    ensures v.JBool? ==> (s == "true" <==> v.b)
  {
    if v.JString? then v.s else Text(v)
  }
}
