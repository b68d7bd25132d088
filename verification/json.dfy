/**
 * Python's `json.dumps` of a string with the default `ensure_ascii=True`:
 * quotes, backslashes and the usual control characters get short escapes,
 * every other character outside ` `..`~` becomes `\uXXXX` (a surrogate pair
 * above U+FFFF). A decoder of those escapes shows that nothing is lost.
 */
module Json {

  import opened Xml

  /** The lower-case hex digit of `d`. */
  function HexDigit(d: nat): char
    requires d < 16
  {
    if d < 10 then ('0' as int + d) as char else ('a' as int + d - 10) as char
  }

  function Pow16(w: nat): (p: nat)
    ensures p >= 1
  {
    if w == 0 then 1 else 16 * Pow16(w - 1)
  }

  /** `n` in lower-case hex, zero-padded to `w` digits (`'{0:04x}'.format(n)`). */
  function Hex(n: nat, w: nat): (h: string)
    requires n < Pow16(w)
    ensures |h| == w
  {
    if w == 0 then [] else Hex(n / 16, w - 1) + [HexDigit(n % 16)]
  }

  /** The value of a lower-case hex digit, None for anything else. */
  function HexValue(c: char): (v: Option<nat>)
    ensures v.Some? ==> v.value < 16
  {
    if '0' <= c <= '9' then Some(c as int - '0' as int)
    else if 'a' <= c <= 'f' then Some(c as int - 'a' as int + 10)
    else None
  }

  /** Hex digits read back; None when one is not a lower-case hex digit. */
  function ParseHex(h: string): Option<nat>
  {
    if h == [] then Some(0)
    else
      var init, last := ParseHex(h[..|h| - 1]), HexValue(h[|h| - 1]);
      if init.Some? && last.Some? then Some(16 * init.value + last.value) else None
  }

  /** `k` hex digits stand for a number below `16^k`. */
  lemma {:induction false} ParseHexBound(h: string)
    ensures ParseHex(h).Some? ==> ParseHex(h).value < Pow16(|h|)
  {
    if h != [] {
      ParseHexBound(h[..|h| - 1]);
    }
  }

  lemma HexDigitValue(d: nat)
    requires d < 16
    ensures HexValue(HexDigit(d)) == Some(d)
  {
  }

  lemma ParseHexSnoc(h: string, v: nat, d: nat)
    requires d < 16 && ParseHex(h) == Some(v)
    ensures ParseHex(h + [HexDigit(d)]) == Some(16 * v + d)
  {
    HexDigitValue(d);
    assert (h + [HexDigit(d)])[..|h|] == h;
  }

  /** The last hex digit of `n` is `n % 16`, after the digits of `n / 16`. */
  lemma HexSnoc(n: nat, w: nat)
    requires 0 < w && n < Pow16(w)
    ensures n / 16 < Pow16(w - 1) && n % 16 < 16 && 16 * (n / 16) + n % 16 == n
    ensures Hex(n, w) == Hex(n / 16, w - 1) + [HexDigit(n % 16)]
  {
  }

  /** Reading the hex digits back gives the number. */
  lemma {:induction false} ParseHexOfHex(n: nat, w: nat)
    requires n < Pow16(w)
    ensures ParseHex(Hex(n, w)) == Some(n)
  {
    if w > 0 {
      HexSnoc(n, w);
      ParseHexOfHex(n / 16, w - 1);
      ParseHexSnoc(Hex(n / 16, w - 1), n / 16, n % 16);
    }
  }

  /** The four hex digits of a `\uXXXX` escape. */
  function Hex4(n: nat): (h: string)
    requires n < 0x10000
    ensures |h| == 4
  {
    assert Pow16(4) == 0x10000;
    Hex(n, 4)
  }

  /** A character `ensure_ascii` writes as it is. */
  predicate Printable(c: char)
  {
    ' ' <= c <= '~'
  }

  /** A character with a two-character escape. */
  predicate ShortEscaped(c: char)
  {
    c == '"' || c == '\\' || c == '\n' || c == '\r' || c == '\t' || c as int == 8 || c as int == 12
  }

  /** The escape letter of such a character. */
  function EscapeLetter(c: char): char
    requires ShortEscaped(c)
  {
    if c == '"' then '"'
    else if c == '\\' then '\\'
    else if c == '\n' then 'n'
    else if c == '\r' then 'r'
    else if c == '\t' then 't'
    else if c as int == 8 then 'b'
    else 'f'
  }

  /** The escape of one character. */
  function EscapeChar(c: char): (e: string)
    ensures |e| >= 1
  {
    if ShortEscaped(c) then ['\\', EscapeLetter(c)]
    else if Printable(c) then [c]
    else if c as int < 0x10000 then "\\u" + Hex4(c as int)
    else
      var n := c as int - 0x10000;
      "\\u" + Hex4(0xD800 + n / 0x400) + "\\u" + Hex4(0xDC00 + n % 0x400)
  }

  /** The text between the quotes. */
  function Escape(s: string): string
  {
    if s == [] then [] else EscapeChar(s[0]) + Escape(s[1..])
  }

  /** Text between double quotes. */
  function Quoted(s: string): string
  {
    "\"" + s + "\""
  }

  /** `json.dumps(s)`. */
  function JsonString(s: string): string
  {
    Quoted(Escape(s))
  }

  /** One `"key": "value"` member, with `json.dumps`'s default `": "` separator. */
  function Member(kv: (string, string)): string
  {
    JsonString(kv.0) + ": " + JsonString(kv.1)
  }

  function Members(pairs: seq<(string, string)>): string
  {
    if |pairs| == 0 then ""
    else if |pairs| == 1 then Member(pairs[0])
    else Member(pairs[0]) + ", " + Members(pairs[1..])
  }

  /** `json.dumps` of a dict of strings, in insertion order, with the default
      `", "` item separator. */
  function JsonObject(pairs: seq<(string, string)>): string
  {
    "{" + Members(pairs) + "}"
  }

  /** The character of a short escape `\x`. */
  function ShortEscape(c: char): Option<char>
  {
    if c == '"' then Some('"')
    else if c == '\\' then Some('\\')
    else if c == '/' then Some('/')
    else if c == 'n' then Some('\n')
    else if c == 'r' then Some('\r')
    else if c == 't' then Some('\t')
    else if c == 'b' then Some(8 as char)
    else if c == 'f' then Some(12 as char)
    else None
  }

  /** Prepends a decoded character to the decoding of the rest. */
  function Cons(c: char, rest: Option<string>): Option<string>
  {
    if rest.Some? then Some([c] + rest.value) else None
  }

  /** The character a `\uXXXX\uXXXX` surrogate pair stands for. */
  function Combine(hi: nat, lo: nat): (c: char)
    requires 0xD800 <= hi < 0xDC00 && 0xDC00 <= lo < 0xE000
  {
    (0x10000 + (hi - 0xD800) * 0x400 + (lo - 0xDC00)) as char
  }

  /** Decodes a `\uXXXX` escape (and the low half that must follow a high
      surrogate) at the front of `s`, then the rest. */
  function UnescapeUnicode(s: string): Option<string>
    requires |s| >= 6
    decreases |s|, 0
  {
    assert Pow16(4) == 0x10000;
    ParseHexBound(s[2..6]);
    match ParseHex(s[2..6])
    case None => None
    case Some(v) =>
      if 0xD800 <= v < 0xDC00 then
        if |s| < 12 || s[6..8] != "\\u" then None
        else
          match ParseHex(s[8..12])
          case None => None
          case Some(w) => if 0xDC00 <= w < 0xE000 then Cons(Combine(v, w), Unescape(s[12..])) else None
      else if 0xDC00 <= v < 0xE000 then None
      else Cons(v as char, Unescape(s[6..]))
  }

  /** Decodes the text between the quotes of a JSON string; None when it is
      not well formed. */
  function Unescape(s: string): Option<string>
    decreases |s|, 1
  {
    if s == [] then Some([])
    else if s[0] == '"' then None
    else if s[0] != '\\' then Cons(s[0], Unescape(s[1..]))
    else if |s| < 2 then None
    else if s[1] != 'u' then
      match ShortEscape(s[1])
      case Some(c) => Cons(c, Unescape(s[2..]))
      case None => None
    else if |s| < 6 then None
    else UnescapeUnicode(s)
  }

  lemma UnescapeShort(c: char, rest: string)
    requires ShortEscaped(c)
    ensures Unescape(EscapeChar(c) + rest) == Cons(c, Unescape(rest))
  {
    var s := EscapeChar(c) + rest;
    assert s[0] == '\\' && s[1] == EscapeLetter(c) && s[2..] == rest;
  }

  lemma UnescapePrintable(c: char, rest: string)
    requires Printable(c) && !ShortEscaped(c)
    ensures Unescape(EscapeChar(c) + rest) == Cons(c, Unescape(rest))
  {
    var s := EscapeChar(c) + rest;
    assert s[0] == c && s[1..] == rest;
  }

  lemma UnescapeBmp(c: char, rest: string)
    requires !Printable(c) && !ShortEscaped(c) && c as int < 0x10000
    ensures Unescape(EscapeChar(c) + rest) == Cons(c, Unescape(rest))
  {
    var s := EscapeChar(c) + rest;
    ParseHexOfHex(c as int, 4);
    assert s[..2] == "\\u" && s[2..6] == Hex4(c as int) && s[6..] == rest;
    assert Unescape(s) == UnescapeUnicode(s);
  }

  lemma SurrogateHalves(c: char)
    requires c as int >= 0x10000
    ensures var n := c as int - 0x10000;
      && 0xD800 <= 0xD800 + n / 0x400 < 0xDC00 && 0xDC00 <= 0xDC00 + n % 0x400 < 0xE000
      && Combine(0xD800 + n / 0x400, 0xDC00 + n % 0x400) == c
  {
  }

  /** A surrogate pair in front of the rest decodes to the character it stands for. */
  lemma UnescapePair(hi: nat, lo: nat, rest: string)
    requires 0xD800 <= hi < 0xDC00 && 0xDC00 <= lo < 0xE000
    ensures Unescape("\\u" + Hex4(hi) + "\\u" + Hex4(lo) + rest) == Cons(Combine(hi, lo), Unescape(rest))
  {
    var s := "\\u" + Hex4(hi) + "\\u" + Hex4(lo) + rest;
    ParseHexOfHex(hi, 4);
    ParseHexOfHex(lo, 4);
    assert s[..2] == "\\u" && s[2..6] == Hex4(hi) && s[6..8] == "\\u" && s[8..12] == Hex4(lo) && s[12..] == rest;
    assert Unescape(s) == UnescapeUnicode(s);
  }

  lemma UnescapeAstral(c: char, rest: string)
    requires c as int >= 0x10000
    ensures Unescape(EscapeChar(c) + rest) == Cons(c, Unescape(rest))
  {
    var n := c as int - 0x10000;
    var hi, lo := 0xD800 + n / 0x400, 0xDC00 + n % 0x400;
    SurrogateHalves(c);
    assert EscapeChar(c) == "\\u" + Hex4(hi) + "\\u" + Hex4(lo);
    UnescapePair(hi, lo, rest);
  }

  /** Decoding an escaped character gives it back in front of the rest. */
  lemma UnescapeChar(c: char, rest: string)
    ensures Unescape(EscapeChar(c) + rest) == Cons(c, Unescape(rest))
  {
    if ShortEscaped(c) {
      UnescapeShort(c, rest);
    } else if Printable(c) {
      UnescapePrintable(c, rest);
    } else if c as int < 0x10000 {
      UnescapeBmp(c, rest);
    } else {
      UnescapeAstral(c, rest);
    }
  }

  /** The decoder undoes the escaping: `json.loads(json.dumps(s)) == s`. */
  lemma {:induction false} UnescapeEscape(s: string)
    ensures Unescape(Escape(s)) == Some(s)
  {
    if s != [] {
      UnescapeEscape(s[1..]);
      UnescapeChar(s[0], Escape(s[1..]));
      assert [s[0]] + s[1..] == s;
    }
  }

  predicate AllPrintable(s: string)
  {
    forall k :: 0 <= k < |s| ==> Printable(s[k])
  }

  lemma AllPrintableAppend(a: string, b: string)
    requires AllPrintable(a) && AllPrintable(b)
    ensures AllPrintable(a + b)
  {
    assert forall k :: 0 <= k < |a + b| ==> (a + b)[k] == if k < |a| then a[k] else b[k - |a|];
  }

  lemma {:induction false} HexPrintable(n: nat, w: nat)
    requires n < Pow16(w)
    ensures AllPrintable(Hex(n, w))
  {
    if w > 0 {
      HexPrintable(n / 16, w - 1);
      AllPrintableAppend(Hex(n / 16, w - 1), [HexDigit(n % 16)]);
    }
  }

  lemma EscapeCharPrintable(c: char)
    ensures AllPrintable(EscapeChar(c))
  {
    if !ShortEscaped(c) && !Printable(c) {
      if c as int < 0x10000 {
        HexPrintable(c as int, 4);
        AllPrintableAppend("\\u", Hex4(c as int));
      } else {
        var n := c as int - 0x10000;
        var hi, lo := 0xD800 + n / 0x400, 0xDC00 + n % 0x400;
        HexPrintable(hi, 4);
        HexPrintable(lo, 4);
        AllPrintableAppend("\\u", Hex4(hi));
        AllPrintableAppend("\\u" + Hex4(hi), "\\u");
        AllPrintableAppend("\\u" + Hex4(hi) + "\\u", Hex4(lo));
      }
    }
  }

  /** The escaped text is printable ASCII, whatever the input. */
  lemma {:induction false} EscapeIsAscii(s: string)
    ensures AllPrintable(Escape(s))
  {
    if s != [] {
      EscapeIsAscii(s[1..]);
      EscapeCharPrintable(s[0]);
      AllPrintableAppend(EscapeChar(s[0]), Escape(s[1..]));
    }
  }

  /** Text of printable characters other than `"` and `\` is written as it is. */
  lemma {:induction false} EscapePlain(s: string)
    requires forall k :: 0 <= k < |s| ==> Printable(s[k]) && s[k] != '"' && s[k] != '\\'
    ensures Escape(s) == s
  {
    if s != [] {
      EscapePlain(s[1..]);
      assert [s[0]] + s[1..] == s;
    }
  }

  /** A JSON string read back: the quotes removed and the escapes decoded. */
  function Unquote(j: string): Option<string>
  {
    if |j| >= 2 && j[0] == '"' && j[|j| - 1] == '"' then Unescape(j[1..|j| - 1]) else None
  }

  /** `json.dumps` of a string is printable ASCII and reads back as the string. */
  lemma JsonStringRoundTrip(s: string)
    ensures AllPrintable(JsonString(s))
    ensures Unquote(JsonString(s)) == Some(s)
  {
    var e := Escape(s);
    EscapeIsAscii(s);
    AllPrintableAppend("\"", e);
    AllPrintableAppend("\"" + e, "\"");
    assert JsonString(s)[1..|JsonString(s)| - 1] == e;
    UnescapeEscape(s);
  }

  /** Different strings are written differently. */
  lemma JsonStringInjective(a: string, b: string)
    requires JsonString(a) == JsonString(b)
    ensures a == b
  {
    JsonStringRoundTrip(a);
    JsonStringRoundTrip(b);
  }

  /** A string of printable characters other than `"` and `\` is written
      between quotes as it is. */
  lemma JsonStringPlain(s: string)
    requires forall k :: 0 <= k < |s| ==> Printable(s[k]) && s[k] != '"' && s[k] != '\\'
    ensures JsonString(s) == Quoted(s)
  {
    EscapePlain(s);
  }

  lemma MembersTwo(a: (string, string), b: (string, string))
    ensures Members([a, b]) == Member(a) + ", " + Member(b)
  {
    assert [a, b][1..] == [b];
  }

  /** A member is printable ASCII. */
  lemma MemberPrintable(kv: (string, string))
    ensures AllPrintable(Member(kv))
  {
    JsonStringRoundTrip(kv.0);
    JsonStringRoundTrip(kv.1);
    AllPrintableAppend(JsonString(kv.0), ": ");
    AllPrintableAppend(JsonString(kv.0) + ": ", JsonString(kv.1));
  }

  lemma {:induction false} MembersPrintable(pairs: seq<(string, string)>)
    ensures AllPrintable(Members(pairs))
  {
    if |pairs| == 1 {
      MemberPrintable(pairs[0]);
    } else if |pairs| > 1 {
      MemberPrintable(pairs[0]);
      MembersPrintable(pairs[1..]);
      AllPrintableAppend(Member(pairs[0]), ", ");
      AllPrintableAppend(Member(pairs[0]) + ", ", Members(pairs[1..]));
    }
  }

  /** `json.dumps` of a dict of strings is printable ASCII, whatever the strings. */
  lemma JsonObjectPrintable(pairs: seq<(string, string)>)
    ensures AllPrintable(JsonObject(pairs))
  {
    MembersPrintable(pairs);
    AllPrintableAppend("{", Members(pairs));
    AllPrintableAppend("{" + Members(pairs), "}");
  }

  /** With plain keys and values a two-member object is written with the text
      between quotes as it is. */
  lemma JsonObjectTwoPlain(k0: string, v0: string, k1: string, v1: string)
    requires forall k :: 0 <= k < |k0| ==> Printable(k0[k]) && k0[k] != '"' && k0[k] != '\\'
    requires forall k :: 0 <= k < |v0| ==> Printable(v0[k]) && v0[k] != '"' && v0[k] != '\\'
    requires forall k :: 0 <= k < |k1| ==> Printable(k1[k]) && k1[k] != '"' && k1[k] != '\\'
    requires forall k :: 0 <= k < |v1| ==> Printable(v1[k]) && v1[k] != '"' && v1[k] != '\\'
    ensures JsonObject([(k0, v0), (k1, v1)])
      == "{" + ((Quoted(k0) + ": " + Quoted(v0)) + ", " + (Quoted(k1) + ": " + Quoted(v1))) + "}"
  {
    MembersTwo((k0, v0), (k1, v1));
    JsonStringPlain(k0);
    JsonStringPlain(v0);
    JsonStringPlain(k1);
    JsonStringPlain(v1);
  }
}
