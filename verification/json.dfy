/**
 * The part of Python's `json` module the rewriter relies on: `json.dumps` with its
 * default settings (insertion key order, separators ", " and ": ", `ensure_ascii=True`)
 * applied to a flat object of string and boolean values, and a decoder for the same
 * fragment of JSON (RFC 8259) used to state the round trip.
 */
module Json {
  import opened Wrappers
  import opened Text

  datatype Value = JString(s: string) | JBool(b: bool)

  /** One key/value pair of an object; an object is a sequence of them in key order. */
  datatype Member = Member(key: string, value: Value)

  predicate Printable(c: char) {
    ' ' <= c <= '~'
  }

  predicate AllPrintable(s: string) {
    forall i :: 0 <= i < |s| ==> Printable(s[i])
  }

  lemma AllPrintableConcat(a: string, b: string)
    requires AllPrintable(a) && AllPrintable(b)
    ensures AllPrintable(a + b)
  {
    forall i | 0 <= i < |a + b|
      ensures Printable((a + b)[i])
    {
      if i >= |a| {
        assert (a + b)[i] == b[i - |a|];
      }
    }
  }

  // ----- encoding -----

  const HexDigits: string := "0123456789abcdef"

  function HexDigit(d: nat): (c: char)
    requires d < 16
    ensures Printable(c)
  {
    HexDigits[d]
  }

  /** Four lower-case hexadecimal digits, most significant first. */
  function Hex4(n: nat): (r: string)
    requires n < 0x10000
    ensures |r| == 4 && AllPrintable(r)
  {
    var n1 := n / 16;
    var n2 := n1 / 16;
    [HexDigit(n2 / 16), HexDigit(n2 % 16), HexDigit(n1 % 16), HexDigit(n % 16)]
  }

  function UEscape(n: nat): (r: string)
    requires n < 0x10000
    ensures |r| == 6 && AllPrintable(r)
  {
    "\\u" + Hex4(n)
  }

  /** How `json.dumps` with `ensure_ascii=True` writes one character of a string:
      the two-character escapes for quote, backslash and five control characters,
      printable ASCII as itself, everything else as `\uXXXX`, using a surrogate
      pair above the Basic Multilingual Plane. */
  function EscapeChar(c: char): (r: string)
    ensures |r| > 0 && AllPrintable(r)
    ensures r[0] == '\\' || r == [c]
  {
    if c == '"' then "\\\""
    else if c == '\\' then "\\\\"
    else if c == '\n' then "\\n"
    else if c == '\r' then "\\r"
    else if c == '\t' then "\\t"
    else if c == '\U{8}' then "\\b"
    else if c == '\U{C}' then "\\f"
    else if Printable(c) then [c]
    else if c as int < 0x10000 then UEscape(c as int)
    else
      var v := c as int - 0x10000;
      UEscape(0xD800 + v / 0x400) + UEscape(0xDC00 + v % 0x400)
  }

  function EscapeBody(s: string): (r: string)
    ensures AllPrintable(r)
  {
    if s == [] then []
    else
      AllPrintableConcat(EscapeChar(s[0]), EscapeBody(s[1..]));
      EscapeChar(s[0]) + EscapeBody(s[1..])
  }

  /** A JSON string literal as `json.dumps` writes it: only printable ASCII. */
  function EncodeString(s: string): (r: string)
    ensures AllPrintable(r)
    ensures |r| >= 2 && r[0] == '"' && r[|r| - 1] == '"'
  {
    AllPrintableConcat("\"", EscapeBody(s));
    AllPrintableConcat("\"" + EscapeBody(s), "\"");
    "\"" + EscapeBody(s) + "\""
  }

  function EncodeValue(v: Value): string {
    match v
    case JString(s) => EncodeString(s)
    case JBool(b) => if b then "true" else "false"
  }

  function EncodeMember(m: Member): string {
    EncodeString(m.key) + ": " + EncodeValue(m.value)
  }

  function EncodeMembers(ms: seq<Member>): string
    requires |ms| > 0
  {
    if |ms| == 1 then EncodeMember(ms[0])
    else EncodeMember(ms[0]) + ", " + EncodeMembers(ms[1..])
  }

  /** `json.dumps` of a dict whose values are strings and booleans. */
  function Dumps(ms: seq<Member>): string {
    if ms == [] then "{}" else "{" + EncodeMembers(ms) + "}"
  }

  lemma EncodeValuePrintable(v: Value)
    ensures AllPrintable(EncodeValue(v))
  {
    match v
    case JString(s) =>
    case JBool(b) =>
      var e := EncodeValue(v);
      assert forall i :: 0 <= i < |e| ==> e[i] in "truefalse";
  }

  lemma EncodeMemberPrintable(m: Member)
    ensures AllPrintable(EncodeMember(m))
  {
    var k, v := EncodeString(m.key), EncodeValue(m.value);
    assert AllPrintable(": ") by {
      assert forall i :: 0 <= i < 2 ==> ": "[i] in ": ";
    }
    EncodeValuePrintable(m.value);
    AllPrintableConcat(k, ": ");
    AllPrintableConcat(k + ": ", v);
  }

  lemma {:induction false} EncodeMembersPrintable(ms: seq<Member>)
    requires |ms| > 0
    ensures AllPrintable(EncodeMembers(ms))
    decreases |ms|
  {
    EncodeMemberPrintable(ms[0]);
    if |ms| > 1 {
      EncodeMembersPrintable(ms[1..]);
      AllPrintableConcat(EncodeMember(ms[0]), ", ");
      AllPrintableConcat(EncodeMember(ms[0]) + ", ", EncodeMembers(ms[1..]));
    }
  }

  /** With `ensure_ascii` the text is printable ASCII whatever the strings hold. */
  lemma DumpsPrintable(ms: seq<Member>)
    ensures AllPrintable(Dumps(ms))
  {
    if ms != [] {
      EncodeMembersPrintable(ms);
      AllPrintableConcat("{", EncodeMembers(ms));
      AllPrintableConcat("{" + EncodeMembers(ms), "}");
    }
  }

  // ----- decoding -----

  function HexVal(c: char): Option<nat> {
    if '0' <= c <= '9' then Some(c as int - '0' as int)
    else if 'a' <= c <= 'f' then Some(c as int - 'a' as int + 10)
    else if 'A' <= c <= 'F' then Some(c as int - 'A' as int + 10)
    else None
  }

  /** Reads four hexadecimal digits of either case. */
  function ParseHex4(s: string): (r: Option<nat>)
    ensures r.Some? ==> |s| >= 4 && r.value < 0x10000
  {
    if |s| < 4 then None
    else
      var d3 :- HexVal(s[0]);
      var d2 :- HexVal(s[1]);
      var d1 :- HexVal(s[2]);
      var d0 :- HexVal(s[3]);
      if d3 < 16 && d2 < 16 && d1 < 16 && d0 < 16 then Some(((d3 * 16 + d2) * 16 + d1) * 16 + d0)
      else None
  }

  predicate IsHighSurrogate(u: int) { 0xD800 <= u < 0xDC00 }
  predicate IsLowSurrogate(u: int) { 0xDC00 <= u < 0xE000 }

  /** Decodes `uXXXX` (the backslash already read). A high surrogate followed by
      an escaped low surrogate is one character; a lone surrogate is not a
      character and is refused. */
  function ParseUnicodeEscape(s: string): (r: Option<(char, string)>)
    requires |s| > 0 && s[0] == 'u'
    ensures r.Some? ==> |r.value.1| < |s|
  {
    var u :- ParseHex4(s[1..]);
    if IsHighSurrogate(u) then
      if |s| >= 11 && s[5] == '\\' && s[6] == 'u' then
        var u2 :- ParseHex4(s[7..]);
        if IsLowSurrogate(u2) then
          Some(((0x10000 + (u - 0xD800) * 0x400 + (u2 - 0xDC00)) as char, s[11..]))
        else None
      else None
    else if IsLowSurrogate(u) then None
    else Some((u as char, s[5..]))
  }

  /** Decodes the escape after a backslash; `s` starts just after it. */
  function ParseEscape(s: string): (r: Option<(char, string)>)
    ensures r.Some? ==> |r.value.1| < |s|
  {
    if |s| == 0 then None
    else if s[0] == '"' then Some(('"', s[1..]))
    else if s[0] == '\\' then Some(('\\', s[1..]))
    else if s[0] == '/' then Some(('/', s[1..]))
    else if s[0] == 'b' then Some(('\U{8}', s[1..]))
    else if s[0] == 'f' then Some(('\U{C}', s[1..]))
    else if s[0] == 'n' then Some(('\n', s[1..]))
    else if s[0] == 'r' then Some(('\r', s[1..]))
    else if s[0] == 't' then Some(('\t', s[1..]))
    else if s[0] == 'u' then ParseUnicodeEscape(s)
    else None
  }

  /** Reads the rest of a string literal up to and including its closing quote;
      raw control characters are refused, as the strict decoder does. */
  function ParseStringBody(s: string): (r: Option<(string, string)>)
    ensures r.Some? ==> |r.value.1| < |s|
    decreases |s|
  {
    if |s| == 0 then None
    else if s[0] == '"' then Some(([], s[1..]))
    else if s[0] == '\\' then
      var (c, rest) :- ParseEscape(s[1..]);
      var (t, after) :- ParseStringBody(rest);
      Some(([c] + t, after))
    else if s[0] < ' ' then None
    else
      var (t, after) :- ParseStringBody(s[1..]);
      Some(([s[0]] + t, after))
  }

  function ParseString(s: string): (r: Option<(string, string)>)
    ensures r.Some? ==> |r.value.1| < |s|
  {
    if |s| > 0 && s[0] == '"' then ParseStringBody(s[1..]) else None
  }

  predicate IsWs(c: char) {
    c == ' ' || c == '\t' || c == '\n' || c == '\r'
  }

  function SkipWs(s: string): (r: string)
    ensures |r| <= |s|
    ensures |r| > 0 ==> !IsWs(r[0])
  {
    if |s| > 0 && IsWs(s[0]) then SkipWs(s[1..]) else s
  }

  function ParseValue(s: string): (r: Option<(Value, string)>)
    ensures r.Some? ==> |r.value.1| < |s|
  {
    if IsPrefix("true", s) then Some((JBool(true), s[4..]))
    else if IsPrefix("false", s) then Some((JBool(false), s[5..]))
    else
      var (t, rest) :- ParseString(s);
      Some((JString(t), rest))
  }

  /** Reads one `key: value` pair. */
  function ParseMember(s: string): (r: Option<(Member, string)>)
    ensures r.Some? ==> |r.value.1| < |s|
  {
    var (k, r1) :- ParseString(s);
    var r2 := SkipWs(r1);
    if |r2| == 0 || r2[0] != ':' then None
    else
      var (v, r3) :- ParseValue(SkipWs(r2[1..]));
      Some((Member(k, v), r3))
  }

  /** Reads pairs separated by commas up to the closing brace. */
  function ParseMembers(s: string): (r: Option<(seq<Member>, string)>)
    ensures r.Some? ==> |r.value.1| < |s|
    decreases |s|
  {
    var (m, r1) :- ParseMember(s);
    var r2 := SkipWs(r1);
    if |r2| == 0 then None
    else if r2[0] == '}' then Some(([m], r2[1..]))
    else if r2[0] == ',' then
      var (ms, after) :- ParseMembers(SkipWs(r2[1..]));
      Some(([m] + ms, after))
    else None
  }

  /** `json.loads` restricted to one flat object of string and boolean values. */
  function Loads(s: string): Option<seq<Member>> {
    var t := SkipWs(s);
    if |t| == 0 || t[0] != '{' then None
    else
      var u := SkipWs(t[1..]);
      if |u| > 0 && u[0] == '}' then
        if SkipWs(u[1..]) == [] then Some([]) else None
      else
        var (ms, rest) :- ParseMembers(u);
        if SkipWs(rest) == [] then Some(ms) else None
  }

  /** The value stored under `key`; with duplicate keys the last one wins, as in a dict. */
  function Lookup(ms: seq<Member>, key: string): Option<Value> {
    if ms == [] then None
    else if ms[|ms| - 1].key == key then Some(ms[|ms| - 1].value)
    else Lookup(ms[..|ms| - 1], key)
  }
}
