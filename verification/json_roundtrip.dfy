/** Decoding what `Json.Dumps` writes gives back the object it was given. */
module JsonRoundTrip {
  import opened Wrappers
  import opened Text
  import opened Json

  lemma HexDigitVal(d: nat)
    requires d < 16
    ensures HexVal(HexDigit(d)) == Some(d)
  {
  }

  lemma {:induction false} Hex4RoundTrip(n: nat, t: string)
    requires n < 0x10000
    ensures ParseHex4(Hex4(n) + t) == Some(n)
  {
    var n1 := n / 16;
    var n2 := n1 / 16;
    var s := Hex4(n) + t;
    HexDigitVal(n2 / 16);
    HexDigitVal(n2 % 16);
    HexDigitVal(n1 % 16);
    HexDigitVal(n % 16);
    assert s[0] == HexDigit(n2 / 16) && s[1] == HexDigit(n2 % 16);
    assert s[2] == HexDigit(n1 % 16) && s[3] == HexDigit(n % 16);
    assert ((n2 / 16 * 16 + n2 % 16) * 16 + n1 % 16) * 16 + n % 16 == n;
  }

  lemma ParseEscapeU(s: string)
    requires |s| > 0 && s[0] == 'u'
    ensures ParseEscape(s) == ParseUnicodeEscape(s)
  {
  }

  lemma ParseBmpEscape(n: nat, t: string)
    requires n < 0x10000 && !IsHighSurrogate(n) && !IsLowSurrogate(n)
    ensures ParseUnicodeEscape(UEscape(n)[1..] + t) == Some((n as char, t))
  {
    var s := UEscape(n)[1..] + t;
    assert s[0] == 'u';
    assert s[1..] == Hex4(n) + t;
    Hex4RoundTrip(n, t);
    assert s[5..] == t;
  }

  /** The `\uXXXX` escape of a character outside the surrogate range reads back as it. */
  lemma UEscapeRoundTrip(c: char, t: string)
    requires c as int < 0x10000
    ensures ParseEscape(UEscape(c as int)[1..] + t) == Some((c, t))
  {
    var s := UEscape(c as int)[1..] + t;
    assert s[0] == 'u';
    ParseEscapeU(s);
    ParseBmpEscape(c as int, t);
  }

  /** Two escaped surrogates read back as the character they encode together. */
  lemma ParseSurrogatePair(hi: nat, lo: nat, t: string)
    requires IsHighSurrogate(hi) && IsLowSurrogate(lo)
    ensures ParseUnicodeEscape(UEscape(hi)[1..] + UEscape(lo) + t)
         == Some(((0x10000 + (hi - 0xD800) * 0x400 + (lo - 0xDC00)) as char, t))
  {
    var s2 := UEscape(lo) + t;
    var s := UEscape(hi)[1..] + s2;
    assert UEscape(hi)[1..] + UEscape(lo) + t == s;
    UEscapeTail(hi, s2);
    UEscapeTail(lo, t);
    assert s2[0] == '\\' && s2[1..] == UEscape(lo)[1..] + t;
    assert s[5..] == s2;
    assert s[7..] == s2[1..][1..] && s[11..] == s2[1..][5..];
    ParsePairOf(s, hi, lo);
  }

  /** `ParseUnicodeEscape` on a high and a low surrogate escape. */
  lemma ParsePairOf(s: string, hi: nat, lo: nat)
    requires |s| >= 11 && s[0] == 'u' && s[5] == '\\' && s[6] == 'u'
    requires ParseHex4(s[1..]) == Some(hi) && ParseHex4(s[7..]) == Some(lo)
    requires IsHighSurrogate(hi) && IsLowSurrogate(lo)
    ensures ParseUnicodeEscape(s) == Some(((0x10000 + (hi - 0xD800) * 0x400 + (lo - 0xDC00)) as char, s[11..]))
  {
  }

  /** The four digits after `u` read back as `n`, and the rest follows them. */
  lemma UEscapeTail(n: nat, t: string)
    requires n < 0x10000
    ensures var s := UEscape(n)[1..] + t;
      |s| >= 5 && s[0] == 'u' && ParseHex4(s[1..]) == Some(n) && s[5..] == t
  {
    var s := UEscape(n)[1..] + t;
    assert s[1..] == Hex4(n) + t;
    Hex4RoundTrip(n, t);
  }

  lemma EscapeCharAstral(c: char)
    requires c as int >= 0x10000
    ensures EscapeChar(c) == UEscape(0xD800 + (c as int - 0x10000) / 0x400)
                           + UEscape(0xDC00 + (c as int - 0x10000) % 0x400)
  {
    assert !Printable(c);
  }

  lemma DropFirst(a: string, b: string, t: string)
    requires |a| > 0
    ensures (a + b)[1..] + t == a[1..] + b + t
  {
  }

  /** The two surrogates `EscapeChar` writes for a character above the Basic
      Multilingual Plane, and the code point they combine back into. */
  lemma AstralParts(c: char, t: string) returns (hi: nat, lo: nat)
    requires c as int >= 0x10000
    ensures IsHighSurrogate(hi) && IsLowSurrogate(lo)
    ensures 0x10000 + (hi - 0xD800) * 0x400 + (lo - 0xDC00) == c as int
    ensures EscapeChar(c)[1..] + t == UEscape(hi)[1..] + UEscape(lo) + t
  {
    var v := c as int - 0x10000;
    hi, lo := 0xD800 + v / 0x400, 0xDC00 + v % 0x400;
    EscapeCharAstral(c);
    DropFirst(UEscape(hi), UEscape(lo), t);
  }

  /** A surrogate pair written for a character above the Basic Multilingual Plane
      reads back as that one character. */
  lemma SurrogatePairRoundTrip(c: char, t: string)
    requires c as int >= 0x10000
    ensures ParseEscape(EscapeChar(c)[1..] + t) == Some((c, t))
  {
    var hi, lo := AstralParts(c, t);
    var s := UEscape(hi)[1..] + UEscape(lo) + t;
    assert s[0] == 'u';
    ParseEscapeU(s);
    ParseSurrogatePair(hi, lo, t);
  }

  /** Every backslash escape `EscapeChar` writes reads back as its character. */
  lemma EscapeRoundTrip(c: char, t: string)
    requires EscapeChar(c) != [c]
    ensures ParseEscape(EscapeChar(c)[1..] + t) == Some((c, t))
  {
    var s := EscapeChar(c)[1..] + t;
    if c == '"' || c == '\\' || c == '\n' || c == '\r' || c == '\t' || c == '\U{8}' || c == '\U{C}' {
      assert s[1..] == t;
    } else if c as int < 0x10000 {
      UEscapeRoundTrip(c, t);
    } else {
      SurrogatePairRoundTrip(c, t);
    }
  }

  /** Reading one escaped character puts it in front of whatever follows. */
  lemma BodyStep(c: char, x: string)
    ensures ParseStringBody(EscapeChar(c) + x) ==
      (match ParseStringBody(x)
       case None => None
       case Some((y, r)) => Some(([c] + y, r)))
  {
    var e := EscapeChar(c);
    var s := e + x;
    if e == [c] {
      assert s[0] == c && s[1..] == x;
    } else {
      assert s[0] == '\\';
      assert s[1..] == e[1..] + x;
      EscapeRoundTrip(c, x);
    }
  }

  lemma {:induction false} BodyRoundTrip(s: string, t: string)
    ensures ParseStringBody(EscapeBody(s) + "\"" + t) == Some((s, t))
    decreases |s|
  {
    if s == [] {
      assert EscapeBody(s) + "\"" + t == "\"" + t;
    } else {
      var x := EscapeBody(s[1..]) + "\"" + t;
      assert EscapeBody(s) + "\"" + t == EscapeChar(s[0]) + x;
      BodyRoundTrip(s[1..], t);
      BodyStep(s[0], x);
      assert [s[0]] + s[1..] == s;
    }
  }

  /** A string literal written by `EncodeString` reads back as the string,
      leaving exactly what followed it. */
  lemma StringRoundTrip(s: string, t: string)
    ensures ParseString(EncodeString(s) + t) == Some((s, t))
  {
    var e := EncodeString(s) + t;
    assert e[1..] == EscapeBody(s) + "\"" + t;
    BodyRoundTrip(s, t);
  }

  lemma SkipOneSpace(t: string)
    ensures SkipWs(" " + t) == SkipWs(t)
  {
    assert (" " + t)[1..] == t;
  }

  lemma SkipNone(t: string)
    requires |t| > 0 && !IsWs(t[0])
    ensures SkipWs(t) == t
  {
  }

  lemma ValueRoundTrip(v: Value, t: string)
    ensures ParseValue(EncodeValue(v) + t) == Some((v, t))
  {
    var e := EncodeValue(v) + t;
    match v
    case JString(s) =>
      assert e[0] == '"';
      StringRoundTrip(s, t);
    case JBool(b) =>
      if b {
        assert e[..4] == "true" && e[4..] == t;
      } else {
        assert e[1] == 'a';
        assert e[..5] == "false" && e[5..] == t;
      }
  }

  /** Reading one member leaves exactly what followed it. */
  lemma MemberRoundTrip(m: Member, t: string)
    ensures ParseMember(EncodeMember(m) + t) == Some((m, t))
  {
    var ev := EncodeValue(m.value);
    var r1 := ": " + (ev + t);
    assert EncodeMember(m) + t == EncodeString(m.key) + r1;
    StringRoundTrip(m.key, r1);
    ValueStart(m.value);
    ColonStep(ev, t);
    ValueRoundTrip(m.value, t);
    ParseMemberOf(EncodeMember(m) + t, m.key, r1, m.value, t);
  }

  /** The separator `": "` is skipped up to the value that follows it. */
  lemma ColonStep(ev: string, t: string)
    requires |ev| > 0 && ev[0] in "\"tf"
    ensures var r1 := ": " + (ev + t);
      |SkipWs(r1)| > 0 && SkipWs(r1)[0] == ':' && SkipWs(SkipWs(r1)[1..]) == ev + t
  {
    var r1 := ": " + (ev + t);
    assert r1[0] == ':' && r1[1..] == " " + (ev + t);
    SkipNone(r1);
    SkipOneSpace(ev + t);
    assert (ev + t)[0] == ev[0];
    SkipNone(ev + t);
  }

  lemma ValueStart(v: Value)
    ensures |EncodeValue(v)| > 0 && EncodeValue(v)[0] in "\"tf"
  {
  }

  /** `ParseMember` from its three parts: the key, the colon, the value. */
  lemma ParseMemberOf(s: string, k: string, r1: string, v: Value, t: string)
    requires ParseString(s) == Some((k, r1))
    requires |SkipWs(r1)| > 0 && SkipWs(r1)[0] == ':'
    requires ParseValue(SkipWs(SkipWs(r1)[1..])) == Some((v, t))
    ensures ParseMember(s) == Some((Member(k, v), t))
  {
  }

  /** Reading one member followed by a closing brace or by a comma and more members. */
  lemma MembersStep(m: Member, sep: char, after: string)
    requires sep == ',' || sep == '}'
    ensures sep == '}' ==> ParseMembers(EncodeMember(m) + [sep] + after) == Some(([m], after))
    ensures sep == ',' ==>
      (ParseMembers(EncodeMember(m) + [sep] + after) ==
        match ParseMembers(SkipWs(after))
        case None => None
        case Some((ms, rest)) => Some(([m] + ms, rest)))
  {
    var x := [sep] + after;
    assert EncodeMember(m) + [sep] + after == EncodeMember(m) + x;
    MemberRoundTrip(m, x);
    SkipNone(x);
    assert x[0] == sep && x[1..] == after;
  }

  lemma EncodeMembersCons(ms: seq<Member>, t: string)
    requires |ms| > 1
    ensures EncodeMembers(ms) + "}" + t
         == EncodeMember(ms[0]) + [','] + (" " + (EncodeMembers(ms[1..]) + "}" + t))
  {
    SeparatorSplit(EncodeMember(ms[0]), EncodeMembers(ms[1..]), t);
  }

  lemma SeparatorSplit(a: string, b: string, t: string)
    ensures a + ", " + b + "}" + t == a + [','] + (" " + (b + "}" + t))
  {
    assert ", " == [','] + " ";
  }

  lemma {:induction false} MembersRoundTrip(ms: seq<Member>, t: string)
    requires |ms| > 0
    ensures ParseMembers(EncodeMembers(ms) + "}" + t) == Some((ms, t))
    decreases |ms|
  {
    var m := ms[0];
    if |ms| == 1 {
      assert EncodeMembers(ms) + "}" + t == EncodeMember(m) + ['}'] + t;
      MembersStep(m, '}', t);
      assert ms == [m];
    } else {
      var next := EncodeMembers(ms[1..]) + "}" + t;
      EncodeMembersCons(ms, t);
      MembersStep(m, ',', " " + next);
      SkipOneSpace(next);
      assert next[0] == '"';
      SkipNone(next);
      MembersRoundTrip(ms[1..], t);
      assert [m] + ms[1..] == ms;
    }
  }

  /** `json.loads(json.dumps(d)) == d` for every flat object of strings and booleans. */
  lemma LoadsDumps(ms: seq<Member>)
    ensures Loads(Dumps(ms)) == Some(ms)
  {
    if ms == [] {
      var s := Dumps(ms);
      assert s == "{}";
      assert s[0] == '{' && s[1..] == "}";
      SkipNone(s);
      SkipNone(s[1..]);
    } else {
      LoadsDumpsMembers(ms);
    }
  }

  /** Members are written starting with the quote of the first key. */
  lemma EncodeMembersStart(ms: seq<Member>)
    requires |ms| > 0
    ensures |EncodeMembers(ms)| > 0 && EncodeMembers(ms)[0] == '"'
  {
    var e := EncodeString(ms[0].key);
    assert EncodeMember(ms[0]) == e + ": " + EncodeValue(ms[0].value);
    assert EncodeMember(ms[0])[0] == e[0];
  }

  lemma LoadsDumpsMembers(ms: seq<Member>)
    requires |ms| > 0
    ensures Loads(Dumps(ms)) == Some(ms)
  {
    var body := EncodeMembers(ms) + "}";
    var s := Dumps(ms);
    assert s == "{" + body;
    assert s[0] == '{' && s[1..] == body;
    SkipNone(s);
    EncodeMembersStart(ms);
    assert body[0] == '"';
    SkipNone(body);
    assert body == EncodeMembers(ms) + "}" + [];
    MembersRoundTrip(ms, []);
  }
}
