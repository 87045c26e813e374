/**
 Unicode text through string literals: every scalar value can be written with escapes, is
 stored as its UTF-8 bytes, and is recovered from them by the decoder of section 3 of RFC 3629.
 */
module JsonUnicode {
  import opened Optional
  import opened JsonLexer
  import opened JsonString

  predicate IsScalar(cp: nat) {
    cp <= 0x10FFFF && !(0xD800 <= cp <= 0xDFFF)
  }

  // ----- the decoder of the standard -----

  datatype Unit = Unit(cp: nat, length: nat)

  predicate Continues(s: string, i: nat) {
    i < |s| && 0x80 <= s[i] as int <= 0xBF
  }

  function Tail(s: string, i: nat): nat
    requires Continues(s, i)
  {
    s[i] as int - 0x80
  }

  /** The first character of a UTF-8 text; overlong forms and surrogates are rejected. */
  function DecodeOne(s: string): Option<Unit> {
    if s == [] then None
    else
      var b := s[0] as int;
      if b <= 0x7F then Some(Unit(b, 1))
      else if 0xC2 <= b <= 0xDF && Continues(s, 1) then Some(Unit((b - 0xC0) * 64 + Tail(s, 1), 2))
      else if 0xE0 <= b <= 0xEF && Continues(s, 1) && Continues(s, 2) then
        var cp := (b - 0xE0) * 4096 + Tail(s, 1) * 64 + Tail(s, 2);
        if cp >= 0x800 && IsScalar(cp) then Some(Unit(cp, 3)) else None
      else if 0xF0 <= b <= 0xF4 && Continues(s, 1) && Continues(s, 2) && Continues(s, 3) then
        var cp := (b - 0xF0) * 262144 + Tail(s, 1) * 4096 + Tail(s, 2) * 64 + Tail(s, 3);
        if 0x10000 <= cp <= 0x10FFFF then Some(Unit(cp, 4)) else None
      else None
  }

  /** The 6-bit digits of a code point, from the last one up. */
  lemma SixBitDigits(cp: nat)
    requires cp <= 0x10FFFF
    ensures cp / 64 * 64 + cp % 64 == cp
    ensures cp / 4096 * 64 + cp / 64 % 64 == cp / 64
    ensures cp / 262144 * 64 + cp / 4096 % 64 == cp / 4096
    ensures cp <= 0x7FF ==> cp / 64 % 32 == cp / 64
    ensures cp <= 0xFFFF ==> cp / 4096 % 16 == cp / 4096
    ensures cp / 262144 % 8 == cp / 262144
  {
    assert cp / 4096 == cp / 64 / 64;
    assert cp / 262144 == cp / 4096 / 64;
  }

  lemma TwoBytesInvert(cp: nat, s: string)
    requires 0x80 <= cp <= 0x7FF && Utf8(cp) <= s
    ensures DecodeOne(s) == Some(Unit(cp, 2))
  {
    SixBitDigits(cp);
    var u := Utf8(cp);
    assert s[0] == u[0] && s[1] == u[1];
  }

  lemma ThreeBytesInvert(cp: nat, s: string)
    requires 0x800 <= cp <= 0xFFFF && IsScalar(cp) && Utf8(cp) <= s
    ensures DecodeOne(s) == Some(Unit(cp, 3))
  {
    SixBitDigits(cp);
    var u := Utf8(cp);
    assert s[0] == u[0] && s[1] == u[1] && s[2] == u[2];
    assert (s[0] as int - 0xE0) * 4096 + (s[1] as int - 0x80) * 64 + (s[2] as int - 0x80) == cp;
  }

  lemma FourBytesInvert(cp: nat, s: string)
    requires 0x10000 <= cp <= 0x10FFFF && Utf8(cp) <= s
    ensures DecodeOne(s) == Some(Unit(cp, 4))
  {
    SixBitDigits(cp);
    var u := Utf8(cp);
    assert s[0] == u[0] && s[1] == u[1] && s[2] == u[2] && s[3] == u[3];
    assert (s[0] as int - 0xF0) * 262144 + (s[1] as int - 0x80) * 4096 + (s[2] as int - 0x80) * 64 + (s[3] as int - 0x80) == cp;
  }

  /** codePointToUTF8 is inverted by the standard's decoder on every scalar value. */
  lemma Utf8Inverts(cp: nat, rest: string)
    requires IsScalar(cp)
    ensures Utf8(cp) != [] && DecodeOne(Utf8(cp) + rest) == Some(Unit(cp, |Utf8(cp)|))
  {
    var s := Utf8(cp) + rest;
    if cp <= 0x7F {
      assert s[0] == Utf8(cp)[0];
    } else {
      hide DecodeOne;
      assert Utf8(cp) <= s;
      if cp <= 0x7FF {
        TwoBytesInvert(cp, s);
      } else if cp <= 0xFFFF {
        ThreeBytesInvert(cp, s);
      } else {
        FourBytesInvert(cp, s);
      }
    }
  }

  /** The encoded number, read off the bytes. */
  function Number(s: string): int {
    if |s| == 1 then s[0] as int
    else if |s| == 2 then (s[0] as int - 0xC0) * 64 + (s[1] as int - 0x80)
    else if |s| == 3 then (s[0] as int - 0xE0) * 4096 + (s[1] as int - 0x80) * 64 + (s[2] as int - 0x80)
    else if |s| == 4 then
      (s[0] as int - 0xF0) * 262144 + (s[1] as int - 0x80) * 4096 + (s[2] as int - 0x80) * 64 + (s[3] as int - 0x80)
    else 0
  }

  lemma NumberOfUtf8(cp: nat)
    requires cp <= 0x10FFFF
    ensures Number(Utf8(cp)) == cp
  {
    SixBitDigits(cp);
  }

  /** Distinct code points have distinct encodings, lone surrogates included. */
  lemma Utf8Injective(a: nat, b: nat)
    requires a <= 0x10FFFF && b <= 0x10FFFF && Utf8(a) == Utf8(b)
    ensures a == b
  {
    hide Utf8, Number;
    NumberOfUtf8(a);
    NumberOfUtf8(b);
  }

  // ----- escapes -----

  /** The escape sequence of a code point: one unit, or a surrogate pair. */
  function EscapeOf(cp: nat): string
    requires IsScalar(cp)
  {
    if cp < 0x10000 then "\\u" + Hex4(cp)
    else "\\u" + Hex4(0xD800 + (cp - 0x10000) / 1024) + ("\\u" + Hex4(0xDC00 + (cp - 0x10000) % 1024))
  }

  /** Every scalar value is recovered from its escape, supplementary ones from the pair. */
  lemma EscapeDecodes(s: string, cur: nat, end: nat, cp: nat)
    requires IsScalar(cp) && Occurs(s, cur, EscapeOf(cp)) && cur + |EscapeOf(cp)| <= end <= |s|
    ensures CodePoint(s, cur + 2, end) == CodeOk(cp, cur + |EscapeOf(cp)|)
    ensures DecodeBody(s, cur, end) == Prefixed(Utf8(cp), DecodeBody(s, cur + |EscapeOf(cp)|, end))
  {
    hide Hex4, HexEscape, Utf8;
    var e := EscapeOf(cp);
    assert s[cur + 0] == e[0] && s[cur + 1] == e[1];
    if cp < 0x10000 {
      OccursInTwo(s, cur, "\\u", Hex4(cp));
      Hex4Decodes(s, cur + 2, end, cp);
    } else {
      var high, low := 0xD800 + (cp - 0x10000) / 1024, 0xDC00 + (cp - 0x10000) % 1024;
      OccursInTwo(s, cur, "\\u" + Hex4(high), "\\u" + Hex4(low));
      OccursInTwo(s, cur, "\\u", Hex4(high));
      OccursInTwo(s, cur + 6, "\\u", Hex4(low));
      assert s[cur + 6 + 0] == "\\u"[0] && s[cur + 6 + 1] == "\\u"[1];
      Hex4Decodes(s, cur + 2, end, high);
      Hex4Decodes(s, cur + 8, end, low);
      SurrogateArithmetic(cp);
    }
  }

  lemma SurrogateArithmetic(cp: nat)
    requires 0x10000 <= cp <= 0x10FFFF
    ensures var high, low := 0xD800 + (cp - 0x10000) / 1024, 0xDC00 + (cp - 0x10000) % 1024;
            high <= 0xDBFF && 0x10000 + high % 1024 * 1024 + low % 1024 == cp
  {
  }

  // ----- whole texts -----

  function EscapeAll(cps: seq<nat>): string
    requires forall i :: 0 <= i < |cps| ==> IsScalar(cps[i])
  {
    if cps == [] then [] else EscapeOf(cps[0]) + EscapeAll(cps[1..])
  }

  function Utf8All(cps: seq<nat>): string {
    if cps == [] then [] else Utf8(cps[0]) + Utf8All(cps[1..])
  }

  function DecodeAll(s: string): Option<seq<nat>> {
    if s == [] then Some([])
    else
      match DecodeOne(s)
      case None => None
      case Some(u) =>
        if u.length == 0 || u.length > |s| then None
        else
          match DecodeAll(s[u.length..])
          case None => None
          case Some(cps) => Some([u.cp] + cps)
  }

  lemma {:induction false} Utf8AllInverts(cps: seq<nat>)
    requires forall i :: 0 <= i < |cps| ==> IsScalar(cps[i])
    ensures DecodeAll(Utf8All(cps)) == Some(cps)
  {
    hide Utf8, DecodeOne, IsScalar;
    if cps != [] {
      var rest := cps[1..];
      Utf8AllInverts(rest);
      Utf8Inverts(cps[0], Utf8All(rest));
      DecodeAllStep(Utf8(cps[0]), cps[0], Utf8All(rest), rest);
      assert cps == [cps[0]] + rest;
    }
  }

  lemma DecodeAllStep(bytes: string, cp: nat, more: string, cps: seq<nat>)
    requires bytes != [] && DecodeOne(bytes + more) == Some(Unit(cp, |bytes|)) && DecodeAll(more) == Some(cps)
    ensures DecodeAll(bytes + more) == Some([cp] + cps)
  {
    hide DecodeOne;
    assert (bytes + more)[|bytes|..] == more;
  }

  /** A literal written with escapes decodes to UTF-8, from which the code points come back. */
  lemma {:induction false} EscapedTextRoundTrip(s: string, cur: nat, end: nat, cps: seq<nat>)
    requires forall i :: 0 <= i < |cps| ==> IsScalar(cps[i])
    requires Occurs(s, cur, EscapeAll(cps)) && end == cur + |EscapeAll(cps)|
    ensures DecodeBody(s, cur, end) == Text(Utf8All(cps))
    ensures DecodeAll(Utf8All(cps)) == Some(cps)
    decreases |cps|
  {
    hide EscapeOf, Utf8, DecodeAll, IsScalar;
    Utf8AllInverts(cps);
    if cps == [] {
      assert DecodeBody(s, cur, end) == Text([]);
    } else {
      hide DecodeBody;
      var e, rest := EscapeOf(cps[0]), cps[1..];
      OccursInTwo(s, cur, e, EscapeAll(rest));
      EscapeDecodes(s, cur, end, cps[0]);
      EscapedTextRoundTrip(s, cur + |e|, end, rest);
    }
  }
}
