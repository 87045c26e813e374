/**
 String literals: `valueToQuotedString` on the writing side, `Reader::decodeString` with its
 unicode escapes and `codePointToUTF8` on the reading side.
 */
module JsonString {
  import opened JsonValue
  import opened Optional
  import opened JsonLexer

  /** Why a read failed, one constructor for each message of the reader. */
  datatype Problem =
    | EmptyEscape | BadEscape | FourDigitsExpected | HexDigitExpected | SixMoreExpected | SecondHalfExpected
    | NotANumber | ValueExpected | MissingColon | MissingCommaOrBrace | MissingMemberName | MissingCommaOrBracket

  // ----- codePointToUTF8 -----

  /** The bytes of a code point; nothing for a number beyond the last code point. */
  function Utf8(cp: nat): (bytes: string)
    ensures forall i :: 0 <= i < |bytes| ==> bytes[i] as int < 256
  {
    if cp <= 0x7F then [cp as char]
    else if cp <= 0x7FF then [(0xC0 + cp / 64 % 32) as char, (0x80 + cp % 64) as char]
    else if cp <= 0xFFFF then
      [(0xE0 + cp / 4096 % 16) as char, (0x80 + cp / 64 % 64) as char, (0x80 + cp % 64) as char]
    else if cp <= 0x10FFFF then
      [(0xF0 + cp / 262144 % 8) as char, (0x80 + cp / 4096 % 64) as char,
       (0x80 + cp / 64 % 64) as char, (0x80 + cp % 64) as char]
    else []
  }

  // ----- unicode escapes -----

  datatype Code = CodeOk(cp: nat, next: nat) | CodeErr(problem: Problem, at: nat)

  function HexValue(c: char): (r: Option<nat>)
    ensures r.Some? ==> r.value < 16
  {
    if '0' <= c <= '9' then Some(c as int - '0' as int)
    else if 'a' <= c <= 'f' then Some(c as int - 'a' as int + 10)
    else if 'A' <= c <= 'F' then Some(c as int - 'A' as int + 10)
    else None
  }

  function HexRun(s: string, cur: nat, n: nat, acc: nat): (r: Code)
    requires cur + n <= |s|
    ensures r.CodeOk? ==> r.next == cur + n
    ensures r.CodeErr? ==> cur < r.at <= cur + n
    decreases n
  {
    if n == 0 then CodeOk(acc, cur)
    else match HexValue(s[cur])
      case None => CodeErr(HexDigitExpected, cur + 1)
      case Some(h) => HexRun(s, cur + 1, n - 1, acc * 16 + h)
  }

  lemma HexRunStep(s: string, cur: nat, n: nat, acc: nat)
    requires cur + n <= |s|
    ensures n == 0 ==> HexRun(s, cur, n, acc) == CodeOk(acc, cur)
    ensures n > 0 && HexValue(s[cur]).None? ==> HexRun(s, cur, n, acc) == CodeErr(HexDigitExpected, cur + 1)
    ensures n > 0 && HexValue(s[cur]).Some? ==>
              HexRun(s, cur, n, acc) == HexRun(s, cur + 1, n - 1, acc * 16 + HexValue(s[cur]).value)
  {
  }

  /** `decodeUnicodeEscapeSequence`: four hexadecimal digits. */
  function HexEscape(s: string, cur: nat, end: nat): (r: Code)
    requires cur <= end <= |s|
    ensures r.CodeOk? ==> r.next == cur + 4 <= end && r.cp <= 0xFFFF
    ensures r.CodeErr? ==> cur <= r.at <= end
  {
    if end - cur < 4 then CodeErr(FourDigitsExpected, cur)
    else
      HexRunBound(s, cur, 4, 0, 1);
      HexRun(s, cur, 4, 0)
  }

  lemma HexEscapeIs(s: string, cur: nat, end: nat)
    requires cur <= end <= |s|
    ensures HexEscape(s, cur, end) == if end - cur < 4 then CodeErr(FourDigitsExpected, cur) else HexRun(s, cur, 4, 0)
  {
  }

  lemma {:induction false} HexRunBound(s: string, cur: nat, n: nat, acc: nat, bound: nat)
    requires cur + n <= |s| && n <= 4 && acc < bound
    ensures HexRun(s, cur, n, acc).CodeOk? ==>
              HexRun(s, cur, n, acc).cp < bound * (if n == 0 then 1 else if n == 1 then 16 else if n == 2 then 256 else if n == 3 then 4096 else 65536)
    decreases n
  {
    if n > 0 && HexValue(s[cur]).Some? {
      HexRunBound(s, cur + 1, n - 1, acc * 16 + HexValue(s[cur]).value, bound * 16);
    }
  }

  predicate IsHighSurrogate(u: nat) {
    0xD800 <= u <= 0xDBFF
  }

  /** `decodeUnicodeCodePoint`: one escape, or two for a surrogate pair. */
  function CodePoint(s: string, cur: nat, end: nat): (r: Code)
    requires cur <= end <= |s|
    ensures r.CodeOk? ==> cur < r.next <= end && r.cp <= 0x10FFFF
    ensures r.CodeErr? ==> cur <= r.at <= end
  {
    match HexEscape(s, cur, end)
    case CodeErr(problem, at) => CodeErr(problem, at)
    case CodeOk(u, next) =>
      if !IsHighSurrogate(u) then CodeOk(u, next)
      else if end - next < 6 then CodeErr(SixMoreExpected, next)
      else if s[next] != '\\' then CodeErr(SecondHalfExpected, next + 1)
      else if s[next + 1] != 'u' then CodeErr(SecondHalfExpected, next + 2)
      else
        match HexEscape(s, next + 2, end)
        case CodeErr(problem, at) => CodeErr(problem, at)
        case CodeOk(low, last) => CodeOk(0x10000 + u % 1024 * 1024 + low % 1024, last)
  }

  /** `decodeUnicodeEscapeSequence` as the source runs it. */
  method ComputeHexEscape(s: string, cur: nat, end: nat) returns (r: Code)
    requires cur <= end <= |s|
    ensures r == HexEscape(s, cur, end)
  {
    hide HexRun, HexEscape, HexValue;
    HexEscapeIs(s, cur, end);
    if end - cur < 4 {
      return CodeErr(FourDigitsExpected, cur);
    }
    ghost var all := HexRun(s, cur, 4, 0);
    var unicode: nat, current := 0, cur;
    for index := 0 to 4
      invariant current == cur + index
      invariant HexRun(s, current, 4 - index, unicode) == all
    {
      HexRunStep(s, current, 4 - index, unicode);
      var c := s[current];
      current := current + 1;
      match HexValue(c) {
        case None => return CodeErr(HexDigitExpected, current);
        case Some(digit) => unicode := unicode * 16 + digit;
      }
    }
    HexRunStep(s, current, 0, unicode);
    r := CodeOk(unicode, current);
  }

  method ComputeCodePoint(s: string, cur: nat, end: nat) returns (r: Code)
    requires cur <= end <= |s|
    ensures r == CodePoint(s, cur, end)
  {
    r := ComputeHexEscape(s, cur, end);
    if r.CodeErr? {
      return;
    }
    var unicode, current := r.cp, r.next;
    if 0xD800 <= unicode <= 0xDBFF {
      if end - current < 6 {
        return CodeErr(SixMoreExpected, current);
      }
      if s[current] != '\\' {
        return CodeErr(SecondHalfExpected, current + 1);
      }
      if s[current + 1] != 'u' {
        return CodeErr(SecondHalfExpected, current + 2);
      }
      r := ComputeHexEscape(s, current + 2, end);
      if r.CodeOk? {
        r := CodeOk(0x10000 + unicode % 1024 * 1024 + r.cp % 1024, r.next);
      }
    }
  }

  // ----- decodeString -----

  datatype Decoded = Text(text: string) | Bad(problem: Problem, at: nat)

  function Prefixed(before: string, d: Decoded): Decoded {
    match d
    case Text(t) => Text(before + t)
    case Bad(_, _) => d
  }

  /** The character a one-letter escape stands for. */
  function SimpleEscape(c: char): Option<char> {
    if c == '"' || c == '/' || c == '\\' then Some(c)
    else if c == 'b' then Some('\U{8}')
    else if c == 'f' then Some('\U{c}')
    else if c == 'n' then Some('\n')
    else if c == 'r' then Some('\r')
    else if c == 't' then Some('\t')
    else None
  }

  /** What the characters of a literal between `cur` and `end` stand for. */
  function DecodeBody(s: string, cur: nat, end: nat): (r: Decoded)
    requires cur <= end <= |s|
    ensures r.Bad? ==> cur <= r.at <= end
    decreases end - cur
  {
    if cur == end || s[cur] == '"' then Text("")
    else if s[cur] != '\\' then Prefixed([s[cur]], DecodeBody(s, cur + 1, end))
    else if cur + 1 == end then Bad(EmptyEscape, end)
    else if s[cur + 1] == 'u' then
      match CodePoint(s, cur + 2, end)
      case CodeErr(problem, at) => Bad(problem, at)
      case CodeOk(cp, next) => Prefixed(Utf8(cp), DecodeBody(s, next, end))
    else
      match SimpleEscape(s[cur + 1])
      case None => Bad(BadEscape, cur + 2)
      case Some(c) => Prefixed([c], DecodeBody(s, cur + 2, end))
  }

  /** `decodeString`: the text a string token stands for. */
  function DecodeString(s: string, t: Token): Decoded
    requires t.start + 2 <= t.end <= |s|
  {
    DecodeBody(s, t.start + 1, t.end - 1)
  }

  method ComputeString(s: string, t: Token) returns (r: Decoded)
    requires t.start + 2 <= t.end <= |s|
    ensures r == DecodeString(s, t)
  {
    hide SimpleEscape, Utf8, CodePoint;
    var decoded := "";
    var current, end := t.start + 1, t.end - 1;
    while current != end
      invariant t.start + 1 <= current <= end
      invariant Prefixed(decoded, DecodeBody(s, current, end)) == DecodeString(s, t)
      decreases end - current
    {
      ghost var before, from := decoded, current;
      var c := s[current];
      current := current + 1;
      if c == '"' {
        break;
      } else if c == '\\' {
        if current == end {
          return Bad(EmptyEscape, current);
        }
        var escape := s[current];
        current := current + 1;
        if escape == 'u' {
          var code := ComputeCodePoint(s, current, end);
          match code {
            case CodeErr(problem, at) => return Bad(problem, at);
            case CodeOk(cp, next) =>
              decoded := decoded + Utf8(cp);
              current := next;
          }
        } else {
          match SimpleEscape(escape) {
            case None => return Bad(BadEscape, current);
            case Some(plain) => decoded := decoded + [plain];
          }
        }
      } else {
        decoded := decoded + [c];
      }
      PrefixedTwice(before, decoded[|before|..], DecodeBody(s, current, end));
      assert decoded == before + decoded[|before|..];
    }
    assert decoded + "" == decoded;
    return Text(decoded);
  }

  lemma PrefixedTwice(a: string, b: string, d: Decoded)
    ensures Prefixed(a, Prefixed(b, d)) == Prefixed(a + b, d)
  {
    if d.Text? {
      assert a + (b + d.text) == a + b + d.text;
    }
  }

  // ----- valueToQuotedString -----

  predicate IsControl(c: char) {
    '\0' < c <= '\U{1f}'
  }

  function HexChar(d: nat): char
    requires d < 16
  {
    if d < 10 then ('0' as int + d) as char else ('A' as int + d - 10) as char
  }

  /** Four upper-case hexadecimal digits, zero padded. */
  function Hex4(n: nat): (t: string)
    requires n <= 0xFFFF
    ensures |t| == 4
  {
    [HexChar(n / 16 / 16 / 16), HexChar(n / 16 / 16 % 16), HexChar(n / 16 % 16), HexChar(n % 16)]
  }

  function EscapeChar(c: char): (t: string)
    ensures t != []
  {
    if c == '"' then "\\\""
    else if c == '\\' then "\\\\"
    else if c == '\U{8}' then "\\b"
    else if c == '\U{c}' then "\\f"
    else if c == '\n' then "\\n"
    else if c == '\r' then "\\r"
    else if c == '\t' then "\\t"
    else if IsControl(c) then "\\u" + Hex4(c as int)
    else [c]
  }

  function Escaped(s: string): string {
    if s == [] then [] else EscapeChar(s[0]) + Escaped(s[1..])
  }

  /** The literal written for a string. */
  function Quoted(s: string): string {
    "\"" + Escaped(s) + "\""
  }

  predicate NeedsEscape(c: char) {
    c == '"' || c == '\\' || IsControl(c)
  }

  lemma {:induction false} EscapedAppend(s: string, c: char)
    ensures Escaped(s + [c]) == Escaped(s) + EscapeChar(c)
  {
    if s == [] {
      assert [c][1..] == [];
      assert Escaped([c]) == EscapeChar(c) + Escaped([]);
    } else {
      assert (s + [c])[1..] == s[1..] + [c];
      EscapedAppend(s[1..], c);
    }
  }

  /** The no-escape fast path agrees with the general loop. */
  lemma {:induction false} NothingToEscape(s: string)
    requires forall i :: 0 <= i < |s| ==> !NeedsEscape(s[i])
    ensures Escaped(s) == s
  {
    if s != [] {
      NothingToEscape(s[1..]);
      assert s == [s[0]] + s[1..];
    }
  }

  /** `strpbrk(value, ...) == NULL && !containsControlCharacter(value)` */
  method IsPlain(value: string) returns (plain: bool)
    ensures plain <==> forall i :: 0 <= i < |value| ==> !NeedsEscape(value[i])
  {
    for i := 0 to |value|
      invariant forall j :: 0 <= j < i ==> !NeedsEscape(value[j])
    {
      if NeedsEscape(value[i]) {
        return false;
      }
    }
    return true;
  }

  method ValueToQuotedString(value: string) returns (result: string)
    requires NulFree(value)
    ensures result == Quoted(value)
  {
    hide EscapeChar, NeedsEscape;
    var plain := IsPlain(value);
    if plain {
      NothingToEscape(value);
      return "\"" + value + "\"";
    }
    result := "\"";
    for c := 0 to |value|
      invariant result == "\"" + Escaped(value[..c])
    {
      EscapedAppend(value[..c], value[c]);
      assert value[..c + 1] == value[..c] + [value[c]];
      result := result + EscapeChar(value[c]);
    }
    assert value[..|value|] == value;
    result := result + "\"";
  }

  // ----- quoting, scanning and decoding together -----

  lemma ScanEscapedChar(s: string, p: nat, c: char)
    requires Occurs(s, p, EscapeChar(c))
    ensures ScanString(s, p) == ScanString(s, p + |EscapeChar(c)|)
  {
    var e := EscapeChar(c);
    assert s[p] == e[0];
    if |e| == 6 {
      assert s[p + 2] == e[2] && s[p + 3] == e[3] && s[p + 4] == e[4] && s[p + 5] == e[5];
      assert ScanString(s, p) == ScanString(s, p + 2) == ScanString(s, p + 3);
      assert ScanString(s, p + 3) == ScanString(s, p + 4) == ScanString(s, p + 5);
    }
  }

  /** Scanning an escaped text stops exactly at the quote that follows it. */
  lemma {:induction false} ScanEscaped(s: string, p: nat, text: string, q: nat)
    requires Occurs(s, p, Escaped(text)) && p + |Escaped(text)| == q < |s| && s[q] == '"'
    ensures ScanString(s, p) == Scan(q + 1, true)
    decreases |text|
  {
    if text != [] {
      var e := EscapeChar(text[0]);
      assert Escaped(text) == e + Escaped(text[1..]);
      hide *;
      OccursInTwo(s, p, e, Escaped(text[1..]));
      ScanEscapedChar(s, p, text[0]);
      ScanEscaped(s, p + |e|, text[1..], q);
    }
  }

  lemma HexCharValue(d: nat)
    requires d < 16
    ensures HexValue(HexChar(d)) == Some(d)
  {
  }

  lemma HexDigitsDecode(s: string, cur: nat, end: nat, a: nat, b: nat, c: nat, d: nat)
    requires a < 16 && b < 16 && c < 16 && d < 16 && cur + 4 <= end <= |s|
    requires s[cur] == HexChar(a) && s[cur + 1] == HexChar(b) && s[cur + 2] == HexChar(c) && s[cur + 3] == HexChar(d)
    ensures HexEscape(s, cur, end) == CodeOk(((a * 16 + b) * 16 + c) * 16 + d, cur + 4)
  {
    HexCharValue(a); HexCharValue(b); HexCharValue(c); HexCharValue(d);
    hide HexRun, HexValue, HexChar;
    HexRunStep(s, cur, 4, 0);
    HexRunStep(s, cur + 1, 3, a);
    HexRunStep(s, cur + 2, 2, a * 16 + b);
    HexRunStep(s, cur + 3, 1, (a * 16 + b) * 16 + c);
    HexRunStep(s, cur + 4, 0, ((a * 16 + b) * 16 + c) * 16 + d);
  }

  /** Four written digits read back as their number. */
  lemma Hex4Decodes(s: string, cur: nat, end: nat, n: nat)
    requires n <= 0xFFFF && cur + 4 <= end <= |s| && Occurs(s, cur, Hex4(n))
    ensures HexEscape(s, cur, end) == CodeOk(n, cur + 4)
  {
    hide HexEscape, HexChar, Hex4;
    var a, b, c, d := HexDigits(n);
    var t := Hex4(n);
    assert s[cur + 0] == t[0] && s[cur + 1] == t[1] && s[cur + 2] == t[2] && s[cur + 3] == t[3];
    HexDigitsDecode(s, cur, end, a, b, c, d);
  }

  lemma HexDigits(n: nat) returns (a: nat, b: nat, c: nat, d: nat)
    requires n <= 0xFFFF
    ensures a < 16 && b < 16 && c < 16 && d < 16 && n == ((a * 16 + b) * 16 + c) * 16 + d
    ensures Hex4(n) == [HexChar(a), HexChar(b), HexChar(c), HexChar(d)]
  {
    var m := n / 16;
    var l := m / 16;
    a, b, c, d := l / 16, l % 16, m % 16, n % 16;
    hide HexChar;
  }

  lemma DecodeEscapedChar(s: string, cur: nat, end: nat, c: char)
    requires c != '\0' && Occurs(s, cur, EscapeChar(c)) && cur + |EscapeChar(c)| <= end <= |s|
    ensures DecodeBody(s, cur, end) == Prefixed([c], DecodeBody(s, cur + |EscapeChar(c)|, end))
  {
    var e := EscapeChar(c);
    if |e| == 6 {
      DecodeControl(s, cur, end, c);
    } else if |e| == 2 {
      DecodeSimple(s, cur, end, c, e[1]);
    } else {
      hide CodePoint, Utf8, Hex4, SimpleEscape;
      assert s[cur + 0] == e[0];
    }
  }

  lemma DecodeSimple(s: string, cur: nat, end: nat, c: char, letter: char)
    requires Occurs(s, cur, ['\\', letter]) && cur + 2 <= end <= |s| && letter != 'u' && SimpleEscape(letter) == Some(c)
    ensures DecodeBody(s, cur, end) == Prefixed([c], DecodeBody(s, cur + 2, end))
  {
    hide CodePoint, Utf8, SimpleEscape;
    assert s[cur + 0] == ['\\', letter][0] && s[cur + 1] == ['\\', letter][1];
  }

  lemma DecodeControl(s: string, cur: nat, end: nat, c: char)
    requires IsControl(c) && Occurs(s, cur, "\\u" + Hex4(c as int)) && cur + 6 <= end <= |s|
    ensures DecodeBody(s, cur, end) == Prefixed([c], DecodeBody(s, cur + 6, end))
  {
    assert Utf8(c as int) == [c];
    hide Utf8, Hex4, HexEscape, SimpleEscape;
    OccursInTwo(s, cur, "\\u", Hex4(c as int));
    assert s[cur + 0] == "\\u"[0] && s[cur + 1] == "\\u"[1];
    Hex4Decodes(s, cur + 2, end, c as int);
  }

  /** Decoding an escaped text gives the text back. */
  lemma {:induction false} DecodeEscaped(s: string, cur: nat, end: nat, text: string)
    requires Occurs(s, cur, Escaped(text)) && end == cur + |Escaped(text)| && NulFree(text)
    ensures DecodeBody(s, cur, end) == Text(text)
    decreases |text|
  {
    hide EscapeChar, CodePoint, SimpleEscape, Utf8;
    if text == [] {
      assert DecodeBody(s, cur, end) == Text("");
    } else {
      hide DecodeBody, Occurs;
      var e := EscapeChar(text[0]);
      OccursInTwo(s, cur, e, Escaped(text[1..]));
      DecodeEscapedChar(s, cur, end, text[0]);
      DecodeEscaped(s, cur + |e|, end, text[1..]);
      assert text == [text[0]] + text[1..];
    }
  }

  /** Quoting any C string, then scanning and decoding the literal, returns the string. */
  lemma QuoteRoundTrip(s: string, p: nat, text: string)
    requires Occurs(s, p, Quoted(text)) && NulFree(text)
    ensures TokenAt(s, p) == Token(StringToken, p, p + |Quoted(text)|)
    ensures DecodeString(s, TokenAt(s, p)) == Text(text)
  {
    hide Escaped, ScanString, DecodeBody;
    var e := Escaped(text);
    assert Quoted(text) == "\"" + (e + "\"");
    OccursInTwo(s, p, "\"", e + "\"");
    OccursInTwo(s, p + 1, e, "\"");
    assert s[p + 0] == "\""[0];
    assert s[p + 1 + |e| + 0] == "\""[0];
    ScanEscaped(s, p + 1, text, p + 1 + |e|);
    DecodeEscaped(s, p + 1, p + 1 + |e|, text);
  }
}
