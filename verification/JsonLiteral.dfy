/**
 What a string literal denotes, described by its pieces: plain characters, one-letter escapes,
 hexadecimal escapes and surrogate pairs.  `Reader::decodeString` accepts exactly the literals
 that are made of such pieces and yields what they denote.
 */
module JsonLiteral {
  import opened Optional
  import opened JsonLexer
  import opened JsonString

  // ----- hexadecimal numbers -----

  /** The digit with value `d`, in either case. */
  predicate HexDigitIs(c: char, d: nat) {
    d < 16 && (c == "0123456789abcdef"[d] || c == "0123456789ABCDEF"[d])
  }

  predicate IsHexDigit(c: char) {
    '0' <= c <= '9' || 'a' <= c <= 'f' || 'A' <= c <= 'F'
  }

  ghost predicate HexNumberIs(h: string, n: nat) {
    |h| == 4 && exists a: nat, b: nat, c: nat, d: nat ::
      HexDigitIs(h[0], a) && HexDigitIs(h[1], b) && HexDigitIs(h[2], c) && HexDigitIs(h[3], d)
      && n == 4096 * a + 256 * b + 16 * c + d
  }

  lemma HexValueIs(c: char, d: nat)
    ensures HexValue(c) == Some(d) <==> HexDigitIs(c, d)
  {
  }

  lemma HexValueNone(c: char)
    ensures HexValue(c) == None <==> !IsHexDigit(c)
  {
  }

  /** The first character that is no digit has index `k`. */
  predicate FirstOther(h: string, k: nat) {
    k < |h| && !IsHexDigit(h[k]) && forall j :: 0 <= j < k ==> IsHexDigit(h[j])
  }

  /**
   `decodeUnicodeEscapeSequence` yields exactly the number the four digits denote, in either
   case, or fails where too few characters are left or behind the first that is no digit.
   */
  lemma HexEscapeMeaning(s: string, cur: nat, end: nat, n: nat, k: nat)
    requires cur <= end <= |s|
    ensures end - cur < 4 ==> HexEscape(s, cur, end) == CodeErr(FourDigitsExpected, cur)
    ensures cur + 4 <= end ==> (HexEscape(s, cur, end) == CodeOk(n, cur + 4) <==> HexNumberIs(s[cur..cur + 4], n))
    ensures cur + 4 <= end ==>
              (HexEscape(s, cur, end) == CodeErr(HexDigitExpected, cur + k + 1) <==> FirstOther(s[cur..cur + 4], k))
  {
    hide HexEscape, HexRun;
    HexEscapeIs(s, cur, end);
    if cur + 4 <= end {
      FourDigits(s, cur, n, k);
    }
  }

  lemma FourDigits(s: string, cur: nat, n: nat, k: nat)
    requires cur + 4 <= |s|
    ensures HexRun(s, cur, 4, 0) == CodeOk(n, cur + 4) <==> HexNumberIs(s[cur..cur + 4], n)
    ensures HexRun(s, cur, 4, 0) == CodeErr(HexDigitExpected, cur + k + 1) <==> FirstOther(s[cur..cur + 4], k)
  {
    hide HexRun, HexValue, HexDigitIs, IsHexDigit, HexNumberIs;
    var h := s[cur..cur + 4];
    assert h[0] == s[cur] && h[1] == s[cur + 1] && h[2] == s[cur + 2] && h[3] == s[cur + 3];
    HexRunFour(s, cur);
    HexValueNone(h[0]); HexValueNone(h[1]); HexValueNone(h[2]); HexValueNone(h[3]);
    HexNumberIff(h, n);
    if 0 < k < 4 {
      assert FirstOther(h, k) <==> !IsHexDigit(h[k]) && IsHexDigit(h[0]) && (k > 1 ==> IsHexDigit(h[1])) && (k > 2 ==> IsHexDigit(h[2]));
    }
  }

  /** The four steps of the loop, put together. */
  lemma HexRunFour(s: string, cur: nat)
    requires cur + 4 <= |s|
    ensures HexRun(s, cur, 4, 0) ==
            match HexValue(s[cur])
            case None => CodeErr(HexDigitExpected, cur + 1)
            case Some(a) =>
              match HexValue(s[cur + 1])
              case None => CodeErr(HexDigitExpected, cur + 2)
              case Some(b) =>
                match HexValue(s[cur + 2])
                case None => CodeErr(HexDigitExpected, cur + 3)
                case Some(c) =>
                  match HexValue(s[cur + 3])
                  case None => CodeErr(HexDigitExpected, cur + 4)
                  case Some(d) => CodeOk(((a * 16 + b) * 16 + c) * 16 + d, cur + 4)
  {
    hide HexRun, HexValue;
    HexRunStep(s, cur, 4, 0);
    if HexValue(s[cur]).Some? {
      var a := HexValue(s[cur]).value;
      HexRunStep(s, cur + 1, 3, a);
      if HexValue(s[cur + 1]).Some? {
        var b := a * 16 + HexValue(s[cur + 1]).value;
        HexRunStep(s, cur + 2, 2, b);
        if HexValue(s[cur + 2]).Some? {
          var c := b * 16 + HexValue(s[cur + 2]).value;
          HexRunStep(s, cur + 3, 1, c);
          if HexValue(s[cur + 3]).Some? {
            HexRunStep(s, cur + 4, 0, c * 16 + HexValue(s[cur + 3]).value);
          }
        }
      }
    }
  }

  lemma HexNumberIff(h: string, n: nat)
    requires |h| == 4
    ensures HexNumberIs(h, n) <==>
            && HexValue(h[0]).Some? && HexValue(h[1]).Some? && HexValue(h[2]).Some? && HexValue(h[3]).Some?
            && n == ((HexValue(h[0]).value * 16 + HexValue(h[1]).value) * 16 + HexValue(h[2]).value) * 16 + HexValue(h[3]).value
  {
    hide HexValue, HexDigitIs;
    if HexNumberIs(h, n) {
      var a: nat, b: nat, c: nat, d: nat :| HexDigitIs(h[0], a) && HexDigitIs(h[1], b) && HexDigitIs(h[2], c) && HexDigitIs(h[3], d)
                        && n == 4096 * a + 256 * b + 16 * c + d;
      HexValueIs(h[0], a); HexValueIs(h[1], b); HexValueIs(h[2], c); HexValueIs(h[3], d);
    }
    if HexValue(h[0]).Some? && HexValue(h[1]).Some? && HexValue(h[2]).Some? && HexValue(h[3]).Some? {
      HexValueIs(h[0], HexValue(h[0]).value); HexValueIs(h[1], HexValue(h[1]).value);
      HexValueIs(h[2], HexValue(h[2]).value); HexValueIs(h[3], HexValue(h[3]).value);
    }
  }

  // ----- the pieces of a literal -----

  /** A piece together with what it denotes. */
  datatype Piece =
    | Single(c: char)
    | Simple(letter: char, code: nat)
    | Code(hex: string, number: nat)
    | Pair(high: string, upper: nat, low: string, lower: nat)

  /** The one-letter escapes, with the byte each stands for. */
  predicate EscapeStands(letter: char, code: nat) {
    || (letter == '"' && code == 34) || (letter == '/' && code == 47) || (letter == '\\' && code == 92)
    || (letter == 'b' && code == 8) || (letter == 'f' && code == 12) || (letter == 'n' && code == 10)
    || (letter == 'r' && code == 13) || (letter == 't' && code == 9)
  }

  ghost predicate ValidPiece(p: Piece) {
    match p
    case Single(c) => c != '"' && c != '\\'
    case Simple(letter, code) => EscapeStands(letter, code)
    case Code(hex, n) => HexNumberIs(hex, n) && !(0xD800 <= n <= 0xDBFF)
    case Pair(high, m, low, n) => HexNumberIs(high, m) && 0xD800 <= m <= 0xDBFF && HexNumberIs(low, n)
  }

  function PieceText(p: Piece): string {
    match p
    case Single(c) => [c]
    case Simple(letter, _) => ['\\', letter]
    case Code(hex, _) => ['\\', 'u'] + hex
    case Pair(high, _, low, _) => ['\\', 'u'] + high + (['\\', 'u'] + low)
  }

  /** The bytes a piece denotes; a pair denotes a code point beyond the first 65536. */
  function PieceMeaning(p: Piece): string {
    match p
    case Single(c) => [c]
    case Simple(_, code) => if code < 256 then [code as char] else []
    case Code(_, n) => Utf8(n)
    case Pair(_, m, _, n) => if m >= 0xD800 then Utf8(0x10000 + (m - 0xD800) * 1024 + n % 1024) else []
  }

  ghost predicate ValidPieces(ps: seq<Piece>) {
    forall i :: 0 <= i < |ps| ==> ValidPiece(ps[i])
  }

  function PiecesText(ps: seq<Piece>): string {
    if ps == [] then "" else PieceText(ps[0]) + PiecesText(ps[1..])
  }

  function PiecesMeaning(ps: seq<Piece>): string {
    if ps == [] then "" else PieceMeaning(ps[0]) + PiecesMeaning(ps[1..])
  }

  /** The literal, quotes included, denotes the text. */
  ghost predicate Denotes(literal: string, text: string) {
    exists ps :: ValidPieces(ps) && literal == "\"" + PiecesText(ps) + "\"" && text == PiecesMeaning(ps)
  }

  // ----- pieces are decoded -----

  lemma SimpleEscapeIs(letter: char, code: nat)
    ensures EscapeStands(letter, code) <==> code < 256 && SimpleEscape(letter) == Some(code as char)
  {
  }

  lemma HexIsPlain(c: char, d: nat)
    requires HexDigitIs(c, d)
    ensures c != '"' && c != '\\'
  {
  }

  /** The digits of a hexadecimal number are not special to the scanner. */
  lemma HexScans(s: string, cur: nat, h: string, n: nat)
    requires HexNumberIs(h, n) && Occurs(s, cur, h)
    ensures ScanString(s, cur) == ScanString(s, cur + 4)
  {
    assert s[cur + 0] == h[0] && s[cur + 1] == h[1] && s[cur + 2] == h[2] && s[cur + 3] == h[3];
    hide HexDigitIs;
    var a: nat, b: nat, c: nat, d: nat :| HexDigitIs(h[0], a) && HexDigitIs(h[1], b) && HexDigitIs(h[2], c) && HexDigitIs(h[3], d);
    HexIsPlain(h[0], a); HexIsPlain(h[1], b); HexIsPlain(h[2], c); HexIsPlain(h[3], d);
    assert ScanString(s, cur) == ScanString(s, cur + 1) && ScanString(s, cur + 1) == ScanString(s, cur + 2);
    assert ScanString(s, cur + 2) == ScanString(s, cur + 3) && ScanString(s, cur + 3) == ScanString(s, cur + 4);
  }

  lemma EscapeScans(s: string, cur: nat, hex: string, n: nat)
    requires HexNumberIs(hex, n) && Occurs(s, cur, ['\\', 'u'] + hex)
    ensures ScanString(s, cur) == ScanString(s, cur + 6)
  {
    hide HexNumberIs;
    OccursInTwo(s, cur, ['\\', 'u'], hex);
    assert s[cur + 0] == ['\\', 'u'][0];
    assert ScanString(s, cur) == ScanString(s, cur + 2);
    hide ScanString;
    HexScans(s, cur + 2, hex, n);
  }

  lemma PieceScans(s: string, cur: nat, p: Piece)
    requires ValidPiece(p) && Occurs(s, cur, PieceText(p))
    ensures ScanString(s, cur) == ScanString(s, cur + |PieceText(p)|)
  {
    hide HexNumberIs;
    match p
    case Single(c) => assert s[cur + 0] == PieceText(p)[0];
    case Simple(letter, _) => assert s[cur + 0] == PieceText(p)[0];
    case Code(hex, n) => LengthFour(hex, n); EscapeScans(s, cur, hex, n);
    case Pair(high, m, low, n) =>
      LengthFour(high, m);
      LengthFour(low, n);
      OccursInTwo(s, cur, ['\\', 'u'] + high, ['\\', 'u'] + low);
      EscapeScans(s, cur, high, m);
      EscapeScans(s, cur + 6, low, n);
  }

  lemma LengthFour(hex: string, n: nat)
    requires HexNumberIs(hex, n)
    ensures |hex| == 4 && n <= 0xFFFF
  {
  }

  lemma HexDecodes(s: string, cur: nat, end: nat, hex: string, n: nat)
    requires HexNumberIs(hex, n) && Occurs(s, cur, hex) && cur + 4 <= end <= |s|
    ensures HexEscape(s, cur, end) == CodeOk(n, cur + 4)
  {
    hide HexNumberIs, HexEscape;
    LengthFour(hex, n);
    assert s[cur..cur + 4] == hex;
    HexEscapeMeaning(s, cur, end, n, 0);
  }

  lemma PieceDecodes(s: string, cur: nat, end: nat, p: Piece)
    requires ValidPiece(p) && Occurs(s, cur, PieceText(p)) && cur + |PieceText(p)| <= end <= |s|
    ensures DecodeBody(s, cur, end) == Prefixed(PieceMeaning(p), DecodeBody(s, cur + |PieceText(p)|, end))
  {
    hide HexNumberIs, HexEscape, Utf8, SimpleEscape, EscapeStands;
    match p
    case Single(c) => assert s[cur + 0] == PieceText(p)[0];
    case Simple(letter, code) =>
      assert s[cur + 0] == PieceText(p)[0] && s[cur + 1] == PieceText(p)[1];
      SimpleEscapeIs(letter, code);
      SimpleIsNotU(letter, code);
    case Code(hex, n) =>
      LengthFour(hex, n);
      OccursInTwo(s, cur, ['\\', 'u'], hex);
      assert s[cur + 0] == ['\\', 'u'][0] && s[cur + 1] == ['\\', 'u'][1];
      HexDecodes(s, cur + 2, end, hex, n);
    case Pair(high, m, low, n) =>
      LengthFour(high, m);
      LengthFour(low, n);
      PairDecodes(s, cur, end, high, m, low, n);
  }

  lemma SimpleIsNotU(letter: char, code: nat)
    requires EscapeStands(letter, code)
    ensures letter != 'u'
  {
  }

  lemma PairDecodes(s: string, cur: nat, end: nat, high: string, m: nat, low: string, n: nat)
    requires HexNumberIs(high, m) && 0xD800 <= m <= 0xDBFF && HexNumberIs(low, n)
    requires Occurs(s, cur, ['\\', 'u'] + high + (['\\', 'u'] + low)) && cur + 12 <= end <= |s|
    ensures DecodeBody(s, cur, end)
            == Prefixed(Utf8(0x10000 + (m - 0xD800) * 1024 + n % 1024), DecodeBody(s, cur + 12, end))
  {
    hide HexNumberIs, HexEscape, Utf8, SimpleEscape;
    LengthFour(high, m);
    LengthFour(low, n);
    var mark := ['\\', 'u'];
    OccursInTwo(s, cur, mark + high, mark + low);
    OccursInTwo(s, cur, mark, high);
    OccursInTwo(s, cur + 6, mark, low);
    assert s[cur + 0] == mark[0] && s[cur + 1] == mark[1] && s[cur + 6 + 0] == mark[0] && s[cur + 6 + 1] == mark[1];
    HexDecodes(s, cur + 2, end, high, m);
    HexDecodes(s, cur + 8, end, low, n);
    assert m % 1024 == m - 0xD800;
    assert CodePoint(s, cur + 2, end) == CodeOk(0x10000 + (m - 0xD800) * 1024 + n % 1024, cur + 12);
  }

  lemma {:induction false} PiecesDecode(s: string, cur: nat, end: nat, ps: seq<Piece>)
    requires ValidPieces(ps) && Occurs(s, cur, PiecesText(ps)) && end == cur + |PiecesText(ps)|
    ensures DecodeBody(s, cur, end) == Text(PiecesMeaning(ps)) && ScanString(s, cur) == ScanString(s, end)
    decreases |ps|
  {
    hide ValidPiece, PieceText, PieceMeaning;
    if ps == [] {
      hide ScanString;
      assert DecodeBody(s, cur, end) == Text("");
    } else {
      hide DecodeBody, ScanString;
      var text := PieceText(ps[0]);
      OccursInTwo(s, cur, text, PiecesText(ps[1..]));
      PieceScans(s, cur, ps[0]);
      PieceDecodes(s, cur, end, ps[0]);
      PiecesDecode(s, cur + |text|, end, ps[1..]);
    }
  }

  // ----- what is decoded is made of pieces -----

  /** The first piece of a body that the scanner ends where the decoder does. */
  lemma FirstPiece(s: string, cur: nat, end: nat) returns (p: Piece)
    requires cur < end < |s| && ScanString(s, cur) == Scan(end + 1, true) && DecodeBody(s, cur, end).Text?
    ensures ValidPiece(p) && Occurs(s, cur, PieceText(p)) && cur + |PieceText(p)| <= end
  {
    hide HexNumberIs, CodePoint, Utf8, SimpleEscape, EscapeStands;
    if s[cur] != '\\' {
      assert s[cur] != '"';
      p := Single(s[cur]);
    } else if s[cur + 1] == 'u' {
      p := FirstCode(s, cur, end);
    } else {
      var c := SimpleEscape(s[cur + 1]).value;
      SimpleEscapeByte(s[cur + 1]);
      SimpleEscapeIs(s[cur + 1], c as int);
      p := Simple(s[cur + 1], c as int);
    }
  }

  lemma SimpleEscapeByte(letter: char)
    ensures SimpleEscape(letter).Some? ==> SimpleEscape(letter).value as int < 256
  {
  }

  lemma HexFound(s: string, cur: nat, end: nat) returns (hex: string, n: nat)
    requires cur <= end <= |s| && HexEscape(s, cur, end).CodeOk?
    ensures cur + 4 <= end && hex == s[cur..cur + 4] && HexNumberIs(hex, n)
    ensures HexEscape(s, cur, end) == CodeOk(n, cur + 4)
  {
    hide HexEscape, HexNumberIs;
    n := HexEscape(s, cur, end).cp;
    HexEscapeMeaning(s, cur, end, n, 0);
    hex := s[cur..cur + 4];
  }

  lemma FirstCode(s: string, cur: nat, end: nat) returns (p: Piece)
    requires cur + 2 <= end < |s| && s[cur] == '\\' && s[cur + 1] == 'u' && CodePoint(s, cur + 2, end).CodeOk?
    ensures ValidPiece(p) && Occurs(s, cur, PieceText(p)) && cur + |PieceText(p)| <= end
  {
    SecondHalf(s, cur, end);
    hide CodePoint, HexEscape, HexNumberIs, Occurs;
    var high, m := HexFound(s, cur + 2, end);
    MarkedHex(s, cur, high);
    if !(0xD800 <= m <= 0xDBFF) {
      p := Code(high, m);
    } else {
      var low, n := HexFound(s, cur + 8, end);
      MarkedHex(s, cur + 6, low);
      p := PairFound(s, cur, high, m, low, n);
    }
  }

  lemma SecondHalf(s: string, cur: nat, end: nat)
    requires cur + 2 <= end < |s| && CodePoint(s, cur + 2, end).CodeOk?
    ensures HexEscape(s, cur + 2, end).CodeOk?
    ensures 0xD800 <= HexEscape(s, cur + 2, end).cp <= 0xDBFF ==>
              cur + 12 <= end && s[cur + 6] == '\\' && s[cur + 7] == 'u' && HexEscape(s, cur + 8, end).CodeOk?
  {
    hide HexEscape;
  }

  lemma PairFound(s: string, cur: nat, high: string, m: nat, low: string, n: nat) returns (p: Piece)
    requires HexNumberIs(high, m) && 0xD800 <= m <= 0xDBFF && HexNumberIs(low, n) && |high| == |low| == 4
    requires Occurs(s, cur, ['\\', 'u'] + high) && Occurs(s, cur + 6, ['\\', 'u'] + low)
    ensures ValidPiece(p) && Occurs(s, cur, PieceText(p)) && |PieceText(p)| == 12
  {
    hide HexNumberIs, Occurs;
    OccursInTwo(s, cur, ['\\', 'u'] + high, ['\\', 'u'] + low);
    p := Pair(high, m, low, n);
  }

  lemma MarkedHex(s: string, cur: nat, hex: string)
    requires cur + 6 <= |s| && s[cur] == '\\' && s[cur + 1] == 'u' && hex == s[cur + 2..cur + 6]
    ensures Occurs(s, cur, ['\\', 'u'] + hex)
  {
    OccursInTwo(s, cur, ['\\', 'u'], hex);
  }

  lemma OccursSlice(s: string, cur: nat, text: string)
    requires Occurs(s, cur, text)
    ensures cur + |text| <= |s| && s[cur..cur + |text|] == text
  {
  }

  lemma SliceInTwo(s: string, a: nat, b: nat, c: nat)
    requires a <= b <= c <= |s|
    ensures s[a..c] == s[a..b] + s[b..c]
  {
  }

  lemma {:induction false} PiecesFound(s: string, cur: nat, end: nat) returns (ps: seq<Piece>)
    requires cur <= end < |s| && ScanString(s, cur) == Scan(end + 1, true) && DecodeBody(s, cur, end).Text?
    ensures ValidPieces(ps) && s[cur..end] == PiecesText(ps) && DecodeBody(s, cur, end) == Text(PiecesMeaning(ps))
    decreases end - cur
  {
    hide *;
    if cur == end {
      ps := [];
      NoPieces(s, cur);
    } else {
      var p := FirstPiece(s, cur, end);
      PieceNotEmpty(p);
      OccursSlice(s, cur, PieceText(p));
      var next := cur + |PieceText(p)|;
      PieceScans(s, cur, p);
      PieceDecodes(s, cur, end, p);
      PrefixedText(PieceMeaning(p), DecodeBody(s, next, end));
      var rest := PiecesFound(s, next, end);
      ps := [p] + rest;
      ConsPieces(p, rest);
      SliceInTwo(s, cur, next, end);
    }
  }

  lemma NoPieces(s: string, cur: nat)
    requires cur <= |s|
    ensures DecodeBody(s, cur, cur) == Text("") && s[cur..cur] == ""
    ensures ValidPieces([]) && PiecesText([]) == "" && PiecesMeaning([]) == ""
  {
  }

  lemma PrefixedText(before: string, d: Decoded)
    ensures Prefixed(before, d).Text? <==> d.Text?
    ensures d.Text? ==> Prefixed(before, d) == Text(before + d.text)
  {
  }

  lemma ConsPieces(p: Piece, rest: seq<Piece>)
    ensures PiecesText([p] + rest) == PieceText(p) + PiecesText(rest)
    ensures PiecesMeaning([p] + rest) == PieceMeaning(p) + PiecesMeaning(rest)
    ensures ValidPiece(p) && ValidPieces(rest) ==> ValidPieces([p] + rest)
  {
    hide ValidPiece, PieceText, PieceMeaning;
    assert ([p] + rest)[1..] == rest;
  }

  lemma PieceNotEmpty(p: Piece)
    ensures |PieceText(p)| > 0
  {
  }

  /** A string token decodes exactly to what its pieces denote, and fails exactly if it has none. */
  lemma LiteralMeaning(s: string, t: Token, x: string)
    requires t.start <= |s| && t == TokenAt(s, t.start) && t.kind == StringToken
    ensures DecodeString(s, t) == Text(x) <==> Denotes(s[t.start..t.end], x)
    ensures DecodeString(s, t).Bad? <==> forall y :: !Denotes(s[t.start..t.end], y)
  {
    hide *;
    StringTokenScans(s, t);
    forall y | Denotes(s[t.start..t.end], y) ensures DecodeString(s, t) == Text(y) {
      DenotedIsDecoded(s, t, y);
    }
    if DecodeString(s, t).Text? {
      DecodedIsDenoted(s, t);
    }
  }

  lemma DecodedIsDenoted(s: string, t: Token)
    requires t.start + 2 <= t.end <= |s| && s[t.start] == '"' && s[t.end - 1] == '"'
    requires ScanString(s, t.start + 1) == Scan(t.end, true) && DecodeString(s, t).Text?
    ensures Denotes(s[t.start..t.end], DecodeString(s, t).text)
  {
    hide ScanString, DecodeBody, ValidPieces, PiecesText, PiecesMeaning;
    var ps := PiecesFound(s, t.start + 1, t.end - 1);
    QuotedSlice(s, t.start, t.end);
  }

  lemma StringTokenScans(s: string, t: Token)
    requires t.start <= |s| && t == TokenAt(s, t.start) && t.kind == StringToken
    ensures t.start + 2 <= t.end <= |s| && s[t.start] == '"' && s[t.end - 1] == '"'
    ensures ScanString(s, t.start + 1) == Scan(t.end, true)
  {
    hide ScanString, ScanComment, ScanNumber, ScanWord;
  }

  lemma QuotedSlice(s: string, a: nat, b: nat)
    requires a + 2 <= b <= |s| && s[a] == '"' && s[b - 1] == '"'
    ensures s[a..b] == "\"" + s[a + 1..b - 1] + "\""
  {
  }

  lemma DenotedIsDecoded(s: string, t: Token, y: string)
    requires t.start + 2 <= t.end <= |s| && Denotes(s[t.start..t.end], y)
    ensures DecodeString(s, t) == Text(y)
  {
    hide DecodeBody, ScanString, ValidPieces, PiecesText, PiecesMeaning;
    var ps :| ValidPieces(ps) && s[t.start..t.end] == "\"" + PiecesText(ps) + "\"" && y == PiecesMeaning(ps);
    var body := PiecesText(ps);
    forall i | 0 <= i < |body| ensures s[t.start + 1 + i] == body[i] {
      assert s[t.start..t.end][1 + i] == body[i];
    }
    PiecesDecode(s, t.start + 1, t.end - 1, ps);
  }

  // ----- what is written -----

  /** The escapes written: short ones where there are any, four upper-case digits for other controls. */
  lemma EscapeTable(c: char)
    ensures EscapeChar(c) ==
            match c as int
            case 34 => ['\\', '"']
            case 92 => ['\\', '\\']
            case 8 => ['\\', 'b']
            case 9 => ['\\', 't']
            case 10 => ['\\', 'n']
            case 12 => ['\\', 'f']
            case 13 => ['\\', 'r']
            case n => if 0 < n < 16 then ['\\', 'u', '0', '0', '0', "0123456789ABCDEF"[n]]
                      else if 16 <= n < 32 then ['\\', 'u', '0', '0', '1', "0123456789ABCDEF"[n - 16]]
                      else [c]
  {
    if 0 < c as int < 32 {
      HexOfSmall(c as int);
    }
  }

  lemma HexOfSmall(n: nat)
    requires 0 < n < 32
    ensures Hex4(n) == ['0', '0', if n < 16 then '0' else '1', "0123456789ABCDEF"[n % 16]]
  {
    assert n / 16 / 16 == 0;
  }
}
