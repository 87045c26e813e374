/**
 The tokens of JSON text, described by where their texts stand in a document and without the
 scanners.  `Reader::readToken` finds a token of a kind exactly where its text stands, and an
 error token exactly where no text of any kind does.
 */
module JsonTokens {
  import opened JsonLexer

  // ----- texts -----

  predicate Among(c: char, list: string) {
    exists i :: 0 <= i < |list| && list[i] == c
  }

  predicate NumberCharacter(c: char) {
    Among(c, "0123456789.eE+-")
  }

  /** One step through a literal: a character of its own, or a backslash and any character. */
  predicate RawUnit(u: string) {
    (|u| == 1 && u[0] != '"' && u[0] != '\\') || (|u| == 2 && u[0] == '\\')
  }

  predicate RawUnits(us: seq<string>) {
    forall i :: 0 <= i < |us| ==> RawUnit(us[i])
  }

  function Concat(us: seq<string>): string {
    if us == [] then "" else us[0] + Concat(us[1..])
  }

  /** Quotes around such steps. */
  ghost predicate IsLiteral(t: string) {
    exists us :: RawUnits(us) && t == "\"" + Concat(us) + "\""
  }

  predicate CloseAt(s: string, i: nat) {
    i + 1 < |s| && s[i] == '*' && s[i + 1] == '/'
  }

  /** From the opening to the first close behind it. */
  predicate BlockComment(s: string, p: nat, e: nat) {
    p + 4 <= e <= |s| && s[p] == '/' && s[p + 1] == '*' && CloseAt(s, e - 2) && forall i: nat :: p + 2 <= i < e - 2 ==> !CloseAt(s, i)
  }

  predicate IsNewline(c: char) {
    c == '\r' || c == '\n'
  }

  /** From the two slashes to the first newline behind them, or to the end of the document. */
  predicate LineComment(s: string, p: nat, e: nat) {
    && p + 2 <= e <= |s| && s[p] == '/' && s[p + 1] == '/'
    && (|| (p + 3 <= e && IsNewline(s[e - 1]) && forall i :: p + 2 <= i < e - 1 ==> !IsNewline(s[i]))
        || (e == |s| && forall i :: p + 2 <= i < e ==> !IsNewline(s[i])))
  }

  /** The longest run of number characters that starts like a number. */
  predicate NumberRun(s: string, p: nat, e: nat) {
    && p < e <= |s| && ('0' <= s[p] <= '9' || s[p] == '-')
    && (forall i :: p <= i < e ==> NumberCharacter(s[i])) && (e < |s| ==> !NumberCharacter(s[e]))
  }

  predicate MarkAt(s: string, p: nat, e: nat, mark: char) {
    p < |s| && s[p] == mark && e == p + 1
  }

  /** A text of this kind stands from `p` to `e`. */
  ghost predicate Stands(s: string, p: nat, e: nat, kind: TokenKind) {
    match kind
    case ObjectBegin => MarkAt(s, p, e, '{')
    case ObjectEnd => MarkAt(s, p, e, '}')
    case ArrayBegin => MarkAt(s, p, e, '[')
    case ArrayEnd => MarkAt(s, p, e, ']')
    case ArraySeparator => MarkAt(s, p, e, ',')
    case MemberSeparator => MarkAt(s, p, e, ':')
    case TrueToken => e == p + 4 && Occurs(s, p, "true")
    case FalseToken => e == p + 5 && Occurs(s, p, "false")
    case NullToken => e == p + 4 && Occurs(s, p, "null")
    case NumberToken => NumberRun(s, p, e)
    case StringToken => p < e <= |s| && IsLiteral(s[p..e])
    case Comment => BlockComment(s, p, e) || LineComment(s, p, e)
    case EndOfStream => (p == |s| && e == p) || MarkAt(s, p, e, '\0')
    case ErrorToken => false
  }

  /** Where an error token ends: an open literal or comment takes the rest, all else one or two characters. */
  function ErrorEnd(s: string, p: nat): nat {
    if p < |s| && s[p] == '"' then |s|
    else if p + 1 < |s| && s[p] == '/' then (if s[p + 1] == '*' then |s| else p + 2)
    else p + 1
  }

  // ----- literals -----

  lemma {:induction false} UnitsScan(s: string, p: nat, us: seq<string>)
    requires RawUnits(us) && Occurs(s, p, Concat(us))
    ensures ScanString(s, p) == ScanString(s, p + |Concat(us)|)
    decreases |us|
  {
    hide RawUnit;
    if us != [] {
      OccursInTwo(s, p, us[0], Concat(us[1..]));
      UnitScans(s, p, us[0]);
      hide ScanString, Occurs;
      UnitsScan(s, p + |us[0]|, us[1..]);
    }
  }

  lemma UnitScans(s: string, p: nat, u: string)
    requires RawUnit(u) && Occurs(s, p, u)
    ensures ScanString(s, p) == ScanString(s, p + |u|)
  {
    assert s[p + 0] == u[0];
  }

  lemma {:induction false} UnitsFound(s: string, p: nat) returns (us: seq<string>)
    requires p <= |s| && ScanString(s, p).ok
    ensures RawUnits(us) && p + |Concat(us)| + 1 == ScanString(s, p).end && s[p..ScanString(s, p).end - 1] == Concat(us)
    decreases |s| - p
  {
    if s[p] == '"' {
      us := [];
    } else {
      var u := if s[p] == '\\' then s[p..p + 2] else s[p..p + 1];
      var next := p + |u|;
      var e := ScanString(s, p).end - 1;
      assert ScanString(s, p) == ScanString(s, next);
      hide ScanString;
      var rest := UnitsFound(s, next);
      us := [u] + rest;
      assert us[1..] == rest;
      assert s[p..e] == s[p..next] + s[next..e];
    }
  }

  lemma LiteralIff(s: string, p: nat, e: nat)
    requires p <= |s|
    ensures TokenAt(s, p) == Token(StringToken, p, e) <==> Stands(s, p, e, StringToken)
  {
    if p < |s| && s[p] == '"' {
      QuoteToken(s, p);
      hide TokenAt, ScanString;
      if ScanString(s, p + 1) == Scan(e, true) {
        LiteralFound(s, p, e);
      }
      if p < e <= |s| && IsLiteral(s[p..e]) {
        LiteralScans(s, p, e);
      }
    } else {
      NoLiteral(s, p, e);
    }
  }

  lemma QuoteToken(s: string, p: nat)
    requires p < |s| && s[p] == '"'
    ensures TokenAt(s, p) == Scanned(StringToken, p, ScanString(s, p + 1))
  {
    hide ScanString;
  }

  lemma NoLiteral(s: string, p: nat, e: nat)
    requires p == |s| || (p < |s| && s[p] != '"')
    ensures TokenAt(s, p) != Token(StringToken, p, e) && !Stands(s, p, e, StringToken)
  {
    hide ScanString, ScanComment, ScanNumber, ScanWord;
    if p < e <= |s| {
      LiteralStartsQuoted(s[p..e]);
      assert s[p..e][0] == s[p];
    }
  }

  lemma LiteralStartsQuoted(t: string)
    ensures IsLiteral(t) ==> t != [] && t[0] == '"'
  {
  }

  lemma {:induction false} LiteralFound(s: string, p: nat, e: nat)
    requires p < |s| && s[p] == '"' && ScanString(s, p + 1) == Scan(e, true)
    ensures p < e <= |s| && IsLiteral(s[p..e])
  {
    hide *;
    var us := UnitsFound(s, p + 1);
    Enclosed(s, p, e, us);
  }

  lemma Enclosed(s: string, p: nat, e: nat, us: seq<string>)
    requires p + 2 <= e <= |s| && s[p] == '"' && s[e - 1] == '"' && RawUnits(us) && s[p + 1..e - 1] == Concat(us)
    ensures IsLiteral(s[p..e])
  {
    hide *;
    InQuotes(s, p, e, Concat(us));
    LiteralOf(us, s[p..e]);
  }

  lemma InQuotes(s: string, a: nat, b: nat, body: string)
    requires a + 2 <= b <= |s| && s[a] == '"' && s[b - 1] == '"' && body == s[a + 1..b - 1]
    ensures s[a..b] == "\"" + body + "\""
  {
  }

  lemma LiteralOf(us: seq<string>, t: string)
    requires RawUnits(us) && t == "\"" + Concat(us) + "\""
    ensures IsLiteral(t)
  {
  }

  lemma {:induction false} LiteralScans(s: string, p: nat, e: nat)
    requires p < e <= |s| && IsLiteral(s[p..e])
    ensures s[p] == '"' && ScanString(s, p + 1) == Scan(e, true)
  {
    hide RawUnits, Concat, ScanString;
    var us :| RawUnits(us) && s[p..e] == "\"" + Concat(us) + "\"";
    BetweenQuotes(s, p, e, Concat(us));
    UnitsScan(s, p + 1, us);
    QuoteEnds(s, e - 1);
  }

  lemma BetweenQuotes(s: string, p: nat, e: nat, body: string)
    requires p < e <= |s| && s[p..e] == "\"" + body + "\""
    ensures e == p + 2 + |body| && s[p] == '"' && s[e - 1] == '"' && Occurs(s, p + 1, body)
  {
    var t := s[p..e];
    assert t[0] == '"' && t[|body| + 1] == '"';
    forall i | 0 <= i < |body| ensures s[p + 1 + i] == body[i] {
      assert t[1 + i] == body[i];
    }
  }

  lemma QuoteEnds(s: string, q: nat)
    requires q < |s| && s[q] == '"'
    ensures ScanString(s, q) == Scan(q + 1, true)
  {
  }

  // ----- comments -----

  lemma {:induction false} BlockScan(s: string, p: nat)
    requires p <= |s|
    ensures var r := ScanBlockComment(s, p);
            && (r.ok ==> p + 2 <= r.end <= |s| && CloseAt(s, r.end - 2) && forall i: nat :: p <= i < r.end - 2 ==> !CloseAt(s, i))
            && (!r.ok ==> r.end == |s| && forall i: nat :: p <= i ==> !CloseAt(s, i))
    decreases |s| - p
  {
    if p < |s| && !CloseAt(s, p) {
      BlockScan(s, p + 1);
    }
  }

  lemma {:induction false} LineScan(s: string, p: nat)
    requires p <= |s|
    ensures var e := ScanLineComment(s, p);
            && p <= e <= |s|
            && (|| (p < e && IsNewline(s[e - 1]) && forall i :: p <= i < e - 1 ==> !IsNewline(s[i]))
                || (e == |s| && forall i :: p <= i < e ==> !IsNewline(s[i])))
    decreases |s| - p
  {
    if p < |s| && !IsNewline(s[p]) {
      LineScan(s, p + 1);
    }
  }

  lemma SlashToken(s: string, p: nat)
    requires p < |s| && s[p] == '/'
    ensures TokenAt(s, p) == Scanned(Comment, p, ScanComment(s, p + 1))
  {
    hide ScanString, ScanComment, ScanNumber, ScanWord;
  }

  lemma CommentIff(s: string, p: nat, e: nat)
    requires p <= |s|
    ensures TokenAt(s, p) == Token(Comment, p, e) <==> Stands(s, p, e, Comment)
  {
    if p < |s| && s[p] == '/' {
      SlashToken(s, p);
      hide TokenAt, ScanBlockComment, ScanLineComment;
      if p + 2 <= |s| {
        BlockScan(s, p + 2);
        LineScan(s, p + 2);
      }
      hide CloseAt, IsNewline;
      if BlockComment(s, p, e) {
        assert CloseAt(s, e - 2);
      }
    } else {
      hide ScanString, ScanComment, ScanNumber, ScanWord;
    }
  }

  // ----- numbers -----

  lemma NumberCharacterIs(c: char)
    ensures IsNumberChar(c) <==> NumberCharacter(c)
  {
    if '0' <= c <= '9' {
      assert "0123456789.eE+-"[c as int - '0' as int] == c;
    }
    assert "0123456789.eE+-"[10] == '.' && "0123456789.eE+-"[11] == 'e' && "0123456789.eE+-"[12] == 'E';
    assert "0123456789.eE+-"[13] == '+' && "0123456789.eE+-"[14] == '-';
  }

  lemma DigitToken(s: string, p: nat)
    requires p < |s| && ('0' <= s[p] <= '9' || s[p] == '-')
    ensures TokenAt(s, p) == Token(NumberToken, p, ScanNumber(s, p + 1))
  {
    hide ScanString, ScanComment, ScanNumber, ScanWord;
  }

  lemma NumberIff(s: string, p: nat, e: nat)
    requires p <= |s|
    ensures TokenAt(s, p) == Token(NumberToken, p, e) <==> Stands(s, p, e, NumberToken)
  {
    if p < |s| && ('0' <= s[p] <= '9' || s[p] == '-') {
      DigitToken(s, p);
      hide TokenAt, ScanNumber;
      forall i | 0 <= i < |s| ensures IsNumberChar(s[i]) <==> NumberCharacter(s[i]) {
        NumberCharacterIs(s[i]);
      }
      assert IsNumberChar(s[p]);
      hide IsNumberChar, NumberCharacter;
      var f := ScanNumber(s, p + 1);
      if p + 1 <= e < f {
        assert IsNumberChar(s[e]);
      }
      if f < |s| {
        assert !NumberCharacter(s[f]);
      }
    } else {
      hide ScanString, ScanComment, ScanNumber, ScanWord, NumberCharacter;
    }
  }

  // ----- words and marks -----

  function FirstOf(kind: TokenKind): string {
    if kind == TrueToken then "t" else if kind == FalseToken then "f" else "n"
  }

  function RestOf(kind: TokenKind): string {
    if kind == TrueToken then "rue" else if kind == FalseToken then "alse" else "ull"
  }

  lemma LetterToken(s: string, p: nat, kind: TokenKind)
    requires p <= |s| && (kind == TrueToken || kind == FalseToken || kind == NullToken)
    ensures p < |s| && s[p] == FirstOf(kind)[0] ==> TokenAt(s, p) == Scanned(kind, p, ScanWord(s, p + 1, RestOf(kind)))
    ensures !(p < |s| && s[p] == FirstOf(kind)[0]) ==> TokenAt(s, p).kind != kind
  {
    hide ScanString, ScanComment, ScanNumber, ScanWord;
  }

  lemma WordIff(s: string, p: nat, e: nat, kind: TokenKind)
    requires p <= |s| && (kind == TrueToken || kind == FalseToken || kind == NullToken)
    ensures TokenAt(s, p) == Token(kind, p, e) <==> Stands(s, p, e, kind)
  {
    var first, rest := FirstOf(kind), RestOf(kind);
    assert first + rest == if kind == TrueToken then "true" else if kind == FalseToken then "false" else "null";
    hide TokenAt, ScanWord, FirstOf, RestOf, Occurs;
    OccursInTwo(s, p, first, rest);
    LetterToken(s, p, kind);
    FirstStands(s, p, first);
    if p < |s| {
      WordScans(s, p + 1, rest);
    }
  }

  lemma FirstStands(s: string, p: nat, first: string)
    requires |first| == 1
    ensures Occurs(s, p, first) <==> p < |s| && s[p] == first[0]
  {
    if Occurs(s, p, first) {
      assert s[p + 0] == first[0];
    }
  }

  lemma WordScans(s: string, p: nat, rest: string)
    requires p <= |s|
    ensures ScanWord(s, p, rest) == if Occurs(s, p, rest) then Scan(p + |rest|, true) else Scan(p, false)
  {
  }

  predicate IsMark(kind: TokenKind) {
    kind == ObjectBegin || kind == ObjectEnd || kind == ArrayBegin || kind == ArrayEnd || kind == ArraySeparator
    || kind == MemberSeparator || kind == EndOfStream
  }

  lemma MarkIff(s: string, p: nat, e: nat, kind: TokenKind)
    requires p <= |s| && IsMark(kind)
    ensures TokenAt(s, p) == Token(kind, p, e) <==> Stands(s, p, e, kind)
  {
    hide ScanString, ScanComment, ScanNumber, ScanWord;
  }

  // ----- all kinds -----

  /** A token of a kind is found exactly where its text stands. */
  lemma TokenIff(s: string, p: nat, kind: TokenKind, e: nat)
    requires p <= |s| && kind != ErrorToken
    ensures TokenAt(s, p) == Token(kind, p, e) <==> Stands(s, p, e, kind)
  {
    hide TokenAt, Stands;
    if IsMark(kind) {
      MarkIff(s, p, e, kind);
    } else if kind == StringToken {
      LiteralIff(s, p, e);
    } else if kind == NumberToken {
      NumberIff(s, p, e);
    } else if kind == Comment {
      CommentIff(s, p, e);
    } else {
      WordIff(s, p, e, kind);
    }
  }

  /** An error token is found exactly where no text of any kind stands. */
  lemma ErrorIff(s: string, p: nat)
    requires p <= |s|
    ensures TokenAt(s, p).kind == ErrorToken <==> forall kind, e: nat :: !Stands(s, p, e, kind)
    ensures TokenAt(s, p).kind == ErrorToken ==> TokenAt(s, p).end == ErrorEnd(s, p)
  {
    hide TokenAt, Stands;
    var t := TokenAt(s, p);
    if t.kind != ErrorToken {
      TokenIff(s, p, t.kind, t.end);
    } else {
      forall kind, e: nat ensures !Stands(s, p, e, kind) {
        if kind == ErrorToken {
          NeverError(s, p, e);
        } else {
          TokenIff(s, p, kind, e);
        }
      }
      ErrorEnds(s, p);
    }
  }

  lemma NeverError(s: string, p: nat, e: nat)
    ensures !Stands(s, p, e, ErrorToken)
  {
  }

  lemma ErrorEnds(s: string, p: nat)
    requires p <= |s| && TokenAt(s, p).kind == ErrorToken
    ensures TokenAt(s, p).end == ErrorEnd(s, p)
  {
    hide ScanString, ScanBlockComment, ScanLineComment, ScanNumber;
  }
}
