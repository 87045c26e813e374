/**
 Errors are real: the token an error names stands in the document and is what the message says,
 and recovery stops behind the first token it was looking for.
 */
module JsonErrors {
  import opened JsonValue
  import opened Optional
  import opened JsonNumber
  import opened JsonLexer
  import opened JsonString
  import opened JsonReader

  predicate StartsValue(kind: TokenKind) {
    kind == ObjectBegin || kind == ArrayBegin || kind == StringToken || kind == NumberToken
    || kind == TrueToken || kind == FalseToken || kind == NullToken
  }

  /** The token of the error stands where it says, and is wrong in the way it says. */
  predicate Real(s: Source, e: Error) {
    var t := e.token;
    && t.start <= |s.text| && t == TokenAt(s.text, t.start)
    && match e.problem
       case ValueExpected => !StartsValue(t.kind) && t.kind != Comment && e.extra.None?
       case NotANumber => t.kind == NumberToken && DecodeNumber(s.text[t.start..t.end], s.scan).None? && e.extra.None?
       case MissingColon => t.kind != MemberSeparator && e.extra.None?
       case MissingMemberName => t.kind != StringToken && t.kind != Comment && e.extra.None?
       case MissingCommaOrBrace => t.kind != ObjectEnd && t.kind != ArraySeparator && t.kind != Comment && e.extra.None?
       case MissingCommaOrBracket => t.kind != ArrayEnd && t.kind != ArraySeparator && t.kind != Comment && e.extra.None?
       case _ => t.kind == StringToken && e.extra.Some? && DecodeString(s.text, t) == Bad(e.problem, e.extra.value)
  }

  predicate FailsReally(s: Source, r: Outcome) {
    r.Fail? ==> Real(s, r.error)
  }

  /** The problems of literals are not those of the grammar. */
  predicate OfLiteral(p: Problem) {
    p == EmptyEscape || p == BadEscape || p == FourDigitsExpected || p == HexDigitExpected || p == SixMoreExpected || p == SecondHalfExpected
  }

  lemma {:induction false} BodyProblem(s: string, cur: nat, end: nat)
    requires cur <= end <= |s|
    ensures DecodeBody(s, cur, end).Bad? ==> OfLiteral(DecodeBody(s, cur, end).problem)
    decreases end - cur
  {
    hide Utf8, SimpleEscape;
    if cur < end && s[cur] != '"' {
      if s[cur] != '\\' {
        BodyProblem(s, cur + 1, end);
      } else if cur + 1 < end {
        if s[cur + 1] == 'u' {
          CodeProblem(s, cur + 2, end);
          hide CodePoint;
          match CodePoint(s, cur + 2, end)
          case CodeOk(_, next) => BodyProblem(s, next, end);
          case _ =>
        } else if SimpleEscape(s[cur + 1]).Some? {
          BodyProblem(s, cur + 2, end);
        }
      }
    }
  }

  lemma HexProblem(s: string, cur: nat, end: nat)
    requires cur <= end <= |s|
    ensures HexEscape(s, cur, end).CodeErr? ==> OfLiteral(HexEscape(s, cur, end).problem)
  {
    hide HexRun;
    if cur + 4 <= end {
      RunProblem(s, cur, 4, 0);
    }
  }

  lemma {:induction false} RunProblem(s: string, cur: nat, n: nat, acc: nat)
    requires cur + n <= |s|
    ensures HexRun(s, cur, n, acc).CodeErr? ==> HexRun(s, cur, n, acc).problem == HexDigitExpected
    decreases n
  {
    hide HexValue;
    if n > 0 && HexValue(s[cur]).Some? {
      RunProblem(s, cur + 1, n - 1, acc * 16 + HexValue(s[cur]).value);
    }
  }

  lemma CodeProblem(s: string, cur: nat, end: nat)
    requires cur <= end <= |s|
    ensures CodePoint(s, cur, end).CodeErr? ==> OfLiteral(CodePoint(s, cur, end).problem)
  {
    hide HexEscape;
    HexProblem(s, cur, end);
    if HexEscape(s, cur, end).CodeOk? && cur + 10 <= end {
      HexProblem(s, cur + 6, end);
    }
  }

  lemma LiteralError(s: Source, t: Token)
    requires t.start <= |s.text| && t == TokenAt(s.text, t.start) && t.kind == StringToken && DecodeString(s.text, t).Bad?
    ensures Real(s, Error(DecodeString(s.text, t).problem, t, Some(DecodeString(s.text, t).at)))
  {
    hide TokenAt, DecodeBody;
    BodyProblem(s.text, t.start + 1, t.end - 1);
  }

  lemma ReadTokenStands(s: string, p: nat)
    requires p <= |s|
    ensures ReadToken(s, p) == TokenAt(s, ReadToken(s, p).start)
  {
    hide TokenAt;
  }

  lemma {:induction false} ValueFails(s: Source, p: nat)
    requires p <= |s.text|
    ensures FailsReally(s, s.ReadValue(p))
    decreases |s.text| - p, 1
  {
    hide NextToken, TokenAt, DecodeNumber, DecodeString, CStr, Source.ReadMembers, Source.ReadArray, Source.InRange;
    var t := NextToken(s.text, p);
    if t.kind == ObjectBegin {
      MembersFail(s, t.end, [], "", t.start);
    } else if t.kind == ArrayBegin {
      ArrayFails(s, t.end, t.start);
    } else if t.kind == StringToken && DecodeString(s.text, t).Bad? {
      LiteralError(s, t);
    }
  }

  lemma {:induction false} MembersFail(s: Source, p: nat, es: seq<Entry>, last: string, start: nat)
    requires p <= |s.text|
    ensures FailsReally(s, s.ReadMembers(p, es, last, start))
    decreases |s.text| - p, 2
  {
    hide NextToken, ReadToken, TokenAt, DecodeString, Put, CStr, Recover, Source.ReadValue, Source.AfterMember;
    var t := NextToken(s.text, p);
    if t.kind == StringToken {
      if DecodeString(s.text, t).Bad? {
        LiteralError(s, t);
      } else {
        var colon := ReadToken(s.text, t.end);
        ReadTokenStands(s.text, t.end);
        if colon.kind == MemberSeparator {
          ValueFails(s, colon.end);
          hide Real;
          match s.ReadValue(colon.end)
          case Ok(v, q) => AfterFails(s, q, Put(es, Name(CStr(DecodeString(s.text, t).text)), v), DecodeString(s.text, t).text, start);
          case _ =>
        }
      }
    }
  }

  lemma {:induction false} AfterFails(s: Source, p: nat, es: seq<Entry>, last: string, start: nat)
    requires p <= |s.text|
    ensures FailsReally(s, s.AfterMember(p, es, last, start))
    decreases |s.text| - p, 2
  {
    hide NextToken, ReadToken, TokenAt, Recover, Source.ReadMembers, Source.InRange;
    ReadTokenStands(s.text, p);
    var t := NextToken(s.text, p);
    var comma := ReadToken(s.text, p);
    if comma.kind == ObjectEnd || comma.kind == ArraySeparator || comma.kind == Comment {
      Progress(s.text, p);
      if t.kind != ObjectEnd {
        MembersFail(s, t.end, es, last, start);
      }
    }
  }

  lemma Progress(s: string, p: nat)
    requires p <= |s|
    ensures ReadToken(s, p).kind != EndOfStream ==> p < NextToken(s, p).end
  {
    hide TokenAt;
  }

  lemma {:induction false} ArrayFails(s: Source, p: nat, start: nat)
    requires p <= |s.text|
    ensures FailsReally(s, s.ReadArray(p, start))
    decreases |s.text| - p, 3
  {
    hide ReadToken, TokenAt, SkipSpaces, Source.ReadItems, Source.InRange, Real;
    ItemsFail(s, SkipSpaces(s.text, p), [], 0, start);
  }

  lemma {:induction false} ItemsFail(s: Source, p: nat, es: seq<Entry>, index: nat, start: nat)
    requires p <= |s.text|
    ensures FailsReally(s, s.ReadItems(p, es, index, start))
    decreases |s.text| - p, 2
  {
    hide NextToken, TokenAt, Put, Recover, Source.ReadValue;
    ValueFails(s, p);
    if s.ReadValue(p).Ok? {
      var Ok(v, q) := s.ReadValue(p);
      var t := NextToken(s.text, q);
      if t.kind == ArraySeparator {
        ItemsFail(s, t.end, Put(es, Index(index), v), index + 1, start);
      }
    }
  }

  // ----- recovery -----

  /** The tokens read from `p` on, one after the other. */
  function TokenNumber(s: string, p: nat, n: nat): (t: Token)
    requires p <= |s|
    ensures p <= t.end <= |s|
    decreases n
  {
    if n == 0 then ReadToken(s, p) else TokenNumber(s, ReadToken(s, p).end, n - 1)
  }

  predicate Wanted(t: Token, until: TokenKind) {
    t.kind == until || t.kind == EndOfStream
  }

  /** Recovery ends behind the first token that is of the kind looked for or the end. */
  lemma {:induction false} RecoveryStops(s: string, p: nat, until: TokenKind) returns (n: nat)
    requires p <= |s|
    ensures Recover(s, p, until) == TokenNumber(s, p, n).end && Wanted(TokenNumber(s, p, n), until)
    ensures forall k: nat :: k < n ==> !Wanted(TokenNumber(s, p, k), until)
    decreases |s| - p
  {
    hide ReadToken;
    var t := ReadToken(s, p);
    if Wanted(t, until) {
      n := 0;
    } else {
      var m := RecoveryStops(s, t.end, until);
      n := m + 1;
      forall k: nat | k < n ensures !Wanted(TokenNumber(s, p, k), until) {
        if k > 0 {
          assert TokenNumber(s, p, k) == TokenNumber(s, t.end, k - 1);
        }
      }
    }
  }
}
