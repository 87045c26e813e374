/**
 JSON text as a sequence of tokens.  `Tokens` says which tokens a value is written as,
 `Spells` says that a text consists of given tokens with any white space between them, and
 `Lexes` says that `Reader::readToken` finds given tokens in a document.
 */
module JsonText {
  import opened JsonValue
  import opened JsonLexer
  import opened JsonNumber
  import opened JsonString

  datatype Tok =
    | LBrace | RBrace | LBracket | RBracket | Comma | Colon
    | NullTok | BoolTok(b: bool) | NumTok(i: int) | StrTok(s: string)

  function Spelling(t: Tok): (r: string)
    ensures r != [] && !IsSpace(r[0])
  {
    match t
    case LBrace => "{"
    case RBrace => "}"
    case LBracket => "["
    case RBracket => "]"
    case Comma => ","
    case Colon => ":"
    case NullTok => "null"
    case BoolTok(b) => if b then "true" else "false"
    case NumTok(i) => IntText(i)
    case StrTok(s) => Quoted(s)
  }

  function KindOf(t: Tok): TokenKind {
    match t
    case LBrace => ObjectBegin
    case RBrace => ObjectEnd
    case LBracket => ArrayBegin
    case RBracket => ArrayEnd
    case Comma => ArraySeparator
    case Colon => MemberSeparator
    case NullTok => NullToken
    case BoolTok(b) => if b then TrueToken else FalseToken
    case NumTok(_) => NumberToken
    case StrTok(_) => StringToken
  }

  // ----- the tokens of a value -----

  function Tokens(v: Value): (r: seq<Tok>)
    requires Writable(v)
    ensures r != []
    decreases Height(v), 1, 0
  {
    match v.data
    case Null => [NullTok]
    case Int(i) => [NumTok(i)]
    case UInt(u) => [NumTok(u)]
    case Str(t) => [StrTok(t.value)]
    case Bool(b) => [BoolTok(b)]
    case Arr(es) => [LBracket] + ItemTokens(v, 0) + [RBracket]
    case Obj(es) => [LBrace] + MemberTokens(v, 0) + [RBrace]
  }

  /** The elements from index `i` on; a hole is written like a null value. */
  function ItemTokens(v: Value, i: nat): seq<Tok>
    requires Writable(v) && v.data.Arr? && i <= Size(v.data.entries)
    decreases Height(v), 0, Size(v.data.entries) - i
  {
    if i == Size(v.data.entries) then []
    else
      WritableAt(v, i);
      Separator(i) + Tokens(At(v.data.entries, i)) + ItemTokens(v, i + 1)
  }

  function MemberTokens(v: Value, i: nat): seq<Tok>
    requires Writable(v) && v.data.Obj? && i <= |v.data.entries|
    decreases Height(v), 0, |v.data.entries| - i
  {
    if i == |v.data.entries| then []
    else
      WritableMember(v, i);
      var e := v.data.entries[i];
      Separator(i) + [StrTok(e.key.s), Colon] + Tokens(e.value) + MemberTokens(v, i + 1)
  }

  function Separator(i: nat): seq<Tok> {
    if i == 0 then [] else [Comma]
  }

  // ----- the token sequences of containers, piece by piece -----

  lemma ArrayTokens(v: Value)
    requires Writable(v) && v.data.Arr?
    ensures Tokens(v) == [LBracket] + ItemTokens(v, 0) + [RBracket]
    ensures ItemTokens(v, Size(v.data.entries)) == []
  {
  }

  lemma ItemTokensFrom(v: Value, i: nat)
    requires Writable(v) && v.data.Arr? && i < Size(v.data.entries)
    ensures Writable(At(v.data.entries, i)) && Height(At(v.data.entries, i)) < Height(v)
    ensures ItemTokens(v, i) == Separator(i) + Tokens(At(v.data.entries, i)) + ItemTokens(v, i + 1)
  {
    WritableAt(v, i);
  }

  lemma ObjectTokens(v: Value)
    requires Writable(v) && v.data.Obj?
    ensures Tokens(v) == [LBrace] + MemberTokens(v, 0) + [RBrace]
    ensures MemberTokens(v, |v.data.entries|) == []
  {
  }

  lemma MemberTokensFrom(v: Value, i: nat)
    requires Writable(v) && v.data.Obj? && i < |v.data.entries|
    ensures var e := v.data.entries[i];
            && e.key.Name? && NulFree(e.key.s) && Writable(e.value) && Height(e.value) < Height(v)
            && MemberTokens(v, i) == Separator(i) + [StrTok(e.key.s), Colon] + Tokens(e.value) + MemberTokens(v, i + 1)
  {
    WritableMember(v, i);
  }

  // ----- texts that spell a token sequence -----

  function TrimLeft(d: string): (r: string)
    ensures r != [] ==> !IsSpace(r[0])
    ensures |r| <= |d|
  {
    if d != [] && IsSpace(d[0]) then TrimLeft(d[1..]) else d
  }

  predicate AllSpace(d: string) {
    forall i :: 0 <= i < |d| ==> IsSpace(d[i])
  }

  /** `d` consists of the given words in order, with any white space around them. */
  predicate SpellsWords(d: string, words: seq<string>)
    decreases |words|
  {
    var r := TrimLeft(d);
    if words == [] then r == []
    else words[0] <= r && SpellsWords(r[|words[0]|..], words[1..])
  }

  function Words(toks: seq<Tok>): (r: seq<string>)
    ensures |r| == |toks| && forall i :: 0 <= i < |r| ==> r[i] == Spelling(toks[i]) && r[i] != []
  {
    seq(|toks|, i requires 0 <= i < |toks| => Spelling(toks[i]))
  }

  predicate Spells(d: string, toks: seq<Tok>) {
    SpellsWords(d, Words(toks))
  }

  lemma {:induction false} TrimLeftAppend(a: string, b: string)
    ensures TrimLeft(a + b) == if TrimLeft(a) == [] then TrimLeft(b) else TrimLeft(a) + b
  {
    if a == [] {
      assert a + b == b;
    } else if IsSpace(a[0]) {
      assert (a + b)[1..] == a[1..] + b;
      TrimLeftAppend(a[1..], b);
    }
  }

  lemma {:induction false} WordsAppend(a: string, x: seq<string>, b: string, y: seq<string>)
    requires SpellsWords(a, x) && SpellsWords(b, y)
    requires forall i :: 0 <= i < |x| ==> x[i] != []
    ensures SpellsWords(a + b, x + y)
    decreases |x|
  {
    hide TrimLeft;
    TrimLeftAppend(a, b);
    if x == [] {
      assert x + y == y;
    } else {
      var r, n := TrimLeft(a), |x[0]|;
      assert x[0] <= r && r != [];
      WordsAppend(r[n..], x[1..], b, y);
      assert (r + b)[n..] == r[n..] + b;
      assert (x + y)[0] == x[0] && (x + y)[1..] == x[1..] + y;
    }
  }

  /** Spelling is compositional: appended texts spell appended token sequences. */
  lemma SpellsAppend(a: string, x: seq<Tok>, b: string, y: seq<Tok>)
    requires Spells(a, x) && Spells(b, y)
    ensures Spells(a + b, x + y)
  {
    hide Spelling, SpellsWords;
    assert Words(x + y) == Words(x) + Words(y);
    WordsAppend(a, Words(x), b, Words(y));
  }

  lemma {:induction false} SpaceSpellsNothing(d: string)
    requires AllSpace(d)
    ensures Spells(d, [])
  {
    if d != [] {
      SpaceSpellsNothing(d[1..]);
      assert TrimLeft(d) == TrimLeft(d[1..]);
    }
  }

  lemma TokenSpellsItself(t: Tok)
    ensures Spells(Spelling(t), [t])
  {
    var w := Spelling(t);
    assert Words([t]) == [w];
    assert TrimLeft(w) == w && w[|w|..] == [] && Words([t])[1..] == [];
    assert SpellsWords([], []);
  }

  // ----- token sequences found by the reader -----

  /** Reading tokens from `p` yields exactly `toks`, spelled as they are written. */
  predicate Lexes(s: string, p: nat, toks: seq<Tok>)
    requires p <= |s|
    decreases |toks|
  {
    toks == [] ||
    var t := ReadToken(s, p);
    && t.kind == KindOf(toks[0])
    && s[t.start..t.end] == Spelling(toks[0])
    && Lexes(s, t.end, toks[1..])
  }

  /** The cursor after reading that many tokens. */
  function LexEnd(s: string, p: nat, n: nat): (r: nat)
    requires p <= |s|
    ensures p <= r <= |s|
    decreases n
  {
    if n == 0 then p else LexEnd(s, ReadToken(s, p).end, n - 1)
  }

  lemma {:induction false} LexesInTwo(s: string, p: nat, a: seq<Tok>, b: seq<Tok>)
    requires p <= |s|
    ensures Lexes(s, p, a + b) <==> Lexes(s, p, a) && Lexes(s, LexEnd(s, p, |a|), b)
    ensures LexEnd(s, p, |a + b|) == LexEnd(s, LexEnd(s, p, |a|), |b|)
    decreases |a|
  {
    hide ReadToken, Spelling, KindOf;
    if a == [] {
      assert a + b == b;
    } else {
      assert (a + b)[0] == a[0] && (a + b)[1..] == a[1..] + b;
      LexesInTwo(s, ReadToken(s, p).end, a[1..], b);
    }
  }

  /** The tokens that carry data and would run together if written side by side. */
  predicate IsWord(t: Tok) {
    t.NullTok? || t.BoolTok? || t.NumTok? || t.StrTok?
  }

  predicate Separated(toks: seq<Tok>) {
    forall i :: 0 <= i < |toks| - 1 ==> !(IsWord(toks[i]) && IsWord(toks[i + 1]))
  }

  predicate Proper(toks: seq<Tok>) {
    && Separated(toks)
    && forall i :: 0 <= i < |toks| && toks[i].StrTok? ==> NulFree(toks[i].s)
  }

  lemma ProperAppend(a: seq<Tok>, b: seq<Tok>)
    requires Proper(a) && Proper(b)
    requires a == [] || b == [] || !IsWord(a[|a| - 1]) || !IsWord(b[0])
    ensures Proper(a + b)
  {
  }

  lemma SeparatorProper(i: nat)
    ensures Proper(Separator(i))
  {
  }

  lemma {:induction false} TokensProper(v: Value)
    requires Writable(v)
    ensures Proper(Tokens(v))
    decreases Height(v), 1, 0
  {
    match v.data
    case Arr(es) =>
      ItemTokensProper(v, 0);
      ProperAppend([LBracket], ItemTokens(v, 0));
      ProperAppend([LBracket] + ItemTokens(v, 0), [RBracket]);
    case Obj(es) =>
      MemberTokensProper(v, 0);
      ProperAppend([LBrace], MemberTokens(v, 0));
      ProperAppend([LBrace] + MemberTokens(v, 0), [RBrace]);
    case _ =>
  }

  lemma {:induction false} ItemTokensProper(v: Value, i: nat)
    requires Writable(v) && v.data.Arr? && i <= Size(v.data.entries)
    ensures Proper(ItemTokens(v, i))
    ensures i > 0 && ItemTokens(v, i) != [] ==> ItemTokens(v, i)[0] == Comma
    decreases Height(v), 0, Size(v.data.entries) - i
  {
    hide Writable, Height, At, Size, Tokens;
    if i < Size(v.data.entries) {
      ItemTokensFrom(v, i);
      var item := Tokens(At(v.data.entries, i));
      TokensProper(At(v.data.entries, i));
      ItemTokensProper(v, i + 1);
      SeparatorProper(i);
      ProperAppend(Separator(i), item);
      ProperAppend(Separator(i) + item, ItemTokens(v, i + 1));
    }
  }

  lemma {:induction false} MemberTokensProper(v: Value, i: nat)
    requires Writable(v) && v.data.Obj? && i <= |v.data.entries|
    ensures Proper(MemberTokens(v, i))
    ensures i > 0 && MemberTokens(v, i) != [] ==> MemberTokens(v, i)[0] == Comma
    decreases Height(v), 0, |v.data.entries| - i
  {
    hide Writable, Height, Tokens;
    if i < |v.data.entries| {
      var e := v.data.entries[i];
      MemberTokensFrom(v, i);
      TokensProper(e.value);
      MemberTokensProper(v, i + 1);
      var head := [StrTok(e.key.s), Colon];
      ProperAppend(Separator(i), head);
      ProperAppend(Separator(i) + head, Tokens(e.value));
      ProperAppend(Separator(i) + head + Tokens(e.value), MemberTokens(v, i + 1));
    }
  }

  /** A spelled token is read back, provided no number character follows a number. */
  lemma TokenReadsBack(s: string, p: nat, t: Tok)
    requires Occurs(s, p, Spelling(t))
    requires t.StrTok? ==> NulFree(t.s)
    requires t.NumTok? && p + |Spelling(t)| < |s| ==> !IsNumberChar(s[p + |Spelling(t)|])
    ensures TokenAt(s, p) == Token(KindOf(t), p, p + |Spelling(t)|)
  {
    hide Quoted, IntText, TokenAt, Occurs;
    assert "n" + "ull" == "null" && "t" + "rue" == "true" && "f" + "alse" == "false";
    match t
    case NumTok(i) => NumberReadsBack(s, p, i);
    case StrTok(text) => QuoteRoundTrip(s, p, text);
    case NullTok => WordReadsBack(s, p, "n", "ull");
    case BoolTok(b) =>
      if b {
        WordReadsBack(s, p, "t", "rue");
      } else {
        WordReadsBack(s, p, "f", "alse");
      }
    case _ => MarkReadsBack(s, p, t);
  }

  lemma MarkReadsBack(s: string, p: nat, t: Tok)
    requires !IsWord(t) && Occurs(s, p, Spelling(t))
    ensures TokenAt(s, p) == Token(KindOf(t), p, p + |Spelling(t)|)
  {
    hide ScanString, ScanNumber, ScanComment, ScanWord;
    assert s[p + 0] == Spelling(t)[0];
  }

  lemma WordReadsBack(s: string, p: nat, first: string, rest: string)
    requires Occurs(s, p, first + rest)
    requires (first == "n" && rest == "ull") || (first == "t" && rest == "rue") || (first == "f" && rest == "alse")
    ensures TokenAt(s, p) == Token(if first == "n" then NullToken else if first == "t" then TrueToken else FalseToken,
                                   p, p + |first + rest|)
  {
    OccursInTwo(s, p, first, rest);
    assert s[p + 0] == first[0];
    hide Occurs, ScanString, ScanNumber, ScanComment;
  }

  lemma NumberReadsBack(s: string, p: nat, i: int)
    requires Occurs(s, p, IntText(i)) && (p + |IntText(i)| < |s| ==> !IsNumberChar(s[p + |IntText(i)|]))
    ensures TokenAt(s, p) == Token(NumberToken, p, p + |IntText(i)|)
  {
    hide IntText, ScanString, ScanNumber, ScanComment, ScanWord;
    var w := IntText(i);
    IntTextIsNumber(i);
    assert s[p + 0] == w[0];
    forall j | p + 1 <= j < p + |w| ensures IsNumberChar(s[j]) {
      assert s[p + (j - p)] == w[j - p];
    }
    ScanNumberExact(s, p + 1, p + |w|);
  }

  lemma {:induction false} ScanNumberExact(s: string, p: nat, q: nat)
    requires p <= q <= |s|
    requires forall j :: p <= j < q ==> IsNumberChar(s[j])
    requires q < |s| ==> !IsNumberChar(s[q])
    ensures ScanNumber(s, p) == q
    decreases q - p
  {
    if p < q {
      ScanNumberExact(s, p + 1, q);
    }
  }

  lemma {:induction false} TrimLeftIsSkipSpaces(s: string, p: nat)
    requires p <= |s|
    ensures TrimLeft(s[p..]) == s[SkipSpaces(s, p)..]
    decreases |s| - p
  {
    if p < |s| && IsSpace(s[p]) {
      assert s[p..][1..] == s[p + 1..];
      TrimLeftIsSkipSpaces(s, p + 1);
    }
  }

  /** The first spelled token stands after the spaces, the others after it. */
  lemma SpelledHead(s: string, p: nat, toks: seq<Tok>)
    requires p <= |s| && toks != [] && Spells(s[p..], toks)
    ensures Occurs(s, SkipSpaces(s, p), Spelling(toks[0]))
    ensures Spells(s[SkipSpaces(s, p) + |Spelling(toks[0])|..], toks[1..])
  {
    TrimLeftIsSkipSpaces(s, p);
    var q, w := SkipSpaces(s, p), Words(toks)[0];
    assert w <= s[q..];
    forall i | 0 <= i < |w| ensures s[q + i] == w[i] { assert s[q..][i] == w[i]; }
    assert s[q..][|w|..] == s[q + |w|..];
    assert Words(toks)[1..] == Words(toks[1..]);
  }

  lemma AfterNumber(s: string, r: nat, toks: seq<Tok>)
    requires r < |s| && toks != [] && toks[0].NumTok? && Proper(toks) && Spells(s[r..], toks[1..])
    ensures !IsNumberChar(s[r])
  {
    if !IsSpace(s[r]) {
      if |toks| > 1 {
        SpelledHead(s, r, toks[1..]);
        assert s[r + 0] == Spelling(toks[1])[0];
        assert !(IsWord(toks[0]) && IsWord(toks[0 + 1]));
      }
    }
  }

  /** The first of the spelled tokens is the next one the reader finds. */
  lemma HeadReads(s: string, p: nat, toks: seq<Tok>) returns (r: nat)
    requires p <= |s| && toks != [] && Spells(s[p..], toks) && Proper(toks)
    ensures p < r <= |s| && ReadToken(s, p).end == r && ReadToken(s, p).kind == KindOf(toks[0])
    ensures s[ReadToken(s, p).start..r] == Spelling(toks[0])
    ensures Spells(s[r..], toks[1..])
  {
    hide TokenAt, Spells, Spelling, KindOf;
    SpelledHead(s, p, toks);
    var q, w := SkipSpaces(s, p), Spelling(toks[0]);
    r := q + |w|;
    assert s[q..r] == w;
    if toks[0].NumTok? && r < |s| {
      AfterNumber(s, r, toks);
    }
    TokenReadsBack(s, q, toks[0]);
  }

  lemma SpaceEnds(s: string, p: nat)
    requires p <= |s| && Spells(s[p..], [])
    ensures ReadToken(s, p).kind == EndOfStream
  {
    TrimLeftIsSkipSpaces(s, p);
    assert SkipSpaces(s, p) == |s|;
  }

  /** In any text that spells well-separated tokens the reader finds those tokens, then the end. */
  lemma {:induction false} SpelledTokensLex(s: string, p: nat, toks: seq<Tok>)
    requires p <= |s| && Spells(s[p..], toks) && Proper(toks)
    ensures Lexes(s, p, toks)
    ensures ReadToken(s, LexEnd(s, p, |toks|)).kind == EndOfStream
    decreases |toks|
  {
    hide ReadToken, Spells, Proper, Spelling, KindOf;
    if toks == [] {
      SpaceEnds(s, p);
    } else {
      var r := HeadReads(s, p, toks);
      ProperTail(toks);
      SpelledTokensLex(s, r, toks[1..]);
    }
  }

  lemma ProperTail(toks: seq<Tok>)
    requires toks != [] && Proper(toks)
    ensures Proper(toks[1..])
  {
    var r := toks[1..];
    forall i | 0 <= i < |r| - 1 ensures !(IsWord(r[i]) && IsWord(r[i + 1])) {
      assert r[i] == toks[i + 1] && r[i + 1] == toks[(i + 1) + 1];
    }
  }
}
