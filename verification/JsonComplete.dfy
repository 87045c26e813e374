/**
 Every tree of the grammar is read: wherever its text stands in a document, `ReadValue` takes
 exactly that text and yields what the tree denotes.
 */
module JsonComplete {
  import opened JsonValue
  import opened Optional
  import opened JsonNumber
  import opened JsonLexer
  import opened JsonString
  import opened JsonLiteral
  import opened JsonTokens
  import opened JsonGrammar
  import opened JsonGaps
  import opened JsonReader
  import opened JsonSpans

  // ----- words -----

  lemma LiteralToken(s: string, q: nat, text: string, x: string)
    requires Denotes(text, x) && Occurs(s, q, text)
    ensures q + 2 <= q + |text| <= |s| && !IsSpace(s[q])
    ensures TokenAt(s, q) == Token(StringToken, q, q + |text|) && DecodeString(s, TokenAt(s, q)) == Text(x)
  {
    hide TokenAt, ScanString, DecodeBody, ValidPieces, PiecesText, PiecesMeaning;
    var ps :| ValidPieces(ps) && text == "\"" + PiecesText(ps) + "\"" && x == PiecesMeaning(ps);
    var body := PiecesText(ps);
    var e := q + |text|;
    assert text == "\"" + (body + "\"");
    OccursInTwo(s, q, "\"", body + "\"");
    OccursInTwo(s, q + 1, body, "\"");
    FirstAt(s, q, "\"");
    FirstAt(s, e - 1, "\"");
    PiecesDecode(s, q + 1, e - 1, ps);
    QuoteEnds(s, e - 1);
    QuoteToken(s, q);
  }

  lemma NumberOccurs(s: string, q: nat, text: string)
    requires IsNumber(text) && Occurs(s, q, text) && (q + |text| < |s| ==> !NumberCharacter(s[q + |text|]))
    ensures TokenAt(s, q) == Token(NumberToken, q, q + |text|) && q < |s| && !IsSpace(s[q]) && s[q..q + |text|] == text
  {
    var e := q + |text|;
    forall i | q <= i < e ensures NumberCharacter(s[i]) && s[i] == text[i - q] {
      assert s[q + (i - q)] == text[i - q];
    }
    assert NumberRun(s, q, e);
    hide NumberCharacter, TokenAt;
    NumberIff(s, q, e);
  }

  lemma NumberDecodes(t: string, scan: string -> Option<real>, d: Data)
    requires IsNumber(t) && NumberDenotes(t, scan, d)
    ensures IsNumberText(t) && DecodeNumber(t, scan) == Some(d)
  {
    forall i | 0 <= i < |t| ensures IsNumberChar(t[i]) {
      NumberCharacterIs(t[i]);
    }
    hide DecodeNumber, IsInteger, IntegerOf;
    NumberMeaning(t, scan);
  }

  /** The token of a word and what `ReadValue` makes of it. */
  lemma WordComplete(s: Source, p: nat, d: Syntax)
    requires d.Word? && StandsAs(s.text, p, p + |Written(d)|, d, s.scan)
    ensures var r := s.ReadValue(p); r.Ok? && r.pos == p + |Written(d)| && Plain(r.value) == Meaning(d)
  {
    hide IsGap, Concat, WordDenotes, Source.ReadValue, Plain, TokenReadsAs, Occurs;
    WordToken(s, p, d);
    var q := p + |Concat(d.gap)|;
    WordBehindGap(s, p, d.gap, q, q + |d.text|, d.data);
  }

  lemma WordToken(s: Source, p: nat, d: Syntax)
    requires d.Word? && StandsAs(s.text, p, p + |Written(d)|, d, s.scan)
    ensures var q := p + |Concat(d.gap)|;
            Occurs(s.text, p, Concat(d.gap)) && Occurs(s.text, q, d.text) && TokenReadsAs(s, q, q + |d.text|, d.data)
  {
    hide TokenAt, NextToken, Denotes, DecodeString, DecodeNumber, NumberDenotes, IsGap, Concat, IsNumber, NumberCharacter, CStr,
         Source.ReadValue, Plain, TokenReadsAs, Occurs;
    var q, t := p + |Concat(d.gap)|, d.text;
    OccursInTwo(s.text, p, Concat(d.gap), t);
    if t == "null" && d.data == Null {
      ConstantReads(s, q, t, NullToken, d.data);
    } else if t == "true" && d.data == Bool(true) {
      ConstantReads(s, q, t, TrueToken, d.data);
    } else if t == "false" && d.data == Bool(false) {
      ConstantReads(s, q, t, FalseToken, d.data);
    } else if IsNumber(t) && NumberDenotes(t, s.scan, d.data) {
      NumberReads(s, q, t, d.data);
    } else {
      var x :| Denotes(t, x) && d.data.text.value == CStr(x);
      LiteralReads(s, q, t, x);
    }
  }

  /** A token of one word stands from `q` to `e`, and `d` is what it denotes. */
  ghost predicate TokenReadsAs(s: Source, q: nat, e: nat, d: Data) {
    && q < e <= |s.text| && !IsSpace(s.text[q])
    && var t := TokenAt(s.text, q);
       && t.start == q && t.end == e
       && match t.kind
          case NullToken => d == Null
          case TrueToken => d == Bool(true)
          case FalseToken => d == Bool(false)
          case NumberToken => !d.Arr? && !d.Obj? && DecodeNumber(s.text[q..e], s.scan) == Some(d)
          case StringToken => d.Str? && DecodeString(s.text, t).Text? && d.text == Some(CStr(DecodeString(s.text, t).text))
          case _ => false
  }

  lemma WordBehindGap(s: Source, p: nat, gap: seq<string>, q: nat, e: nat, d: Data)
    requires IsGap(gap) && Occurs(s.text, p, Concat(gap)) && q == p + |Concat(gap)| && TokenReadsAs(s, q, e, d)
    ensures var r := s.ReadValue(p); r.Ok? && r.pos == e && Plain(r.value) == Value(d, 0, 0)
  {
    hide TokenAt, NextToken, DecodeString, DecodeNumber, IsGap, Concat, CStr;
    TokenBehindGap(s.text, p, gap, q);
  }

  lemma ConstantReads(s: Source, q: nat, word: string, kind: TokenKind, d: Data)
    requires (word == "null" && kind == NullToken) || (word == "true" && kind == TrueToken) || (word == "false" && kind == FalseToken)
    requires d == (match kind case NullToken => Null case k => Bool(k.TrueToken?)) && Occurs(s.text, q, word)
    ensures TokenReadsAs(s, q, q + |word|, d)
  {
    hide TokenAt, Occurs, DecodeNumber, DecodeString;
    ConstantToken(s.text, q, word, kind);
  }

  lemma NumberReads(s: Source, q: nat, t: string, d: Data)
    requires IsNumber(t) && NumberDenotes(t, s.scan, d) && Occurs(s.text, q, t)
    requires q + |t| < |s.text| ==> !NumberCharacter(s.text[q + |t|])
    ensures TokenReadsAs(s, q, q + |t|, d)
  {
    hide TokenAt, DecodeNumber, NumberDenotes, IsNumber, NumberCharacter, DecodeString;
    NumberOccurs(s.text, q, t);
    NumberDecodes(t, s.scan, d);
    NumberIsScalar(t, s.scan, d);
  }

  lemma LiteralReads(s: Source, q: nat, t: string, x: string)
    requires Denotes(t, x) && Occurs(s.text, q, t)
    ensures TokenReadsAs(s, q, q + |t|, Str(Some(CStr(x))))
  {
    hide TokenAt, DecodeNumber, Denotes, DecodeString, Occurs, CStr;
    LiteralToken(s.text, q, t, x);
  }

  lemma NumberIsScalar(t: string, scan: string -> Option<real>, d: Data)
    requires NumberDenotes(t, scan, d)
    ensures d.Int? || d.UInt? || d.Real?
  {
  }

  lemma ConstantToken(s: string, q: nat, word: string, kind: TokenKind)
    requires (word == "null" && kind == NullToken) || (word == "true" && kind == TrueToken) || (word == "false" && kind == FalseToken)
    requires Occurs(s, q, word)
    ensures TokenAt(s, q) == Token(kind, q, q + |word|) && q < |s| && !IsSpace(s[q])
  {
    hide TokenAt;
    FirstAt(s, q, word);
    WordIff(s, q, q + |word|, kind);
  }

  lemma MarkToken(s: string, q: nat, mark: string, kind: TokenKind)
    requires Occurs(s, q, mark)
    requires || (mark == "[" && kind == ArrayBegin) || (mark == "]" && kind == ArrayEnd) || (mark == "{" && kind == ObjectBegin)
             || (mark == "}" && kind == ObjectEnd) || (mark == "," && kind == ArraySeparator) || (mark == ":" && kind == MemberSeparator)
    ensures TokenAt(s, q) == Token(kind, q, q + 1) && q < |s| && s[q] == mark[0] && !IsSpace(s[q])
  {
    hide TokenAt;
    FirstAt(s, q, mark);
    MarkIff(s, q, q + 1, kind);
  }

  // ----- what follows a value -----

  lemma GapStart(gap: seq<string>, x: string)
    requires IsGap(gap) && x != [] && !NumberCharacter(x[0])
    ensures Concat(gap) + x != [] && !NumberCharacter((Concat(gap) + x)[0])
    ensures (Concat(gap) + x)[0] == x[0] || Blank((Concat(gap) + x)[0]) || (Concat(gap) + x)[0] == '/'
  {
    hide NumberCharacter, Blank;
    if gap != [] {
      var u := gap[0];
      assert GapUnit(u);
      UnitStart(u);
      assert (Concat(gap) + x)[0] == u[0];
    } else {
      assert Concat(gap) + x == x;
    }
  }

  lemma UnitStart(u: string)
    requires GapUnit(u)
    ensures u != [] && (Blank(u[0]) || u[0] == '/') && !NumberCharacter(u[0])
  {
    BlankIs(u[0]);
    NumberCharacterIs(u[0]);
    hide Blank, NumberCharacter;
  }

  lemma NoNumberFollows(s: string, e: nat, t: string, d: Syntax)
    requires Occurs(s, e, t) && t != [] && !NumberCharacter(t[0])
    ensures EndsAt(s, e, d)
  {
    hide NumberCharacter, IsNumber;
    FirstAt(s, e, t);
  }

  // ----- storing -----

  lemma {:induction false} PlainPut(es: seq<Entry>, key: Key, v: Value)
    ensures PlainEntries(Put(es, key, v)) == Put(PlainEntries(es), key, Plain(v))
  {
    hide Plain;
    if es != [] {
      var e, rest := es[0], es[1..];
      assert PlainEntries(es)[1..] == PlainEntries(rest);
      if e.key == key {
        assert ([Entry(key, v)] + rest)[1..] == rest;
      } else if KeyLess(key, e.key) {
        assert ([Entry(key, v)] + es)[1..] == es;
      } else {
        PlainPut(rest, key, v);
        assert ([e] + Put(rest, key, v))[1..] == Put(rest, key, v);
      }
    } else {
      assert [Entry(key, v)][1..] == [];
    }
  }

  // ----- separators -----

  /** A character that can stand behind a separator: a gap, a name or the end of the object. */
  predicate Follows(c: char) {
    Blank(c) || c == '/' || c == '"' || c == '}'
  }

  lemma FollowsIsNoNumber(c: char)
    requires Follows(c)
    ensures !NumberCharacter(c) && c != 'r' && c != 'a' && c != 'u'
  {
    BlankIs(c);
    NumberCharacterIs(c);
    hide Blank, NumberCharacter;
  }

  lemma StrayToken(s: string, q: nat, x: string)
    requires IsStray(x) && Occurs(s, q, x) && q + |x| < |s| && Follows(s[q + |x|])
    ensures TokenAt(s, q) == Token(ErrorToken, q, q + |x|) && !IsSpace(s[q])
  {
    FollowsIsNoNumber(s[q + |x|]);
    FirstAt(s, q, x);
    if |x| == 1 {
      StrayCharacter(x[0]);
      hide ScanString, ScanComment, ScanNumber, Among, Follows, NumberCharacter;
      if Occurs(s, q + 1, "rue") { FirstAt(s, q + 1, "rue"); }
      if Occurs(s, q + 1, "alse") { FirstAt(s, q + 1, "alse"); }
      if Occurs(s, q + 1, "ull") { FirstAt(s, q + 1, "ull"); }
    } else {
      assert s[q + 1] == x[1];
      hide ScanString, ScanBlockComment, ScanLineComment, ScanNumber, ScanWord, Follows, NumberCharacter;
    }
  }

  lemma StrayCharacter(c: char)
    ensures (c == '{' || c == '}' || c == '[' || c == ']' || c == ',' || c == ':' || c == '"' || c == '/' || c == '-'
             || '0' <= c <= '9' || IsSpace(c) || c == '\0') ==> Among(c, "{}[],:\"/-0123456789 \t\r\n\0")
  {
    var list := "{}[],:\"/-0123456789 \t\r\n\0";
    assert list[0] == '{' && list[1] == '}' && list[2] == '[' && list[3] == ']' && list[4] == ',' && list[5] == ':';
    assert list[6] == '"' && list[7] == '/' && list[8] == '-';
    if '0' <= c <= '9' { assert list[9 + (c as int - '0' as int)] == c; }
    assert list[19] == ' ' && list[20] == '\t' && list[21] == '\r' && list[22] == '\n' && list[23] == '\0';
  }

  lemma LiteralOccurs(s: string, q: nat, x: string)
    requires IsLiteral(x) && Occurs(s, q, x)
    ensures TokenAt(s, q) == Token(StringToken, q, q + |x|) && q < |s| && !IsSpace(s[q])
  {
    hide TokenAt, IsLiteral;
    LiteralStartsQuoted(x);
    FirstAt(s, q, x);
    assert s[q..q + |x|] == x;
    LiteralIff(s, q, q + |x|);
  }

  /** A separator is one token, and neither a comment nor the closing brace. */
  lemma SeparatorToken(s: string, q: nat, x: string)
    requires IsSeparator(x) && Occurs(s, q, x) && q + |x| < |s| && Follows(s[q + |x|])
    ensures !IsSpace(s[q]) && TokenAt(s, q).end == q + |x| && TokenAt(s, q).kind != Comment && TokenAt(s, q).kind != ObjectEnd
  {
    hide TokenAt, IsNumber, IsLiteral, IsStray, Follows, NumberCharacter;
    if x == "," { MarkToken(s, q, x, ArraySeparator); }
    else if x == ":" { MarkToken(s, q, x, MemberSeparator); }
    else if x == "[" { MarkToken(s, q, x, ArrayBegin); }
    else if x == "]" { MarkToken(s, q, x, ArrayEnd); }
    else if x == "{" { MarkToken(s, q, x, ObjectBegin); }
    else if x == "true" { ConstantToken(s, q, x, TrueToken); }
    else if x == "false" { ConstantToken(s, q, x, FalseToken); }
    else if x == "null" { ConstantToken(s, q, x, NullToken); }
    else if x == "\0" { FirstAt(s, q, x); MarkIff(s, q, q + 1, EndOfStream); }
    else if IsNumber(x) { FollowsIsNoNumber(s[q + |x|]); NumberOccurs(s, q, x); }
    else if IsLiteral(x) { LiteralOccurs(s, q, x); }
    else { StrayToken(s, q, x); }
  }

  lemma MembersStart(m: Members, scan: string -> Option<real>, last: string)
    requires ValidMembers(m, scan, last)
    ensures MembersWritten(m) != [] && Follows(MembersWritten(m)[0])
  {
    hide Denotes, Valid, ValidAfter, Blank, NumberCharacter, IsGap, Concat, Written, AfterWritten;
    var rest := if m.NoMember? then "}" else m.literal + (m.blanks + (":" + (Written(m.value) + AfterWritten(m.after))));
    assert MembersWritten(m) == Concat(m.gap) + rest;
    if m.Member? {
      DenotesStartsQuoted(m.literal, m.name);
      assert rest[0] == '"';
    }
    QuoteAndBrace();
    GapStart(m.gap, rest);
  }

  lemma DenotesStartsQuoted(literal: string, x: string)
    requires Denotes(literal, x)
    ensures literal != [] && literal[0] == '"'
  {
  }

  lemma QuoteAndBrace()
    ensures !NumberCharacter('"') && !NumberCharacter('}') && !NumberCharacter(']') && !NumberCharacter(',')
  {
    NumberCharacterIs('"');
    NumberCharacterIs('}');
    NumberCharacterIs(']');
    NumberCharacterIs(',');
  }

  // ----- arrays and objects -----

  /** The reader starts where the gap ends. */
  lemma SameRead(s: Source, p: nat, q: nat)
    requires p <= |s.text| && q <= |s.text| && NextToken(s.text, p) == NextToken(s.text, q)
    ensures s.ReadValue(p) == s.ReadValue(q)
  {
    hide NextToken;
  }

  ghost predicate ReadsAs(r: Outcome, q: nat, v: Value) {
    r.Ok? && r.pos == q && Plain(r.value) == v
  }

  lemma {:induction false} ValueComplete(s: Source, p: nat, d: Syntax)
    requires StandsAs(s.text, p, p + |Written(d)|, d, s.scan)
    ensures ReadsAs(s.ReadValue(p), p + |Written(d)|, Meaning(d))
    decreases d, 1
  {
    hide Occurs, IsGap, AllBlank, Source.ReadValue, ValidItems, ValidMembers, WordDenotes, Plain;
    match d
    case Word(_, _, _) => WordComplete(s, p, d);
    case Empty(gap, blanks) => EmptyComplete(s, p, gap, blanks);
    case Array(gap, items) => ArrayComplete(s, p, gap, items);
    case Object(gap, members) => ObjectComplete(s, p, gap, members);
  }

  lemma {:induction false} ArrayComplete(s: Source, p: nat, gap: seq<string>, items: Items)
    requires IsGap(gap) && ValidItems(items, s.scan) && Occurs(s.text, p, Concat(gap) + ("[" + ItemsWritten(items)))
    ensures p <= |s.text|
    ensures ReadsAs(s.ReadValue(p), p + |Concat(gap) + ("[" + ItemsWritten(items))|, Value(Arr(ItemsMeaning(items, [], 0)), 0, 0))
    decreases items, 2
  {
    hide NextToken, ReadToken, TokenAt, ValidItems, ItemsWritten, ItemsMeaning, IsGap, Concat, Plain,
         Source.ReadItems, Source.ReadArray, Source.ReadValue, Occurs;
    var q := p + |Concat(gap)|;
    OccursInTwo(s.text, p, Concat(gap), "[" + ItemsWritten(items));
    OccursInTwo(s.text, q, "[", ItemsWritten(items));
    OccursLength(s.text, q + 1, ItemsWritten(items));
    MarkToken(s.text, q, "[", ArrayBegin);
    TokenBehindGap(s.text, p, gap, q);
    ContainerUnfold(s, p);
    ItemsOpen(s, q + 1, items, q);
    ItemsComplete(s, q + 1, items, [], 0, q);
    NoPlain();
  }

  lemma {:induction false} ObjectComplete(s: Source, p: nat, gap: seq<string>, members: Members)
    requires IsGap(gap) && ValidMembers(members, s.scan, "") && Occurs(s.text, p, Concat(gap) + ("{" + MembersWritten(members)))
    ensures p <= |s.text|
    ensures ReadsAs(s.ReadValue(p), p + |Concat(gap) + ("{" + MembersWritten(members))|, Value(Obj(MembersMeaning(members, [])), 0, 0))
    decreases members, 1
  {
    hide NextToken, ReadToken, TokenAt, ValidMembers, MembersWritten, MembersMeaning, IsGap, Concat, Plain,
         Source.ReadMembers, Source.ReadValue, Occurs;
    var q := p + |Concat(gap)|;
    OccursInTwo(s.text, p, Concat(gap), "{" + MembersWritten(members));
    OccursInTwo(s.text, q, "{", MembersWritten(members));
    OccursLength(s.text, q + 1, MembersWritten(members));
    MarkToken(s.text, q, "{", ObjectBegin);
    TokenBehindGap(s.text, p, gap, q);
    ContainerUnfold(s, p);
    MembersComplete(s, q + 1, members, [], "", q);
    NoPlain();
  }

  lemma NoPlain()
    ensures PlainEntries([]) == []
  {
  }

  lemma EmptyComplete(s: Source, p: nat, gap: seq<string>, blanks: string)
    requires IsGap(gap) && AllBlank(blanks) && Occurs(s.text, p, Concat(gap) + ("[" + (blanks + "]")))
    ensures ReadsAs(s.ReadValue(p), p + |Concat(gap) + ("[" + (blanks + "]"))|, Value(Arr([]), 0, 0))
  {
    hide NextToken, ReadToken, TokenAt, IsGap, Concat, AllBlank, Source.ReadItems, Source.ReadValue, Occurs;
    var q := p + |Concat(gap)|;
    OccursInTwo(s.text, p, Concat(gap), "[" + (blanks + "]"));
    OccursInTwo(s.text, q, "[", blanks + "]");
    OccursInTwo(s.text, q + 1, blanks, "]");
    OccursLength(s.text, q + 1, blanks);
    MarkToken(s.text, q, "[", ArrayBegin);
    TokenBehindGap(s.text, p, gap, q);
    ContainerUnfold(s, p);
    var e := q + 1 + |blanks|;
    MarkToken(s.text, e, "]", ArrayEnd);
    BlanksSkipped(s.text, q + 1, blanks);
    assert SkipSpaces(s.text, e) == e;
    ReadTokenAtMark(s.text, e);
    NoPlain();
  }

  lemma ReadTokenAtMark(s: string, e: nat)
    requires e < |s| && !IsSpace(s[e])
    ensures ReadToken(s, e) == TokenAt(s, e)
  {
    hide TokenAt;
    assert SkipSpaces(s, e) == e;
  }

  /** The first value of an array does not look like its end. */
  lemma ItemsOpen(s: Source, p: nat, i: Items, start: nat)
    requires ValidItems(i, s.scan) && p <= |s.text| && Occurs(s.text, p, ItemsWritten(i))
    ensures s.ReadArray(p, start) == s.ReadItems(p, [], 0, start)
  {
    hide NextToken, ReadToken, TokenAt, Valid, IsGap, Written, Concat;
    var q := SkipSpaces(s.text, p);
    OccursInTwo(s.text, p, Written(i.value), Concat(i.gap) + if i.LastItem? then "]" else "," + ItemsWritten(i.rest));
    ValueIsNoBracket(s.text, p, i.value, s.scan);
    SpacesDoNotMatter(s.text, p);
    SameRead(s, p, q);
    SameItems(s, p, q, start);
  }

  lemma SpacesDoNotMatter(s: string, p: nat)
    requires p <= |s|
    ensures NextToken(s, SkipSpaces(s, p)) == NextToken(s, p)
  {
    hide TokenAt;
    var q := SkipSpaces(s, p);
    assert SkipSpaces(s, q) == q;
  }

  lemma SameItems(s: Source, p: nat, q: nat, start: nat)
    requires p <= |s.text| && q <= |s.text| && s.ReadValue(p) == s.ReadValue(q)
    ensures s.ReadItems(p, [], 0, start) == s.ReadItems(q, [], 0, start)
  {
    hide Source.ReadValue, NextToken, Recover, Put;
  }

  /** Behind its blanks a value starts with a comment or a token that is no closing bracket. */
  lemma ValueIsNoBracket(s: string, p: nat, d: Syntax, scan: string -> Option<real>)
    requires Valid(d, scan) && Occurs(s, p, Written(d)) && p <= |s|
    ensures CharAt(s, SkipSpaces(s, p)) != ']'
  {
    hide ValidItems, ValidMembers, ItemsWritten, MembersWritten, WordDenotes, AllBlank, SkipSpaces;
    var rest := match d
      case Word(_, text, _) => text
      case Empty(_, blanks) => "[" + (blanks + "]")
      case Array(_, items) => "[" + ItemsWritten(items)
      case Object(_, members) => "{" + MembersWritten(members);
    assert Written(d) == Concat(d.gap) + rest;
    if d.Word? {
      WordStart(d.text, scan, d.data);
    }
    hide Written, Valid;
    GapIsNoBracket(s, p, d.gap, rest);
  }

  lemma WordStart(t: string, scan: string -> Option<real>, d: Data)
    requires WordDenotes(t, scan, d)
    ensures t != [] && t[0] != ']' && !IsSpace(t[0])
  {
    hide Denotes, NumberDenotes;
    if d.Str? && d.text.Some? && exists x :: Denotes(t, x) && d.text.value == CStr(x) {
      var x :| Denotes(t, x) && d.text.value == CStr(x);
      DenotesStartsQuoted(t, x);
    }
  }

  lemma {:induction false} GapIsNoBracket(s: string, p: nat, gap: seq<string>, rest: string)
    requires IsGap(gap) && Occurs(s, p, Concat(gap) + rest) && p <= |s| && rest != [] && rest[0] != ']' && !IsSpace(rest[0])
    ensures CharAt(s, SkipSpaces(s, p)) != ']'
    decreases |gap|
  {
    hide GapUnit, Occurs;
    if gap == [] {
      assert Concat(gap) + rest == rest;
      FirstAt(s, p, rest);
    } else {
      var u := gap[0];
      assert Concat(gap) + rest == u + (Concat(gap[1..]) + rest);
      OccursInTwo(s, p, u, Concat(gap[1..]) + rest);
      UnitStart(u);
      FirstAt(s, p, u);
      BlankIs(u[0]);
      if Blank(u[0]) {
        BlankUnit(u);
        OccursLength(s, p + 1, Concat(gap[1..]) + rest);
        GapIsNoBracket(s, p + 1, gap[1..], rest);
      }
    }
  }

  lemma BlankUnit(u: string)
    requires GapUnit(u) && u != [] && Blank(u[0])
    ensures |u| == 1
  {
    BlankIs(u[0]);
  }

  lemma {:induction false} ItemsComplete(s: Source, p: nat, i: Items, es: seq<Entry>, index: nat, start: nat)
    requires ValidItems(i, s.scan) && p <= |s.text| && Occurs(s.text, p, ItemsWritten(i))
    ensures ReadsAs(s.ReadItems(p, es, index, start), p + |ItemsWritten(i)|, Value(Arr(ItemsMeaning(i, PlainEntries(es), index)), 0, 0))
    decreases i, 1
  {
    hide NextToken, TokenAt, Valid, IsGap, Written, Concat, Meaning, Put, Plain, PlainEntries, Source.ReadValue, Source.ReadItems, Occurs, NumberCharacter,
         ItemTail;
    var e := p + |Written(i.value)|;
    ItemComplete(s, p, i);
    ItemTailIs(i);
    var Ok(v, _) := s.ReadValue(p);
    ItemsSplit(s, p, es, index, start);
    PlainPut(es, Index(index), v);
    var q := e + |Concat(i.gap)|;
    if i.LastItem? {
      MarkToken(s.text, q, "]", ArrayEnd);
      TokenBehindGap(s.text, e, i.gap, q);
      PlainArray(Put(es, Index(index), v), start, q + 1);
    } else {
      OccursInTwo(s.text, q, ",", ItemsWritten(i.rest));
      OccursLength(s.text, q + 1, ItemsWritten(i.rest));
      MarkToken(s.text, q, ",", ArraySeparator);
      TokenBehindGap(s.text, e, i.gap, q);
      ItemsComplete(s, q + 1, i.rest, Put(es, Index(index), v), index + 1, start);
    }
  }

  /** What an element's gap is followed by. */
  function ItemTail(i: Items): string {
    if i.LastItem? then "]" else "," + ItemsWritten(i.rest)
  }

  lemma ItemTailIs(i: Items)
    ensures |ItemsWritten(i)| == |Written(i.value)| + |Concat(i.gap)| + |ItemTail(i)|
    ensures ItemTail(i) == if i.LastItem? then "]" else "," + ItemsWritten(i.rest)
  {
    hide Written, Concat;
  }

  lemma {:induction false} ItemComplete(s: Source, p: nat, i: Items)
    requires ValidItems(i, s.scan) && Occurs(s.text, p, ItemsWritten(i))
    ensures p <= |s.text| && ReadsAs(s.ReadValue(p), p + |Written(i.value)|, Meaning(i.value))
    ensures Occurs(s.text, p + |Written(i.value)|, Concat(i.gap))
    ensures Occurs(s.text, p + |Written(i.value)| + |Concat(i.gap)|, ItemTail(i))
    decreases i, 0
  {
    hide NextToken, TokenAt, Valid, IsGap, Written, Concat, Meaning, Plain, Source.ReadValue, Occurs, NumberCharacter;
    var tail := ItemTail(i);
    var e := p + |Written(i.value)|;
    OccursInTwo(s.text, p, Written(i.value), Concat(i.gap) + tail);
    OccursInTwo(s.text, e, Concat(i.gap), tail);
    QuoteAndBrace();
    GapStart(i.gap, tail);
    NoNumberFollows(s.text, e, Concat(i.gap) + tail, i.value);
    ValueComplete(s, p, i.value);
  }

  lemma PlainArray(es: seq<Entry>, start: nat, limit: nat)
    ensures Plain(Value(Arr(es), start, limit)) == Value(Arr(PlainEntries(es)), 0, 0)
    ensures Plain(Value(Obj(es), start, limit)) == Value(Obj(PlainEntries(es)), 0, 0)
  {
  }

  lemma {:induction false} MembersComplete(s: Source, p: nat, m: Members, es: seq<Entry>, last: string, start: nat)
    requires ValidMembers(m, s.scan, last) && p <= |s.text| && Occurs(s.text, p, MembersWritten(m))
    ensures ReadsAs(s.ReadMembers(p, es, last, start), p + |MembersWritten(m)|, Value(Obj(MembersMeaning(m, PlainEntries(es))), 0, 0))
    decreases m, 0
  {
    hide NextToken, ReadToken, TokenAt, Denotes, Valid, ValidAfter, IsGap, AllBlank, Written, AfterWritten, Concat, Meaning, AfterMeaning, Put, Plain, PlainEntries, CStr,
         DecodeString, Source.ReadValue, Source.ReadMembers, Source.AfterMember, Occurs, NumberCharacter;
    var q := p + |Concat(m.gap)|;
    match m
    case NoMember(gap) =>
      OccursInTwo(s.text, p, Concat(gap), "}");
      MarkToken(s.text, q, "}", ObjectEnd);
      TokenBehindGap(s.text, p, gap, q);
      ObjectEnds(s, p, es, start);
      PlainArray(es, start, q + 1);
    case Member(gap, literal, name, blanks, value, after) =>
      var rest := blanks + (":" + (Written(value) + AfterWritten(after)));
      OccursInTwo(s.text, p, Concat(gap), literal + rest);
      OccursInTwo(s.text, q, literal, rest);
      LiteralToken(s.text, q, literal, name);
      TokenBehindGap(s.text, p, gap, q);
      var colon := ColonComplete(s.text, q + |literal|, blanks, Written(value) + AfterWritten(after));
      OccursInTwo(s.text, colon, Written(value), AfterWritten(after));
      AfterStart(after, s.scan, name);
      var e := colon + |Written(value)|;
      NoNumberFollows(s.text, e, AfterWritten(after), value);
      ValueComplete(s, colon, value);
      var Ok(v, _) := s.ReadValue(colon);
      MembersSplit(s, p, es, last, start);
      PlainPut(es, Name(CStr(name)), v);
      OccursLength(s.text, e, AfterWritten(after));
      AfterComplete(s, e, after, Put(es, Name(CStr(name)), v), name, start);
  }

  lemma ColonComplete(s: string, p: nat, blanks: string, rest: string) returns (colon: nat)
    requires AllBlank(blanks) && Occurs(s, p, blanks + (":" + rest))
    ensures p <= |s| && colon == p + |blanks| + 1 <= |s| && ReadToken(s, p).kind == MemberSeparator && ReadToken(s, p).end == colon
    ensures Occurs(s, colon, rest)
  {
    hide ReadToken, TokenAt, AllBlank, Occurs;
    OccursInTwo(s, p, blanks, ":" + rest);
    var q := p + |blanks|;
    OccursInTwo(s, q, ":", rest);
    OccursLength(s, p, blanks);
    BlanksSkipped(s, p, blanks);
    MarkToken(s, q, ":", MemberSeparator);
    ReadTokenAtMark(s, q);
    colon := q + 1;
  }

  lemma AfterStart(a: After, scan: string -> Option<real>, last: string)
    requires ValidAfter(a, scan, last)
    ensures AfterWritten(a) != [] && !NumberCharacter(AfterWritten(a)[0])
  {
    hide IsGap, Concat, ValidMembers, MembersWritten, NumberCharacter, IsSeparator, IsComment;
    QuoteAndBrace();
    if a.Close? {
      GapStart(a.gap, "}");
    } else if a.separator == "," {
      GapStart(a.gap, "," + MembersWritten(a.rest));
      assert ("," + MembersWritten(a.rest))[0] == ',';
    } else {
      CommentedGap(a.gap);
      assert AfterWritten(a)[0] == Concat(a.gap)[0];
    }
  }

  lemma CommentedGap(gap: seq<string>)
    requires IsGap(gap) && HasComment(gap)
    ensures Concat(gap) != [] && !NumberCharacter(Concat(gap)[0])
  {
    hide NumberCharacter, IsComment;
    assert GapUnit(gap[0]);
    UnitStart(gap[0]);
  }

  lemma {:induction false} AfterComplete(s: Source, p: nat, a: After, es: seq<Entry>, last: string, start: nat)
    requires ValidAfter(a, s.scan, last) && p <= |s.text| && Occurs(s.text, p, AfterWritten(a))
    ensures ReadsAs(s.AfterMember(p, es, last, start), p + |AfterWritten(a)|, Value(Obj(AfterMeaning(a, PlainEntries(es))), 0, 0))
    decreases a, 0
  {
    hide NextToken, ReadToken, TokenAt, IsGap, HasComment, IsSeparator, ValidMembers, MembersWritten, MembersMeaning, Concat, Plain, PlainEntries,
         Source.ReadMembers, Source.AfterMember, Occurs, Follows;
    var q := p + |Concat(a.gap)|;
    AfterMemberSplit(s, p, es, last, start);
    FirstOrComment(s.text, p);
    match a
    case Close(gap) =>
      OccursInTwo(s.text, p, Concat(gap), "}");
      MarkToken(s.text, q, "}", ObjectEnd);
      TokenBehindGap(s.text, p, gap, q);
      PlainArray(es, start, q + 1);
    case More(gap, separator, rest) =>
      OccursInTwo(s.text, p, Concat(gap), separator + MembersWritten(rest));
      OccursInTwo(s.text, q, separator, MembersWritten(rest));
      var e := q + |separator|;
      MembersStart(rest, s.scan, last);
      FirstAt(s.text, e, MembersWritten(rest));
      if separator == "," {
        MarkToken(s.text, q, ",", ArraySeparator);
      } else {
        SeparatorToken(s.text, q, separator);
        CommentComesFirst(s.text, p, gap);
      }
      TokenBehindGap(s.text, p, gap, q);
      OccursLength(s.text, e, MembersWritten(rest));
      MembersComplete(s, e, rest, es, last, start);
  }

  lemma FirstOrComment(s: string, p: nat)
    requires p <= |s|
    ensures ReadToken(s, p).kind == Comment || NextToken(s, p) == ReadToken(s, p)
  {
    hide ReadToken;
  }
}
