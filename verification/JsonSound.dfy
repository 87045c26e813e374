/**
 Whatever is read is a tree of the grammar: if `ReadValue` succeeds, a tree stands in the
 document from the cursor before to the cursor after, and it denotes the value read.
 */
module JsonSound {
  import opened JsonValue
  import opened Optional
  import opened JsonNumber
  import opened JsonLexer
  import opened JsonString
  import opened JsonLiteral
  import opened JsonTokens
  import opened JsonGrammar
  import opened JsonGaps
  import opened JsonReader
  import opened JsonSpans
  import opened JsonComplete

  lemma SliceOccurs(s: string, a: nat, b: nat, t: string)
    requires a <= b <= |s| && s[a..b] == t
    ensures Occurs(s, a, t) && a + |t| == b
  {
  }

  /** The next token and the gap before it. */
  lemma TokenFound(s: string, p: nat) returns (gap: seq<string>)
    requires p <= |s| && NextToken(s, p).start < |s|
    ensures var t := NextToken(s, p);
            && IsGap(gap) && Occurs(s, p, Concat(gap)) && p + |Concat(gap)| == t.start
            && !IsSpace(s[t.start]) && t == TokenAt(s, t.start) && t.kind != Comment
    ensures HasComment(gap) <==> ReadToken(s, p).kind == Comment
  {
    hide NextToken, TokenAt, IsGap, Concat, ReadToken, HasComment;
    gap := GapFound(s, p);
    SliceOccurs(s, p, NextToken(s, p).start, Concat(gap));
    TokenStartVisible(s, p);
  }

  lemma {:induction false} TokenStartVisible(s: string, p: nat)
    requires p <= |s| && NextToken(s, p).start < |s|
    ensures !IsSpace(s[NextToken(s, p).start])
    decreases |s| - p
  {
    hide TokenAt;
    if ReadToken(s, p).kind == Comment {
      TokenStartVisible(s, ReadToken(s, p).end);
    }
  }

  lemma WordFound(s: string, q: nat, e: nat, word: string, kind: TokenKind)
    requires q <= |s| && TokenAt(s, q) == Token(kind, q, e)
    requires (word == "null" && kind == NullToken) || (word == "true" && kind == TrueToken) || (word == "false" && kind == FalseToken)
    ensures Occurs(s, q, word) && e == q + |word|
  {
    hide TokenAt;
    WordIff(s, q, e, kind);
  }

  lemma NumberFound(s: string, q: nat, e: nat, scan: string -> Option<real>, d: Data)
    requires q <= |s| && TokenAt(s, q) == Token(NumberToken, q, e) && IsNumberText(s[q..e]) && DecodeNumber(s[q..e], scan) == Some(d)
    ensures IsNumber(s[q..e]) && NumberDenotes(s[q..e], scan, d) && (e < |s| ==> !NumberCharacter(s[e]))
  {
    hide TokenAt, NumberCharacter, DecodeNumber, IsInteger, IntegerOf, IsNumberText;
    NumberIff(s, q, e);
    var t := s[q..e];
    assert forall i :: 0 <= i < |t| ==> t[i] == s[q + i];
    NumberMeaning(t, scan);
  }

  lemma LiteralIsDenoted(s: string, t: Token) returns (x: string)
    requires t.start <= |s| && t == TokenAt(s, t.start) && t.kind == StringToken && DecodeString(s, t).Text?
    ensures Denotes(s[t.start..t.end], x) && DecodeString(s, t) == Text(x)
  {
    hide TokenAt, DecodeString, Denotes;
    x := DecodeString(s, t).text;
    LiteralMeaning(s, t, x);
  }

  /** What a tree must satisfy to account for a successful read. */
  ghost predicate Accounts(s: Source, p: nat, r: Outcome, d: Syntax)
    requires r.Ok?
  {
    StandsAs(s.text, p, r.pos, d, s.scan) && Meaning(d) == Plain(r.value)
  }

  lemma ScalarSound(s: Source, p: nat) returns (d: Syntax)
    requires p <= |s.text| && s.ReadValue(p).Ok?
    requires NextToken(s.text, p).kind != ObjectBegin && NextToken(s.text, p).kind != ArrayBegin
    ensures Accounts(s, p, s.ReadValue(p), d)
  {
    hide NextToken, TokenAt, ReadToken, DecodeNumber, DecodeString, Denotes, NumberDenotes, IsGap, Concat, IsNumber, NumberCharacter, CStr, Occurs, HasComment;
    var t := NextToken(s.text, p);
    var gap := TokenFound(s.text, p);
    var text := s.text[t.start..t.end];
    SliceOccurs(s.text, t.start, t.end, text);
    OccursInTwo(s.text, p, Concat(gap), text);
    var data := s.ReadValue(p).value.data;
    d := Word(gap, text, data);
    if t.kind == NullToken {
      WordFound(s.text, t.start, t.end, "null", NullToken);
      OccursSlice(s.text, t.start, "null");
      ConstantIsNoNumber("null");
    } else if t.kind == TrueToken {
      WordFound(s.text, t.start, t.end, "true", TrueToken);
      OccursSlice(s.text, t.start, "true");
      ConstantIsNoNumber("true");
    } else if t.kind == FalseToken {
      WordFound(s.text, t.start, t.end, "false", FalseToken);
      OccursSlice(s.text, t.start, "false");
      ConstantIsNoNumber("false");
    } else if t.kind == NumberToken {
      NumberFound(s.text, t.start, t.end, s.scan, data);
    } else {
      var x := LiteralIsDenoted(s.text, t);
      LiteralIsNoNumber(text, x);
    }
  }

  lemma ConstantIsNoNumber(t: string)
    requires t == "null" || t == "true" || t == "false"
    ensures !IsNumber(t)
  {
  }

  lemma LiteralIsNoNumber(t: string, x: string)
    requires Denotes(t, x)
    ensures !IsNumber(t)
  {
    hide Denotes, NumberCharacter;
    DenotesStartsQuoted(t, x);
  }

  lemma MarkFound(s: string, q: nat, e: nat, mark: string, kind: TokenKind)
    requires q <= |s| && TokenAt(s, q) == Token(kind, q, e)
    requires || (mark == "[" && kind == ArrayBegin) || (mark == "]" && kind == ArrayEnd) || (mark == "{" && kind == ObjectBegin)
             || (mark == "}" && kind == ObjectEnd) || (mark == "," && kind == ArraySeparator) || (mark == ":" && kind == MemberSeparator)
    ensures Occurs(s, q, mark) && e == q + 1
  {
    hide TokenAt;
    MarkIff(s, q, e, kind);
  }

  // ----- separators -----

  lemma ErrorCharacter(s: string, q: nat)
    requires q < |s| && TokenAt(s, q).kind == ErrorToken && TokenAt(s, q).end < |s| && !IsSpace(s[q])
    ensures IsStray(s[q..TokenAt(s, q).end])
  {
    ErrorIff(s, q);
    var e := TokenAt(s, q).end;
    var x := s[q..e];
    if s[q] == '/' {
      SlashError(s, q);
      assert x == [s[q], s[q + 1]];
    } else {
      OtherError(s, q);
      assert x == [s[q]];
      hide *;
      StrayOnly(s[q]);
    }
  }

  lemma SlashError(s: string, q: nat)
    requires q < |s| && s[q] == '/' && TokenAt(s, q).kind == ErrorToken && TokenAt(s, q).end < |s|
    ensures q + 2 < |s| && TokenAt(s, q).end == q + 2 && s[q + 1] != '*' && s[q + 1] != '/'
  {
    SlashToken(s, q);
    hide TokenAt, ScanBlockComment, ScanLineComment;
  }

  lemma OtherError(s: string, q: nat)
    requires q < |s| && s[q] != '/' && TokenAt(s, q).kind == ErrorToken && TokenAt(s, q).end < |s|
    ensures TokenAt(s, q).end == q + 1
    ensures s[q] != '{' && s[q] != '}' && s[q] != '[' && s[q] != ']' && s[q] != ',' && s[q] != ':' && s[q] != '"' && s[q] != '-'
    ensures !('0' <= s[q] <= '9') && s[q] != '\0'
  {
    hide ScanString, ScanComment, ScanNumber;
  }

  lemma StrayOnly(c: char)
    requires c != '{' && c != '}' && c != '[' && c != ']' && c != ',' && c != ':' && c != '"' && c != '/' && c != '-'
    requires !('0' <= c <= '9') && !IsSpace(c) && c != '\0'
    ensures IsStray([c])
  {
    var list := "{}[],:\"/-0123456789 \t\r\n\0";
    forall i | 0 <= i < |list| ensures list[i] != c {
    }
  }

  /** Any token but a comment or the closing brace is a separator. */
  lemma SeparatorFound(s: string, q: nat)
    requires q < |s| && !IsSpace(s[q]) && TokenAt(s, q).end < |s|
    requires TokenAt(s, q).kind != Comment && TokenAt(s, q).kind != ObjectEnd
    ensures IsSeparator(s[q..TokenAt(s, q).end])
  {
    var t := TokenAt(s, q);
    hide TokenAt, IsNumber, IsLiteral, IsStray, Occurs;
    var x := s[q..t.end];
    if t.kind == ErrorToken {
      ErrorCharacter(s, q);
    } else if t.kind == NumberToken {
      RunIsNumber(s, q, t.end);
    } else if t.kind == StringToken {
      LiteralIff(s, q, t.end);
    } else if t.kind == TrueToken {
      WordFound(s, q, t.end, "true", TrueToken);
      OccursSlice(s, q, "true");
    } else if t.kind == FalseToken {
      WordFound(s, q, t.end, "false", FalseToken);
      OccursSlice(s, q, "false");
    } else if t.kind == NullToken {
      WordFound(s, q, t.end, "null", NullToken);
      OccursSlice(s, q, "null");
    } else {
      MarkIff(s, q, t.end, t.kind);
      assert x == [s[q]];
    }
  }

  lemma RunIsNumber(s: string, q: nat, e: nat)
    requires q <= |s| && TokenAt(s, q) == Token(NumberToken, q, e)
    ensures IsNumber(s[q..e])
  {
    hide TokenAt, NumberCharacter;
    NumberIff(s, q, e);
    var t := s[q..e];
    assert forall i :: 0 <= i < |t| ==> t[i] == s[q + i];
  }

  // ----- values, elements and members -----

  lemma {:induction false} ValueSound(s: Source, p: nat) returns (d: Syntax)
    requires p <= |s.text| && s.ReadValue(p).Ok?
    ensures Accounts(s, p, s.ReadValue(p), d)
    decreases |s.text| - p, 1
  {
    hide NextToken, Source.ReadValue, Accounts;
    var t := NextToken(s.text, p);
    if t.kind == ObjectBegin {
      d := ObjectSound(s, p);
    } else if t.kind == ArrayBegin {
      d := ArraySound(s, p);
    } else {
      d := ScalarSound(s, p);
    }
  }

  lemma {:induction false} ObjectSound(s: Source, p: nat) returns (d: Syntax)
    requires p <= |s.text| && s.ReadValue(p).Ok? && NextToken(s.text, p).kind == ObjectBegin
    ensures Accounts(s, p, s.ReadValue(p), d)
    decreases |s.text| - p, 0
  {
    hide NextToken, TokenAt, ReadToken, ValidMembers, MembersWritten, MembersMeaning, IsGap, Concat, Occurs, HasComment, Plain,
         Source.ReadValue, Source.ReadMembers;
    var t := NextToken(s.text, p);
    var gap := TokenFound(s.text, p);
    MarkFound(s.text, t.start, t.end, "{", ObjectBegin);
    ContainerUnfold(s, p);
    var members := MembersSound(s, t.end, [], "", t.start);
    NoPlain();
    OccursInTwo(s.text, t.start, "{", MembersWritten(members));
    OccursInTwo(s.text, p, Concat(gap), "{" + MembersWritten(members));
    d := Object(gap, members);
  }

  lemma {:induction false} ArraySound(s: Source, p: nat) returns (d: Syntax)
    requires p <= |s.text| && s.ReadValue(p).Ok? && NextToken(s.text, p).kind == ArrayBegin
    ensures Accounts(s, p, s.ReadValue(p), d)
    decreases |s.text| - p, 0
  {
    hide NextToken, TokenAt, ReadToken, ValidItems, ItemsWritten, ItemsMeaning, IsGap, Concat, Occurs, HasComment, Plain, SkipSpaces, AllBlank,
         Source.ReadValue, Source.ReadItems;
    var t := NextToken(s.text, p);
    var gap := TokenFound(s.text, p);
    MarkFound(s.text, t.start, t.end, "[", ArrayBegin);
    ContainerUnfold(s, p);
    NoPlain();
    var q := SkipSpaces(s.text, t.end);
    if CharAt(s.text, q) == ']' {
      var blanks := BracketFound(s.text, t.end, q);
      OccursInTwo(s.text, t.start, "[", blanks + "]");
      OccursInTwo(s.text, p, Concat(gap), "[" + (blanks + "]"));
      PlainArray([], t.start, q + 1);
      d := Empty(gap, blanks);
    } else {
      SpacesDoNotMatter(s.text, t.end);
      SameRead(s, t.end, q);
      SameItems(s, t.end, q, t.start);
      var items := ItemsSound(s, t.end, [], 0, t.start);
      OccursInTwo(s.text, t.start, "[", ItemsWritten(items));
      OccursInTwo(s.text, p, Concat(gap), "[" + ItemsWritten(items));
      d := Array(gap, items);
    }
  }

  lemma BracketFound(s: string, p: nat, q: nat) returns (blanks: string)
    requires p <= |s| && q == SkipSpaces(s, p) && CharAt(s, q) == ']'
    ensures AllBlank(blanks) && Occurs(s, p, blanks + "]") && p + |blanks| == q && ReadToken(s, q) == Token(ArrayEnd, q, q + 1)
  {
    blanks := s[p..q];
    BlanksAre(s, p, q);
    SliceOccurs(s, p, q, blanks);
    hide SkipSpaces, ReadToken, TokenAt, Occurs;
    assert Occurs(s, q, "]") by { OneOccurs(s, q, ']'); }
    OccursInTwo(s, p, blanks, "]");
    MarkToken(s, q, "]", ArrayEnd);
    ReadTokenAtMark(s, q);
  }

  lemma OneOccurs(s: string, q: nat, c: char)
    requires q < |s| && s[q] == c
    ensures Occurs(s, q, [c])
  {
  }

  lemma BlanksAre(s: string, p: nat, q: nat)
    requires p <= |s| && q == SkipSpaces(s, p)
    ensures AllBlank(s[p..q])
  {
    hide SkipSpaces;
    forall i | 0 <= i < q - p ensures Blank(s[p..q][i]) {
      assert IsSpace(s[p + i]);
      BlankIs(s[p + i]);
    }
  }

  lemma {:induction false} ItemsSound(s: Source, p: nat, es: seq<Entry>, index: nat, start: nat) returns (i: Items)
    requires p <= |s.text| && s.ReadItems(p, es, index, start).Ok?
    ensures ValidItems(i, s.scan) && Occurs(s.text, p, ItemsWritten(i))
    ensures var r := s.ReadItems(p, es, index, start);
            r.pos == p + |ItemsWritten(i)| && Plain(r.value) == Value(Arr(ItemsMeaning(i, PlainEntries(es), index)), 0, 0)
    decreases |s.text| - p, 2
  {
    hide NextToken, TokenAt, ReadToken, Valid, IsGap, Written, Concat, Meaning, Put, Plain, PlainEntries, Source.ReadValue, Source.ReadItems, Occurs, HasComment, EndsAt;
    ItemsSplit(s, p, es, index, start);
    var d := ValueSound(s, p);
    var Ok(v, q) := s.ReadValue(p);
    var t := NextToken(s.text, q);
    var gap := TokenFound(s.text, q);
    PlainPut(es, Index(index), v);
    if t.kind == ArrayEnd {
      MarkFound(s.text, t.start, t.end, "]", ArrayEnd);
      OccursInTwo(s.text, q, Concat(gap), "]");
      OccursInTwo(s.text, p, Written(d), Concat(gap) + "]");
      PlainArray(Put(es, Index(index), v), start, t.end);
      i := LastItem(d, gap);
    } else {
      MarkFound(s.text, t.start, t.end, ",", ArraySeparator);
      var rest := ItemsSound(s, t.end, Put(es, Index(index), v), index + 1, start);
      OccursInTwo(s.text, t.start, ",", ItemsWritten(rest));
      OccursInTwo(s.text, q, Concat(gap), "," + ItemsWritten(rest));
      OccursInTwo(s.text, p, Written(d), Concat(gap) + ("," + ItemsWritten(rest)));
      i := NextItem(d, gap, rest);
    }
  }

  lemma {:induction false} MembersSound(s: Source, p: nat, es: seq<Entry>, last: string, start: nat) returns (m: Members)
    requires p <= |s.text| && s.ReadMembers(p, es, last, start).Ok?
    ensures ValidMembers(m, s.scan, last) && Occurs(s.text, p, MembersWritten(m))
    ensures var r := s.ReadMembers(p, es, last, start);
            r.pos == p + |MembersWritten(m)| && Plain(r.value) == Value(Obj(MembersMeaning(m, PlainEntries(es))), 0, 0)
    decreases |s.text| - p, 2
  {
    hide NextToken, ReadToken, TokenAt, Denotes, Valid, ValidAfter, IsGap, AllBlank, Written, AfterWritten, Concat, Meaning, AfterMeaning, Put, Plain, PlainEntries, CStr,
         DecodeString, Source.ReadValue, Source.ReadMembers, Source.AfterMember, Occurs, HasComment, EndsAt;
    var t := NextToken(s.text, p);
    if t.kind == ObjectEnd && last == "" {
      var gap := TokenFound(s.text, p);
      ObjectEnds(s, p, es, start);
      MarkFound(s.text, t.start, t.end, "}", ObjectEnd);
      OccursInTwo(s.text, p, Concat(gap), "}");
      PlainArray(es, start, t.end);
      m := NoMember(gap);
    } else {
      MembersSplit(s, p, es, last, start);
      var gap := TokenFound(s.text, p);
      var name := LiteralIsDenoted(s.text, t);
      var literal := s.text[t.start..t.end];
      SliceOccurs(s.text, t.start, t.end, literal);
      var blanks := ColonFound(s.text, t.end);
      var colon := ReadToken(s.text, t.end).end;
      var value := ValueSound(s, colon);
      var Ok(v, q) := s.ReadValue(colon);
      PlainPut(es, Name(CStr(name)), v);
      var after := AfterSound(s, q, Put(es, Name(CStr(name)), v), name, start);
      m := Member(gap, literal, name, blanks, value, after);
      OccursInTwo(s.text, colon, Written(value), AfterWritten(after));
      MemberOccurs(s.text, p, t.start, t.end, colon, Concat(gap), literal, blanks, Written(value) + AfterWritten(after));
    }
  }

  lemma MemberOccurs(s: string, p: nat, a: nat, b: nat, c: nat, gap: string, literal: string, blanks: string, rest: string)
    requires Occurs(s, p, gap) && p + |gap| == a && Occurs(s, a, literal) && a + |literal| == b
    requires Occurs(s, b, blanks + ":") && b + |blanks| + 1 == c && Occurs(s, c, rest)
    ensures Occurs(s, p, gap + (literal + (blanks + (":" + rest))))
  {
    hide Occurs;
    OccursInTwo(s, b, blanks, ":");
    OccursInTwo(s, c - 1, ":", rest);
    OccursInTwo(s, b, blanks, ":" + rest);
    OccursInTwo(s, a, literal, blanks + (":" + rest));
    OccursInTwo(s, p, gap, literal + (blanks + (":" + rest)));
  }

  lemma ColonFound(s: string, p: nat) returns (blanks: string)
    requires p <= |s| && ReadToken(s, p).kind == MemberSeparator
    ensures AllBlank(blanks) && Occurs(s, p, blanks + ":") && p + |blanks| + 1 == ReadToken(s, p).end
  {
    hide TokenAt, SkipSpaces, Occurs;
    var q := SkipSpaces(s, p);
    blanks := s[p..q];
    BlanksAre(s, p, q);
    SliceOccurs(s, p, q, blanks);
    MarkFound(s, q, TokenAt(s, q).end, ":", MemberSeparator);
    OccursInTwo(s, p, blanks, ":");
  }

  lemma NothingAtEnd(s: Source, es: seq<Entry>, last: string, start: nat)
    ensures !s.ReadMembers(|s.text|, es, last, start).Ok?
  {
    hide Recover, DecodeString, Source.ReadValue, Source.AfterMember;
  }

  lemma {:induction false} AfterSound(s: Source, p: nat, es: seq<Entry>, last: string, start: nat) returns (a: After)
    requires p <= |s.text| && s.AfterMember(p, es, last, start).Ok?
    ensures ValidAfter(a, s.scan, last) && Occurs(s.text, p, AfterWritten(a))
    ensures var r := s.AfterMember(p, es, last, start);
            r.pos == p + |AfterWritten(a)| && Plain(r.value) == Value(Obj(AfterMeaning(a, PlainEntries(es))), 0, 0)
    decreases |s.text| - p, 2
  {
    hide NextToken, ReadToken, TokenAt, IsGap, HasComment, IsSeparator, ValidMembers, MembersWritten, MembersMeaning, Concat, Plain, PlainEntries,
         Source.ReadMembers, Source.AfterMember, Occurs;
    AfterMemberSplit(s, p, es, last, start);
    NothingAtEnd(s, es, last, start);
    FirstOrComment(s.text, p);
    var t := NextToken(s.text, p);
    var gap := TokenFound(s.text, p);
    if t.kind == ObjectEnd {
      MarkFound(s.text, t.start, t.end, "}", ObjectEnd);
      OccursInTwo(s.text, p, Concat(gap), "}");
      PlainArray(es, start, t.end);
      a := Close(gap);
    } else {
      var separator := s.text[t.start..t.end];
      SliceOccurs(s.text, t.start, t.end, separator);
      if ReadToken(s.text, p).kind == Comment {
        SeparatorFound(s.text, t.start);
      } else {
        MarkFound(s.text, t.start, t.end, ",", ArraySeparator);
        OccursSlice(s.text, t.start, ",");
      }
      var rest := MembersSound(s, t.end, es, last, start);
      OccursInTwo(s.text, t.start, separator, MembersWritten(rest));
      OccursInTwo(s.text, p, Concat(gap), separator + MembersWritten(rest));
      a := After.More(gap, separator, rest);
    }
  }

  // ----- both directions -----

  /**
   The reader succeeds exactly where a tree of the grammar stands, takes its text and yields
   what it denotes.
   */
  lemma ReadIff(s: Source, p: nat, q: nat, v: Value)
    requires p <= |s.text|
    ensures ReadsAs(s.ReadValue(p), q, v) <==> exists d :: StandsAs(s.text, p, q, d, s.scan) && Meaning(d) == v
  {
    hide Source.ReadValue, StandsAs, Plain, Meaning;
    if ReadsAs(s.ReadValue(p), q, v) {
      var d := ValueSound(s, p);
    }
    forall d | StandsAs(s.text, p, q, d, s.scan) && Meaning(d) == v ensures ReadsAs(s.ReadValue(p), q, v) {
      StandingIsRead(s, p, q, d);
    }
  }

  lemma StandingIsRead(s: Source, p: nat, q: nat, d: Syntax)
    requires StandsAs(s.text, p, q, d, s.scan)
    ensures p <= |s.text| && ReadsAs(s.ReadValue(p), q, Meaning(d))
  {
    hide Source.ReadValue, Valid, Plain, Written;
    ValueComplete(s, p, d);
  }

  /** A document is rejected exactly if no tree stands at its start. */
  lemma RejectedIff(s: Source)
    ensures s.ReadValue(0).Fail? <==> forall q: nat, d :: !StandsAs(s.text, 0, q, d, s.scan)
  {
    hide Source.ReadValue, StandsAs;
    if s.ReadValue(0).Ok? {
      var d := ValueSound(s, 0);
    }
    forall q: nat, d | StandsAs(s.text, 0, q, d, s.scan) ensures s.ReadValue(0).Ok? {
      StandingIsRead(s, 0, q, d);
    }
  }
}
