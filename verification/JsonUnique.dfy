/**
 The grammar of `JsonGrammar` is unambiguous: at most one tree stands at a place of a document.
 So what is said of a tree that was read is said of its text.
 */
module JsonUnique {
  import opened JsonValue
  import opened JsonLexer
  import opened JsonString
  import opened JsonLiteral
  import opened JsonTokens
  import opened JsonGrammar
  import opened JsonGaps
  import opened JsonReader
  import opened JsonComplete

  // ----- texts and gaps -----

  lemma SameText(s: string, p: nat, a: string, b: string)
    requires Occurs(s, p, a) && Occurs(s, p, b) && |a| == |b|
    ensures a == b
  {
    forall i | 0 <= i < |a| ensures a[i] == b[i] {
      assert s[p + i] == a[i] && s[p + i] == b[i];
    }
  }

  lemma UnitUnique(s: string, p: nat, u: string, w: string)
    requires GapUnit(u) && GapUnit(w) && Occurs(s, p, u) && Occurs(s, p, w)
    ensures u == w
  {
    hide TokenAt, Stands, IsComment, Blank;
    UnitStart(u);
    UnitStart(w);
    FirstAt(s, p, u);
    FirstAt(s, p, w);
    UnitLength(s, p, u);
    UnitLength(s, p, w);
    SameText(s, p, u, w);
  }

  lemma UnitLength(s: string, p: nat, u: string)
    requires GapUnit(u) && Occurs(s, p, u) && p < |s|
    ensures if IsSpace(s[p]) then |u| == 1 else TokenAt(s, p).end == p + |u|
  {
    hide TokenAt, Stands, IsComment, Blank;
    if |u| == 1 && Blank(u[0]) {
      FirstAt(s, p, u);
      BlankIs(u[0]);
    } else {
      CommentOccurs(s, p, u);
      TokenIff(s, p, Comment, p + |u|);
    }
  }

  lemma {:induction false} GapUnique(s: string, p: nat, g: seq<string>, h: seq<string>)
    requires IsGap(g) && IsGap(h) && Occurs(s, p, Concat(g)) && Occurs(s, p, Concat(h)) && |Concat(g)| == |Concat(h)|
    ensures g == h
    decreases |g|
  {
    hide GapUnit, Occurs, NumberCharacter, Blank;
    if g != [] { UnitStart(g[0]); }
    if h != [] { UnitStart(h[0]); }
    if g != [] && h != [] {
      OccursInTwo(s, p, g[0], Concat(g[1..]));
      OccursInTwo(s, p, h[0], Concat(h[1..]));
      UnitUnique(s, p, g[0], h[0]);
      GapUnique(s, p + |g[0]|, g[1..], h[1..]);
      assert g == [g[0]] + g[1..] && h == [h[0]] + h[1..];
    }
  }

  /** A gap, and behind it the token that comes next. */
  ghost predicate Behind(s: string, p: nat, gap: seq<string>, kind: TokenKind) {
    && p <= |s| && IsGap(gap) && Occurs(s, p, Concat(gap))
    && NextToken(s, p).start == p + |Concat(gap)| && NextToken(s, p).kind == kind
  }

  lemma SameGap(s: string, p: nat, g: seq<string>, k: TokenKind, h: seq<string>, l: TokenKind)
    requires Behind(s, p, g, k) && Behind(s, p, h, l)
    ensures g == h && k == l
  {
    hide IsGap, Occurs, Concat, NextToken;
    GapUnique(s, p, g, h);
  }

  lemma TokenStarts(s: string, q: nat)
    requires q <= |s|
    ensures TokenAt(s, q).start == q
  {
    hide ScanString, ScanComment, ScanNumber, ScanWord;
  }

  lemma IsBehind(s: string, p: nat, gap: seq<string>, q: nat)
    requires IsGap(gap) && Occurs(s, p, Concat(gap)) && q == p + |Concat(gap)| < |s|
    requires !IsSpace(s[q]) && TokenAt(s, q).kind != Comment
    ensures Behind(s, p, gap, TokenAt(s, q).kind) && NextToken(s, p) == TokenAt(s, q)
  {
    hide TokenAt, IsGap, Concat, NextToken, Occurs;
    OccursLength(s, p, Concat(gap));
    TokenBehindGap(s, p, gap, q);
    TokenStarts(s, q);
  }

  // ----- what a tree starts with -----

  lemma WordTop(s: Source, p: nat, d: Syntax)
    requires d.Word? && StandsAs(s.text, p, p + |Written(d)|, d, s.scan)
    ensures var q, t := p + |Concat(d.gap)|, NextToken(s.text, p);
            && Behind(s.text, p, d.gap, t.kind) && t.kind != ArrayBegin && t.kind != ObjectBegin
            && t.end == q + |d.text| && Occurs(s.text, q, d.text) && TokenReadsAs(s, q, q + |d.text|, d.data)
  {
    hide IsGap, Concat, WordDenotes, Occurs, TokenAt, NextToken, DecodeString, IsNumber, NumberCharacter, CStr;
    WordToken(s, p, d);
    IsBehind(s.text, p, d.gap, p + |Concat(d.gap)|);
  }

  lemma WordUnique(s: Source, p: nat, d: Syntax, f: Syntax)
    requires d.Word? && StandsAs(s.text, p, p + |Written(d)|, d, s.scan)
    requires f.Word? && StandsAs(s.text, p, p + |Written(f)|, f, s.scan)
    ensures d == f
  {
    hide *;
    WordTop(s, p, d);
    WordTop(s, p, f);
    var t := NextToken(s.text, p);
    SameGap(s.text, p, d.gap, t.kind, f.gap, t.kind);
    SameText(s.text, p + |Concat(d.gap)|, d.text, f.text);
    SameData(s, p + |Concat(d.gap)|, t.end, d.data, f.data);
  }

  lemma SameData(s: Source, q: nat, e: nat, d: Data, f: Data)
    requires TokenReadsAs(s, q, e, d) && TokenReadsAs(s, q, e, f)
    ensures d == f
  {
    hide TokenAt, DecodeString, CStr;
  }

  /** The kind of the first token, and for an array what follows the bracket, tell the kind of the tree. */
  lemma ContainerTop(s: Source, p: nat, d: Syntax)
    requires !d.Word? && StandsAs(s.text, p, p + |Written(d)|, d, s.scan)
    ensures var q := p + |Concat(d.gap)|;
            && Behind(s.text, p, d.gap, if d.Object? then ObjectBegin else ArrayBegin) && q < |s.text|
            && match d
               case Word(_, _, _) => true
               case Empty(_, blanks) => Occurs(s.text, q + 1, blanks) && SkipSpaces(s.text, q + 1) == q + 1 + |blanks| && CharAt(s.text, SkipSpaces(s.text, q + 1)) == ']'
               case Array(_, items) => ValidItems(items, s.scan) && Occurs(s.text, q + 1, ItemsWritten(items)) && CharAt(s.text, SkipSpaces(s.text, q + 1)) != ']'
               case Object(_, members) => ValidMembers(members, s.scan, "") && Occurs(s.text, q + 1, MembersWritten(members))
  {
    hide Concat, Occurs, ValidItems, ValidMembers, ItemsWritten, MembersWritten, SkipSpaces, Behind, AllBlank, IsGap;
    match d
    case Empty(gap, blanks) => EmptyTop(s.text, p, gap, blanks);
    case Array(gap, items) =>
      MarkTop(s.text, p, gap, "[", ArrayBegin, ItemsWritten(items));
      NoBracket(s, p + |Concat(gap)| + 1, items);
    case Object(gap, members) => MarkTop(s.text, p, gap, "{", ObjectBegin, MembersWritten(members));
  }

  /** A gap, an opening bracket and what stands behind it. */
  lemma MarkTop(s: string, p: nat, gap: seq<string>, mark: string, kind: TokenKind, rest: string)
    requires IsGap(gap) && Occurs(s, p, Concat(gap) + (mark + rest))
    requires (mark == "[" && kind == ArrayBegin) || (mark == "{" && kind == ObjectBegin)
    ensures var q := p + |Concat(gap)|; Behind(s, p, gap, kind) && q < |s| && Occurs(s, q + 1, rest)
  {
    hide IsGap, Concat, Occurs, TokenAt, NextToken, Behind;
    var q := p + |Concat(gap)|;
    OccursInTwo(s, p, Concat(gap), mark + rest);
    OccursInTwo(s, q, mark, rest);
    MarkToken(s, q, mark, kind);
    IsBehind(s, p, gap, q);
  }

  lemma EmptyTop(s: string, p: nat, gap: seq<string>, blanks: string)
    requires IsGap(gap) && AllBlank(blanks) && Occurs(s, p, Concat(gap) + ("[" + (blanks + "]")))
    ensures var q := p + |Concat(gap)|;
            && Behind(s, p, gap, ArrayBegin) && q < |s| && Occurs(s, q + 1, blanks)
            && SkipSpaces(s, q + 1) == q + 1 + |blanks| && CharAt(s, SkipSpaces(s, q + 1)) == ']'
  {
    hide IsGap, Concat, Occurs, Behind, AllBlank, SkipSpaces;
    MarkTop(s, p, gap, "[", ArrayBegin, blanks + "]");
    var q := p + |Concat(gap)|;
    OccursInTwo(s, q + 1, blanks, "]");
    BracketBehind(s, q + 1, blanks);
  }

  lemma BracketBehind(s: string, p: nat, blanks: string)
    requires p <= |s| && AllBlank(blanks) && Occurs(s, p, blanks) && Occurs(s, p + |blanks|, "]")
    ensures SkipSpaces(s, p) == p + |blanks| && CharAt(s, p + |blanks|) == ']'
  {
    hide AllBlank, Occurs, ReadToken;
    BlanksSkipped(s, p, blanks);
    FirstAt(s, p + |blanks|, "]");
    assert SkipSpaces(s, p + |blanks|) == p + |blanks|;
  }

  lemma NoBracket(s: Source, p: nat, i: Items)
    requires ValidItems(i, s.scan) && p <= |s.text| && Occurs(s.text, p, ItemsWritten(i))
    ensures CharAt(s.text, SkipSpaces(s.text, p)) != ']'
  {
    hide Valid, IsGap, Written, Concat, SkipSpaces, Occurs;
    OccursInTwo(s.text, p, Written(i.value), Concat(i.gap) + if i.LastItem? then "]" else "," + ItemsWritten(i.rest));
    ValueIsNoBracket(s.text, p, i.value, s.scan);
  }

  // ----- elements -----

  /** An element and the token behind it. */
  lemma ItemTop(s: Source, p: nat, i: Items)
    requires ValidItems(i, s.scan) && Occurs(s.text, p, ItemsWritten(i))
    ensures var e := p + |Written(i.value)|;
            && StandsAs(s.text, p, e, i.value, s.scan)
            && Behind(s.text, e, i.gap, if i.LastItem? then ArrayEnd else ArraySeparator)
            && (i.NextItem? ==> ValidItems(i.rest, s.scan) && Occurs(s.text, e + |Concat(i.gap)| + 1, ItemsWritten(i.rest)))
  {
    hide NextToken, TokenAt, Valid, IsGap, Written, Concat, Occurs, NumberCharacter, Behind, EndsAt;
    var tail, e := ItemTail(i), p + |Written(i.value)|;
    var q := e + |Concat(i.gap)|;
    OccursInTwo(s.text, p, Written(i.value), Concat(i.gap) + tail);
    OccursInTwo(s.text, e, Concat(i.gap), tail);
    QuoteAndBrace();
    GapStart(i.gap, tail);
    NoNumberFollows(s.text, e, Concat(i.gap) + tail, i.value);
    if i.LastItem? {
      MarkToken(s.text, q, "]", ArrayEnd);
    } else {
      OccursInTwo(s.text, q, ",", ItemsWritten(i.rest));
      MarkToken(s.text, q, ",", ArraySeparator);
    }
    IsBehind(s.text, e, i.gap, q);
  }

  lemma {:induction false} ItemsUnique(s: Source, p: nat, i: Items, j: Items)
    requires ValidItems(i, s.scan) && Occurs(s.text, p, ItemsWritten(i))
    requires ValidItems(j, s.scan) && Occurs(s.text, p, ItemsWritten(j))
    ensures i == j
    decreases i
  {
    hide *;
    ItemTop(s, p, i);
    ItemTop(s, p, j);
    ValueUnique(s, p, i.value, j.value);
    var e := p + |Written(i.value)|;
    SameGap(s.text, e, i.gap, if i.LastItem? then ArrayEnd else ArraySeparator, j.gap, if j.LastItem? then ArrayEnd else ArraySeparator);
    if i.NextItem? {
      ItemsUnique(s, e + |Concat(i.gap)| + 1, i.rest, j.rest);
    }
  }

  // ----- members -----

  lemma NameTop(s: Source, p: nat, m: Members, last: string)
    requires m.Member? && ValidMembers(m, s.scan, last) && Occurs(s.text, p, MembersWritten(m))
    ensures var q := p + |Concat(m.gap)|; var e := q + |m.literal|;
            && Behind(s.text, p, m.gap, StringToken) && Occurs(s.text, q, m.literal)
            && NextToken(s.text, p).end == e <= |s.text|
            && q + 2 <= e && DecodeString(s.text, Token(StringToken, q, e)) == Text(m.name)
            && Occurs(s.text, e, m.blanks + (":" + (Written(m.value) + AfterWritten(m.after))))
  {
    hide NextToken, ReadToken, TokenAt, Denotes, Valid, ValidAfter, IsGap, AllBlank, Written, AfterWritten, Concat, DecodeString, Occurs, Behind;
    var q := p + |Concat(m.gap)|;
    var rest := m.blanks + (":" + (Written(m.value) + AfterWritten(m.after)));
    OccursInTwo(s.text, p, Concat(m.gap), m.literal + rest);
    OccursInTwo(s.text, q, m.literal, rest);
    LiteralToken(s.text, q, m.literal, m.name);
    IsBehind(s.text, p, m.gap, q);
  }

  lemma ValueTop(s: Source, p: nat, m: Members, last: string)
    requires m.Member? && ValidMembers(m, s.scan, last) && Occurs(s.text, p, m.blanks + (":" + (Written(m.value) + AfterWritten(m.after))))
    ensures var v := p + |m.blanks| + 1; var e := v + |Written(m.value)|;
            && p <= |s.text| && Occurs(s.text, p, m.blanks) && ReadToken(s.text, p).end == v
            && StandsAs(s.text, v, e, m.value, s.scan)
            && ValidAfter(m.after, s.scan, m.name) && Occurs(s.text, e, AfterWritten(m.after))
  {
    hide ReadToken, Denotes, Valid, ValidAfter, IsGap, AllBlank, Written, AfterWritten, Occurs, EndsAt, NumberCharacter;
    OccursInTwo(s.text, p, m.blanks, ":" + (Written(m.value) + AfterWritten(m.after)));
    var v := ColonComplete(s.text, p, m.blanks, Written(m.value) + AfterWritten(m.after));
    OccursInTwo(s.text, v, Written(m.value), AfterWritten(m.after));
    AfterStart(m.after, s.scan, m.name);
    NoNumberFollows(s.text, v + |Written(m.value)|, AfterWritten(m.after), m.value);
  }

  lemma NoMemberTop(s: Source, p: nat, m: Members, last: string)
    requires m.NoMember? && ValidMembers(m, s.scan, last) && Occurs(s.text, p, MembersWritten(m))
    ensures Behind(s.text, p, m.gap, ObjectEnd)
  {
    hide NextToken, TokenAt, IsGap, Concat, Occurs, Behind;
    OccursInTwo(s.text, p, Concat(m.gap), "}");
    MarkToken(s.text, p + |Concat(m.gap)|, "}", ObjectEnd);
    IsBehind(s.text, p, m.gap, p + |Concat(m.gap)|);
  }

  lemma MembersGap(s: Source, p: nat, m: Members, last: string)
    requires ValidMembers(m, s.scan, last) && Occurs(s.text, p, MembersWritten(m))
    ensures Behind(s.text, p, m.gap, if m.Member? then StringToken else ObjectEnd)
  {
    hide ValidMembers, MembersWritten, Behind, Occurs, DecodeString, NextToken, Concat;
    if m.Member? {
      NameTop(s, p, m, last);
    } else {
      NoMemberTop(s, p, m, last);
    }
  }

  lemma {:induction false} MembersUnique(s: Source, p: nat, m: Members, last: string, n: Members, other: string)
    requires ValidMembers(m, s.scan, last) && Occurs(s.text, p, MembersWritten(m))
    requires ValidMembers(n, s.scan, other) && Occurs(s.text, p, MembersWritten(n))
    ensures m == n
    decreases m, 0
  {
    hide *;
    MembersGap(s, p, m, last);
    MembersGap(s, p, n, other);
    SameGap(s.text, p, m.gap, if m.Member? then StringToken else ObjectEnd, n.gap, if n.Member? then StringToken else ObjectEnd);
    if m.Member? {
      NameTop(s, p, m, last);
      NameTop(s, p, n, other);
      var q := p + |Concat(m.gap)|;
      SameText(s.text, q, m.literal, n.literal);
      MemberRestUnique(s, q + |m.literal|, m, last, n, other);
    }
  }

  lemma {:induction false} MemberRestUnique(s: Source, p: nat, m: Members, last: string, n: Members, other: string)
    requires m.Member? && ValidMembers(m, s.scan, last) && Occurs(s.text, p, m.blanks + (":" + (Written(m.value) + AfterWritten(m.after))))
    requires n.Member? && ValidMembers(n, s.scan, other) && Occurs(s.text, p, n.blanks + (":" + (Written(n.value) + AfterWritten(n.after))))
    ensures m.blanks == n.blanks && m.value == n.value && m.after == n.after
    decreases m, -1
  {
    hide *;
    ValueTop(s, p, m, last);
    ValueTop(s, p, n, other);
    SameText(s.text, p, m.blanks, n.blanks);
    var v := p + |m.blanks| + 1;
    ValueUnique(s, v, m.value, n.value);
    AfterUnique(s, v + |Written(m.value)|, m.after, m.name, n.after, n.name);
  }

  lemma AfterTop(s: Source, p: nat, a: After, last: string)
    requires ValidAfter(a, s.scan, last) && Occurs(s.text, p, AfterWritten(a))
    ensures var q, t := p + |Concat(a.gap)|, NextToken(s.text, p);
            && Behind(s.text, p, a.gap, t.kind) && (a.Close? <==> t.kind == ObjectEnd)
            && (a.More? ==> && t.end == q + |a.separator| && Occurs(s.text, q, a.separator)
                            && ValidMembers(a.rest, s.scan, last) && Occurs(s.text, q + |a.separator|, MembersWritten(a.rest)))
  {
    hide NextToken, ReadToken, TokenAt, IsGap, HasComment, IsSeparator, ValidMembers, MembersWritten, Concat, Occurs, Follows, Behind;
    var q := p + |Concat(a.gap)|;
    match a
    case Close(gap) =>
      OccursInTwo(s.text, p, Concat(gap), "}");
      MarkToken(s.text, q, "}", ObjectEnd);
      IsBehind(s.text, p, gap, q);
    case More(gap, separator, rest) =>
      OccursInTwo(s.text, p, Concat(gap), separator + MembersWritten(rest));
      OccursInTwo(s.text, q, separator, MembersWritten(rest));
      MembersStart(rest, s.scan, last);
      FirstAt(s.text, q + |separator|, MembersWritten(rest));
      if separator == "," {
        MarkToken(s.text, q, ",", ArraySeparator);
      } else {
        SeparatorToken(s.text, q, separator);
      }
      IsBehind(s.text, p, gap, q);
  }

  lemma {:induction false} AfterUnique(s: Source, p: nat, a: After, last: string, b: After, other: string)
    requires ValidAfter(a, s.scan, last) && Occurs(s.text, p, AfterWritten(a))
    requires ValidAfter(b, s.scan, other) && Occurs(s.text, p, AfterWritten(b))
    ensures a == b
    decreases a, 1
  {
    hide *;
    AfterTop(s, p, a, last);
    AfterTop(s, p, b, other);
    var kind := NextToken(s.text, p).kind;
    SameGap(s.text, p, a.gap, kind, b.gap, kind);
    if a.More? {
      var q := p + |Concat(a.gap)|;
      SameText(s.text, q, a.separator, b.separator);
      MembersUnique(s, q + |a.separator|, a.rest, last, b.rest, other);
    }
  }

  // ----- values -----

  lemma {:induction false} ValueUnique(s: Source, p: nat, d: Syntax, f: Syntax)
    requires StandsAs(s.text, p, p + |Written(d)|, d, s.scan) && StandsAs(s.text, p, p + |Written(f)|, f, s.scan)
    ensures d == f
    decreases d
  {
    hide *;
    SameSort(s, p, d, f);
    if d.Word? {
      WordUnique(s, p, d, f);
    } else {
      ContainerTop(s, p, d);
      ContainerTop(s, p, f);
      var q := p + |Concat(d.gap)|;
      match d
      case Empty(_, blanks) => SameText(s.text, q + 1, blanks, f.blanks);
      case Array(_, items) => ItemsUnique(s, q + 1, items, f.items);
      case Object(_, members) => MembersUnique(s, q + 1, members, "", f.members, "");
    }
  }

  /** Two trees at a place have the same constructor and the same gap. */
  lemma SameSort(s: Source, p: nat, d: Syntax, f: Syntax)
    requires StandsAs(s.text, p, p + |Written(d)|, d, s.scan) && StandsAs(s.text, p, p + |Written(f)|, f, s.scan)
    ensures d.Word? == f.Word? && d.Empty? == f.Empty? && d.Array? == f.Array? && d.Object? == f.Object? && d.gap == f.gap
  {
    hide *;
    Sort(s, p, d);
    Sort(s, p, f);
    var kind := NextToken(s.text, p).kind;
    SameGap(s.text, p, d.gap, kind, f.gap, kind);
  }

  lemma Sort(s: Source, p: nat, d: Syntax)
    requires StandsAs(s.text, p, p + |Written(d)|, d, s.scan)
    ensures var q, kind := p + |Concat(d.gap)|, NextToken(s.text, p).kind;
            && Behind(s.text, p, d.gap, kind)
            && (d.Object? <==> kind == ObjectBegin) && (d.Empty? || d.Array? <==> kind == ArrayBegin)
            && (kind == ArrayBegin ==> q < |s.text| && (d.Empty? <==> CharAt(s.text, SkipSpaces(s.text, q + 1)) == ']'))
  {
    hide *;
    if d.Word? {
      WordTop(s, p, d);
    } else {
      ContainerTop(s, p, d);
      KindBehind(s.text, p, d.gap, if d.Object? then ObjectBegin else ArrayBegin);
    }
  }

  lemma KindBehind(s: string, p: nat, gap: seq<string>, kind: TokenKind)
    requires Behind(s, p, gap, kind)
    ensures p <= |s| && NextToken(s, p).kind == kind
  {
    hide NextToken, IsGap, Concat, Occurs;
  }

  /** At most one tree stands at a place. */
  lemma Unambiguous(s: Source, p: nat, q: nat, d: Syntax, r: nat, f: Syntax)
    requires StandsAs(s.text, p, q, d, s.scan) && StandsAs(s.text, p, r, f, s.scan)
    ensures d == f && q == r
  {
    hide Valid, Written, Occurs, EndsAt;
    ValueUnique(s, p, d, f);
  }
}
