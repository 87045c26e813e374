/**
 How far the language of `Reader` goes beyond JSON with comments.  In a standard tree members are
 separated by commas and no separator stands before the closing brace; taking the comments out
 of such a tree gives a tree without comments that denotes the same.  Two documents show that
 other trees are read, too.
 */
module JsonStandard {
  import opened JsonValue
  import opened Optional
  import opened Decimals
  import opened JsonNumber
  import opened JsonLexer
  import opened JsonLiteral
  import opened JsonTokens
  import opened JsonGrammar
  import opened JsonReader
  import opened JsonComplete
  import opened JsonSound
  import opened JsonSpans
  import opened JsonUnique

  predicate Standard(d: Syntax) {
    match d
    case Word(_, _, _) => true
    case Empty(_, _) => true
    case Array(_, items) => StandardItems(items)
    case Object(_, members) => StandardMembers(members, true)
  }

  predicate StandardItems(i: Items) {
    Standard(i.value) && (i.NextItem? ==> StandardItems(i.rest))
  }

  predicate StandardMembers(m: Members, first: bool) {
    match m
    case NoMember(_) => first
    case Member(_, _, _, _, value, after) =>
      Standard(value) && (after.More? ==> after.separator == "," && StandardMembers(after.rest, false))
  }

  // ----- when a tree is standard -----

  /** Behind a comment a comma separates members, and no separator ends the members behind an empty name. */
  predicate Careful(d: Syntax) {
    match d
    case Word(_, _, _) => true
    case Empty(_, _) => true
    case Array(_, items) => CarefulItems(items)
    case Object(_, members) => CarefulMembers(members)
  }

  predicate CarefulItems(i: Items) {
    Careful(i.value) && (i.NextItem? ==> CarefulItems(i.rest))
  }

  predicate CarefulMembers(m: Members) {
    m.Member? ==>
      && Careful(m.value)
      && (m.after.More? ==>
            && (HasComment(m.after.gap) ==> m.after.separator == ",")
            && (m.name == "" ==> m.after.rest.Member?)
            && CarefulMembers(m.after.rest))
  }

  /** A tree of the language is standard exactly if it takes care in these two places. */
  lemma {:induction false} StandardIff(d: Syntax, scan: string -> Option<real>)
    requires Valid(d, scan)
    ensures Standard(d) <==> Careful(d)
    decreases d
  {
    match d
    case Array(_, items) => StandardItemsIff(items, scan);
    case Object(_, members) => StandardMembersIff(members, scan, "", true);
    case _ =>
  }

  lemma {:induction false} StandardItemsIff(i: Items, scan: string -> Option<real>)
    requires ValidItems(i, scan)
    ensures StandardItems(i) <==> CarefulItems(i)
    decreases i
  {
    StandardIff(i.value, scan);
    if i.NextItem? {
      StandardItemsIff(i.rest, scan);
    }
  }

  lemma {:induction false} StandardMembersIff(m: Members, scan: string -> Option<real>, last: string, first: bool)
    requires ValidMembers(m, scan, last)
    ensures first || m.Member? ==> (StandardMembers(m, first) <==> CarefulMembers(m))
    decreases m
  {
    if m.Member? {
      StandardIff(m.value, scan);
      if m.after.More? {
        StandardMembersIff(m.after.rest, scan, m.name, false);
      }
    }
  }

  // ----- taking the comments out -----

  function Blanks(gap: seq<string>): seq<string> {
    if gap == [] then [] else (if IsComment(gap[0]) then [] else [gap[0]]) + Blanks(gap[1..])
  }

  function Stripped(d: Syntax): Syntax {
    match d
    case Word(gap, text, data) => Word(Blanks(gap), text, data)
    case Empty(gap, blanks) => Empty(Blanks(gap), blanks)
    case Array(gap, items) => Array(Blanks(gap), StrippedItems(items))
    case Object(gap, members) => Object(Blanks(gap), StrippedMembers(members))
  }

  function StrippedItems(i: Items): Items {
    match i
    case LastItem(value, gap) => LastItem(Stripped(value), Blanks(gap))
    case NextItem(value, gap, rest) => NextItem(Stripped(value), Blanks(gap), StrippedItems(rest))
  }

  function StrippedMembers(m: Members): Members {
    match m
    case NoMember(gap) => NoMember(Blanks(gap))
    case Member(gap, literal, name, blanks, value, after) =>
      Member(Blanks(gap), literal, name, blanks, Stripped(value), StrippedAfter(after))
  }

  function StrippedAfter(a: After): After {
    match a
    case Close(gap) => Close(Blanks(gap))
    case More(gap, separator, rest) => After.More(Blanks(gap), separator, StrippedMembers(rest))
  }

  /** No gap has a comment. */
  predicate CommentFree(d: Syntax) {
    && !HasComment(d.gap)
    && match d
       case Word(_, _, _) => true
       case Empty(_, _) => true
       case Array(_, items) => CommentFreeItems(items)
       case Object(_, members) => CommentFreeMembers(members)
  }

  predicate CommentFreeItems(i: Items) {
    !HasComment(i.gap) && CommentFree(i.value) && (i.NextItem? ==> CommentFreeItems(i.rest))
  }

  predicate CommentFreeMembers(m: Members) {
    && !HasComment(m.gap)
    && (m.Member? ==> CommentFree(m.value) && !HasComment(m.after.gap) && (m.after.More? ==> CommentFreeMembers(m.after.rest)))
  }

  lemma {:induction false} BlanksAreGap(gap: seq<string>)
    requires IsGap(gap)
    ensures IsGap(Blanks(gap)) && !HasComment(Blanks(gap))
  {
    hide GapUnit, IsComment;
    if gap != [] {
      BlanksAreGap(gap[1..]);
    }
  }

  /** A standard tree is JSON once its comments are out, and denotes what it did. */
  lemma {:induction false} StrippedIsJson(d: Syntax, scan: string -> Option<real>)
    requires Valid(d, scan) && Standard(d)
    ensures Valid(Stripped(d), scan) && Standard(Stripped(d)) && CommentFree(Stripped(d)) && Meaning(Stripped(d)) == Meaning(d)
    decreases d
  {
    hide IsGap, HasComment, WordDenotes, AllBlank, Blanks;
    BlanksAreGap(d.gap);
    match d
    case Array(_, items) => StrippedItemsJson(items, scan, [], 0);
    case Object(_, members) => StrippedMembersJson(members, scan, "", true, []);
    case _ =>
  }

  lemma {:induction false} StrippedItemsJson(i: Items, scan: string -> Option<real>, es: seq<Entry>, index: nat)
    requires ValidItems(i, scan) && StandardItems(i)
    ensures ValidItems(StrippedItems(i), scan) && StandardItems(StrippedItems(i)) && CommentFreeItems(StrippedItems(i))
    ensures ItemsMeaning(StrippedItems(i), es, index) == ItemsMeaning(i, es, index)
    decreases i
  {
    hide IsGap, HasComment, Blanks, Put, Valid, Standard, CommentFree, Meaning, Stripped;
    BlanksAreGap(i.gap);
    StrippedIsJson(i.value, scan);
    if i.NextItem? {
      StrippedItemsJson(i.rest, scan, Put(es, Index(index), Meaning(i.value)), index + 1);
    }
  }

  lemma {:induction false} StrippedMembersJson(m: Members, scan: string -> Option<real>, last: string, first: bool, es: seq<Entry>)
    requires ValidMembers(m, scan, last) && StandardMembers(m, first)
    ensures var w := StrippedMembers(m);
            ValidMembers(w, scan, last) && StandardMembers(w, first) && CommentFreeMembers(w) && MembersMeaning(w, es) == MembersMeaning(m, es)
    decreases m
  {
    hide IsGap, HasComment, Blanks, Put, Valid, Standard, CommentFree, Meaning, Stripped, Denotes, AllBlank, CStr, IsSeparator;
    BlanksAreGap(m.gap);
    if m.Member? {
      BlanksAreGap(m.after.gap);
      StrippedIsJson(m.value, scan);
      if m.after.More? {
        StrippedMembersJson(m.after.rest, scan, m.name, false, Put(es, Name(CStr(m.name)), Meaning(m.value)));
      }
    }
  }

  /** A tree of JSON with comments stands at a place. */
  ghost predicate JsonStands(s: Source, p: nat) {
    exists q: nat, d :: StandsAs(s.text, p, q, d, s.scan) && Standard(d)
  }

  lemma JsonStandsIff(s: Source, p: nat, q: nat, d: Syntax)
    requires StandsAs(s.text, p, q, d, s.scan)
    ensures JsonStands(s, p) <==> Standard(d)
  {
    hide StandsAs, Standard;
    forall r: nat, f | StandsAs(s.text, p, r, f, s.scan) ensures f == d {
      Unambiguous(s, p, q, d, r, f);
    }
  }

  /**
   What is read with care in the two places is, its comments taken out, a text of JSON that
   denotes the value; without it no such text stands there.
   */
  lemma ReadIsJson(s: Source, p: nat) returns (d: Syntax)
    requires p <= |s.text| && s.ReadValue(p).Ok?
    ensures StandsAs(s.text, p, s.ReadValue(p).pos, d, s.scan) && Meaning(d) == Plain(s.ReadValue(p).value)
    ensures JsonStands(s, p) <==> Careful(d)
    ensures Careful(d) ==> Valid(Stripped(d), s.scan) && CommentFree(Stripped(d)) && Meaning(Stripped(d)) == Meaning(d)
  {
    hide Source.ReadValue, Valid, Standard, Careful, Stripped, CommentFree, Meaning, Plain, Written;
    d := ValueSound(s, p);
    hide JsonStands;
    StandardIff(d, s.scan);
    JsonStandsIff(s, p, s.ReadValue(p).pos, d);
    if Standard(d) {
      StrippedIsJson(d, s.scan);
    }
  }

  // ----- documents that are read although they are no JSON -----

  lemma LetterDenotes(c: char)
    requires 'a' <= c <= 'z'
    ensures Denotes(['"', c, '"'], [c])
  {
    var ps := [Single(c)];
    assert ps[1..] == [];
    assert PiecesText(ps) == [c] && PiecesMeaning(ps) == [c];
    assert "\"" + [c] + "\"" == ['"', c, '"'];
  }

  lemma EmptyDenotes()
    ensures Denotes(['"', '"'], "")
  {
    assert PiecesText([]) == "" && PiecesMeaning([]) == "" && ValidPieces([]);
    assert "\"" + "" + "\"" == ['"', '"'];
  }

  function DigitWord(c: char): Syntax
    requires IsDigit(c)
  {
    Word([], [c], Int(DigitValue(c)))
  }

  lemma DigitWordIsValid(c: char, scan: string -> Option<real>)
    requires IsDigit(c)
    ensures Valid(DigitWord(c), scan) && Written(DigitWord(c)) == [c]
  {
    NumberCharacterIs(c);
    assert [c][..0] == [];
    assert NatOf([c]) == DigitValue(c) by { assert NatOf([]) == 0; }
    hide NumberCharacter, NatOf;
    assert IsNumber([c]) && IsInteger([c]) && IntegerOf([c]) == DigitValue(c);
    assert Concat([]) + [c] == [c];
  }

  /** A member of one letter whose value is a digit. */
  function LetterMember(c: char, digit: char, after: After): Members
    requires IsDigit(digit)
  {
    Member([], ['"', c, '"'], [c], "", DigitWord(digit), after)
  }

  lemma LetterMemberIsValid(c: char, digit: char, after: After, scan: string -> Option<real>)
    requires 'a' <= c <= 'z' && IsDigit(digit) && ValidAfter(after, scan, [c])
    ensures ValidMembers(LetterMember(c, digit, after), scan, "")
    ensures forall last :: ValidMembers(LetterMember(c, digit, after), scan, last)
    ensures MembersWritten(LetterMember(c, digit, after)) == ['"', c, '"', ':', digit] + AfterWritten(after)
  {
    hide Denotes, Valid, ValidAfter, Written, AfterWritten;
    LetterDenotes(c);
    DigitWordIsValid(digit, scan);
    assert IsGap([]) && AllBlank("") && Concat([]) == "";
    var rest := [digit] + AfterWritten(after);
    assert "" + (['"', c, '"'] + ("" + (":" + rest))) == ['"', c, '"', ':', digit] + AfterWritten(after);
  }

  lemma WholeIsRead(s: Source, d: Syntax)
    requires Valid(d, s.scan) && d.Object? && s.text == Written(d)
    ensures ReadsAs(s.ReadValue(0), |s.text|, Meaning(d)) && StandsAs(s.text, 0, |s.text|, d, s.scan)
  {
    hide Valid, Written, Source.ReadValue;
    assert Occurs(s.text, 0, Written(d));
    ValueComplete(s, 0, d);
  }

  lemma SemicolonIsSeparator()
    ensures IsSeparator(";") && IsGap(["/**/"]) && HasComment(["/**/"]) && Concat(["/**/"]) == "/**/"
  {
    var u := "/**/";
    assert CloseAt(u, 2);
    assert BlockComment(u, 0, 4);
    assert ["/**/"][0] == u && ["/**/"][1..] == [];
    StrayOnly(';');
  }

  lemma SemicolonAfter(after: After, scan: string -> Option<real>)
    requires after == After.More(["/**/"], ";", LetterMember('b', '2', Close([])))
    ensures ValidAfter(after, scan, "a") && AfterWritten(after) == "/**/;\"b\":2}"
  {
    hide Denotes, IsNumber, IsComment, IsSeparator, LetterMember, HasComment, IsGap, Concat, MembersWritten;
    SemicolonIsSeparator();
    CloseIsValid(scan, "b");
    LetterMemberIsValid('b', '2', Close([]), scan);
    hide ValidMembers;
    assert ['"', 'b', '"', ':', '2'] + "}" == "\"b\":2}";
    assert "/**/" + (";" + "\"b\":2}") == "/**/;\"b\":2}";
  }

  /** Behind a comment a semicolon separates members. */
  lemma SemicolonSeparates(s: Source, d: Syntax)
    requires d == Object([], LetterMember('a', '1', After.More(["/**/"], ";", LetterMember('b', '2', Close([])))))
    requires s.text == "{\"a\":1/**/;\"b\":2}"
    ensures Written(d) == s.text && !JsonStands(s, 0) && ReadsAs(s.ReadValue(0), |s.text|, Meaning(d))
  {
    assert IsDigit('1') && IsDigit('2');
    hide *;
    SemicolonIsNotStandard(d);
    var after := After.More(["/**/"], ";", LetterMember('b', '2', Close([])));
    SemicolonAfter(after, s.scan);
    LetterMemberIsValid('a', '1', after, s.scan);
    ObjectWritten(d, s.scan);
    SemicolonText(s.text);
    WholeIsRead(s, d);
    JsonStandsIff(s, 0, |s.text|, d);
  }

  lemma SemicolonText(t: string)
    requires t == "{\"a\":1/**/;\"b\":2}"
    ensures "{" + (['"', 'a', '"', ':', '1'] + "/**/;\"b\":2}") == t
  {
  }

  lemma SemicolonIsNotStandard(d: Syntax)
    requires d == Object([], LetterMember('a', '1', After.More(["/**/"], ";", LetterMember('b', '2', Close([])))))
    ensures !Standard(d)
  {
  }

  lemma CloseIsValid(scan: string -> Option<real>, last: string)
    ensures ValidAfter(Close([]), scan, last) && AfterWritten(Close([])) == "}"
  {
  }

  lemma ObjectWritten(d: Syntax, scan: string -> Option<real>)
    requires d.Object? && d.gap == [] && ValidMembers(d.members, scan, "")
    ensures Valid(d, scan) && Written(d) == "{" + MembersWritten(d.members)
  {
    hide ValidMembers, MembersWritten, WordDenotes, ValidItems, ItemsWritten;
    assert IsGap([]) && Concat([]) == "";
    assert "" + ("{" + MembersWritten(d.members)) == "{" + MembersWritten(d.members);
  }

  /** A comma may stand behind a last member whose name is empty. */
  lemma TrailingComma(s: Source, d: Syntax)
    requires d == Object([], Member([], ['"', '"'], "", "", DigitWord('1'), After.More([], ",", NoMember([]))))
    requires s.text == "{\"\":1,}"
    ensures Written(d) == s.text && !JsonStands(s, 0) && ReadsAs(s.ReadValue(0), |s.text|, Meaning(d))
  {
    assert IsDigit('1');
    hide *;
    TrailingIsNotStandard(d);
    CommaAfter(After.More([], ",", NoMember([])), s.scan);
    UnnamedMember(d.members, s.scan);
    ObjectWritten(d, s.scan);
    TrailingText(s.text);
    WholeIsRead(s, d);
    JsonStandsIff(s, 0, |s.text|, d);
  }

  lemma TrailingText(t: string)
    requires t == "{\"\":1,}"
    ensures "{" + (['"', '"', ':', '1'] + ",}") == t
  {
  }

  lemma TrailingIsNotStandard(d: Syntax)
    requires d == Object([], Member([], ['"', '"'], "", "", DigitWord('1'), After.More([], ",", NoMember([]))))
    ensures !Standard(d)
  {
  }

  lemma CommaAfter(after: After, scan: string -> Option<real>)
    requires after == After.More([], ",", NoMember([]))
    ensures ValidAfter(after, scan, "") && AfterWritten(after) == ",}"
  {
    hide IsSeparator;
    assert IsGap([]) && Concat([]) == "";
  }

  lemma UnnamedMember(m: Members, scan: string -> Option<real>)
    requires m.Member? && m.gap == [] && m.literal == ['"', '"'] && m.name == "" && m.blanks == "" && m.value == DigitWord('1')
    requires ValidAfter(m.after, scan, "")
    ensures ValidMembers(m, scan, "") && MembersWritten(m) == ['"', '"', ':', '1'] + AfterWritten(m.after)
  {
    hide Denotes, Valid, ValidAfter, Written, AfterWritten, DigitWord;
    EmptyDenotes();
    DigitWordIsValid('1', scan);
    assert IsGap([]) && AllBlank("") && Concat([]) == "";
    var rest := ['1'] + AfterWritten(m.after);
    assert "" + (['"', '"'] + ("" + (":" + rest))) == ['"', '"', ':', '1'] + AfterWritten(m.after);
  }

  /** In an array a semicolon does not separate. */
  lemma SemicolonInArrayFails(s: Source)
    requires |s.text| >= 3 && s.text[0] == '[' && IsDigit(s.text[1]) && s.text[2] == ';'
    ensures s.ReadValue(0).Fail?
  {
    hide *;
    var text := s.text;
    OneOccurs(text, 0, '[');
    MarkToken(text, 0, "[", ArrayBegin);
    NextAtToken(text, 0);
    ContainerUnfold(s, 0);
    DigitIsVisible(text[1]);
    ItemsOpenAt(s, 1, 0);
    DigitIsRead(s, 1);
    ItemsSplit(s, 1, [], 0, 0);
    SemicolonIsError(text, 2);
    NextAtToken(text, 2);
  }

  lemma DigitIsVisible(c: char)
    requires IsDigit(c)
    ensures !IsSpace(c) && c != ']'
  {
  }

  lemma DigitIsRead(s: Source, p: nat)
    requires p + 1 < |s.text| && IsDigit(s.text[p]) && s.text[p + 1] == ';'
    ensures s.ReadValue(p).Ok? && s.ReadValue(p).pos == p + 1
  {
    var d := DigitWord(s.text[p]);
    assert !NumberCharacter(';') by { NumberCharacterIs(';'); }
    hide Source.ReadValue, Valid, Written, NumberCharacter;
    DigitWordIsValid(s.text[p], s.scan);
    OneOccurs(s.text, p, s.text[p]);
    ValueComplete(s, p, d);
  }

  lemma NextAtToken(s: string, q: nat)
    requires q < |s| && !IsSpace(s[q]) && TokenAt(s, q).kind != Comment
    ensures NextToken(s, q) == TokenAt(s, q)
  {
    hide TokenAt;
    assert SkipSpaces(s, q) == q;
  }

  lemma ItemsOpenAt(s: Source, p: nat, start: nat)
    requires p < |s.text| && !IsSpace(s.text[p]) && s.text[p] != ']'
    ensures s.ReadArray(p, start) == s.ReadItems(p, [], 0, start)
  {
    hide Source.ReadItems;
    assert SkipSpaces(s.text, p) == p;
  }

  lemma SemicolonIsError(s: string, q: nat)
    requires q < |s| && s[q] == ';'
    ensures TokenAt(s, q) == Token(ErrorToken, q, q + 1) && !IsSpace(s[q])
  {
    hide ScanString, ScanComment, ScanNumber, ScanWord;
  }
}
