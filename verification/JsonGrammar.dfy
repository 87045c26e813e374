/**
 The language `Reader` accepts, as syntax trees with their texts.  Every token has the gap of
 blanks and comments before it.  The rules are those of JSON with these additions: a number is
 any spelling that decodes, a comment behind a member lets any token separate it from the next
 one, and a separator may follow a last member whose name is empty.
 */
module JsonGrammar {
  import opened JsonValue
  import opened Optional
  import opened JsonNumber
  import opened JsonLexer
  import opened JsonLiteral
  import opened JsonTokens

  // ----- gaps -----

  predicate Blank(c: char) {
    Among(c, " \t\r\n")
  }

  predicate AllBlank(b: string) {
    forall i :: 0 <= i < |b| ==> Blank(b[i])
  }

  /** A comment that ends before the document does. */
  predicate IsComment(u: string) {
    BlockComment(u, 0, |u|) || (LineComment(u, 0, |u|) && |u| > 2 && IsNewline(u[|u| - 1]))
  }

  predicate GapUnit(u: string) {
    (|u| == 1 && Blank(u[0])) || IsComment(u)
  }

  predicate IsGap(gap: seq<string>) {
    forall i :: 0 <= i < |gap| ==> GapUnit(gap[i])
  }

  predicate HasComment(gap: seq<string>) {
    exists i :: 0 <= i < |gap| && IsComment(gap[i])
  }

  // ----- trees -----

  datatype Syntax =
    | Word(gap: seq<string>, text: string, data: Data)
    | Empty(gap: seq<string>, blanks: string)
    | Array(gap: seq<string>, items: Items)
    | Object(gap: seq<string>, members: Members)

  datatype Items =
    | LastItem(value: Syntax, gap: seq<string>)
    | NextItem(value: Syntax, gap: seq<string>, rest: Items)

  datatype Members =
    | NoMember(gap: seq<string>)
    | Member(gap: seq<string>, literal: string, name: string, blanks: string, value: Syntax, after: After)

  datatype After =
    | Close(gap: seq<string>)
    | More(gap: seq<string>, separator: string, rest: Members)

  // ----- texts -----

  function Written(d: Syntax): string {
    match d
    case Word(gap, text, _) => Concat(gap) + text
    case Empty(gap, blanks) => Concat(gap) + ("[" + (blanks + "]"))
    case Array(gap, items) => Concat(gap) + ("[" + ItemsWritten(items))
    case Object(gap, members) => Concat(gap) + ("{" + MembersWritten(members))
  }

  function ItemsWritten(i: Items): string {
    match i
    case LastItem(value, gap) => Written(value) + (Concat(gap) + "]")
    case NextItem(value, gap, rest) => Written(value) + (Concat(gap) + ("," + ItemsWritten(rest)))
  }

  function MembersWritten(m: Members): string {
    match m
    case NoMember(gap) => Concat(gap) + "}"
    case Member(gap, literal, _, blanks, value, after) =>
      Concat(gap) + (literal + (blanks + (":" + (Written(value) + AfterWritten(after)))))
  }

  function AfterWritten(a: After): string {
    match a
    case Close(gap) => Concat(gap) + "}"
    case More(gap, separator, rest) => Concat(gap) + (separator + MembersWritten(rest))
  }

  // ----- what holds of the trees of the language -----

  /** The spelling of a number: it starts like one and has number characters only. */
  predicate IsNumber(t: string) {
    NumberRun(t, 0, |t|)
  }

  /** An integer in 64-bit range denotes itself, tagged by its size; the C library decides all else. */
  predicate NumberDenotes(t: string, scan: string -> Option<real>, d: Data) {
    if IsInteger(t) && -9223372036854775808 <= IntegerOf(t) <= 2147483647 then d == Int(IntegerOf(t))
    else if IsInteger(t) && 2147483647 < IntegerOf(t) <= 18446744073709551615 then d == UInt(IntegerOf(t))
    else scan(t).Some? && d == Real(scan(t).value)
  }

  ghost predicate WordDenotes(t: string, scan: string -> Option<real>, d: Data) {
    || (t == "null" && d == Null)
    || (t == "true" && d == Bool(true))
    || (t == "false" && d == Bool(false))
    || (IsNumber(t) && NumberDenotes(t, scan, d))
    || (d.Str? && d.text.Some? && exists x :: Denotes(t, x) && d.text.value == CStr(x))
  }

  /** One character no token starts with or a word does not go on from, or a slash that starts no comment. */
  predicate IsStray(x: string) {
    || (|x| == 1 && !Among(x[0], "{}[],:\"/-0123456789 \t\r\n\0"))
    || (|x| == 2 && x[0] == '/' && x[1] != '*' && x[1] != '/')
  }

  /** What may separate members behind a comment: any token but the closing brace. */
  ghost predicate IsSeparator(x: string) {
    x == "," || x == ":" || x == "[" || x == "]" || x == "{" || x == "true" || x == "false" || x == "null" || x == "\0"
    || IsNumber(x) || IsLiteral(x) || IsStray(x)
  }

  ghost predicate Valid(d: Syntax, scan: string -> Option<real>) {
    && IsGap(d.gap)
    && match d
       case Word(_, text, data) => WordDenotes(text, scan, data)
       case Empty(_, blanks) => AllBlank(blanks)
       case Array(_, items) => ValidItems(items, scan)
       case Object(_, members) => ValidMembers(members, scan, "")
  }

  ghost predicate ValidItems(i: Items, scan: string -> Option<real>) {
    && Valid(i.value, scan) && IsGap(i.gap)
    && (i.NextItem? ==> ValidItems(i.rest, scan))
  }

  /** `last` is the name of the member before, empty if there is none. */
  ghost predicate ValidMembers(m: Members, scan: string -> Option<real>, last: string) {
    && IsGap(m.gap)
    && match m
       case NoMember(_) => last == ""
       case Member(_, literal, name, blanks, value, after) =>
         Denotes(literal, name) && AllBlank(blanks) && Valid(value, scan) && ValidAfter(after, scan, name)
  }

  ghost predicate ValidAfter(a: After, scan: string -> Option<real>, last: string) {
    && IsGap(a.gap)
    && match a
       case Close(_) => true
       case More(gap, separator, rest) =>
         (separator == "," || (HasComment(gap) && IsSeparator(separator))) && ValidMembers(rest, scan, last)
  }

  // ----- what the trees denote -----

  function Meaning(d: Syntax): Value {
    match d
    case Word(_, _, data) => Value(data, 0, 0)
    case Empty(_, _) => Value(Arr([]), 0, 0)
    case Array(_, items) => Value(Arr(ItemsMeaning(items, [], 0)), 0, 0)
    case Object(_, members) => Value(Obj(MembersMeaning(members, [])), 0, 0)
  }

  /** The elements in order, numbered from `index`. */
  function ItemsMeaning(i: Items, es: seq<Entry>, index: nat): seq<Entry>
    decreases i
  {
    var all := Put(es, Index(index), Meaning(i.value));
    if i.NextItem? then ItemsMeaning(i.rest, all, index + 1) else all
  }

  /** The members in order; a later one replaces an earlier one of the same name. */
  function MembersMeaning(m: Members, es: seq<Entry>): seq<Entry>
    decreases m
  {
    match m
    case NoMember(_) => es
    case Member(_, _, name, _, value, after) => AfterMeaning(after, Put(es, Name(CStr(name)), Meaning(value)))
  }

  function AfterMeaning(a: After, es: seq<Entry>): seq<Entry>
    decreases a
  {
    match a
    case Close(_) => es
    case More(_, _, rest) => MembersMeaning(rest, es)
  }

  /** What follows a tree does not run on from it: only a number could. */
  predicate EndsAt(s: string, e: nat, d: Syntax) {
    d.Word? && IsNumber(d.text) && e < |s| ==> !NumberCharacter(s[e])
  }

  /** The tree stands in the document from `p` to `e`. */
  ghost predicate StandsAs(s: string, p: nat, e: nat, d: Syntax, scan: string -> Option<real>) {
    Valid(d, scan) && Occurs(s, p, Written(d)) && e == p + |Written(d)| && EndsAt(s, e, d)
  }
}
