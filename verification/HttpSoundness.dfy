/**
 The converse: whatever the parser accepts is a sentence.  While the parser runs, a partial
 sentence is kept whose text is what was consumed so far and whose meaning is the request so far.
 */
module HttpSoundness {
  import opened Decimals
  import opened HttpParser
  import opened HttpGrammar

  function Order(st: State): nat {
    match st
    case MethodStart => 0
    case Method => 1
    case Uri => 2
    case VersionH => 3
    case VersionT1 => 4
    case VersionT2 => 5
    case VersionP => 6
    case VersionSlash => 7
    case MajorStart => 8
    case Major => 9
    case MinorStart => 10
    case Minor => 11
    case ExpectingNewline1 => 12
    case _ => 13
  }

  function Last<T>(s: seq<T>): T
    requires s != []
  {
    s[|s| - 1]
  }

  function Init<T>(s: seq<T>): seq<T>
    requires s != []
  {
    s[..|s| - 1]
  }

  // ----- the part of the request line seen so far -----

  function Protocol(st: State): string {
    match st
    case VersionH => " "
    case VersionT1 => " H"
    case VersionT2 => " HT"
    case VersionP => " HTT"
    case VersionSlash => " HTTP"
    case MajorStart => " HTTP/"
    case _ => ""
  }

  function SeenLine(st: State, x: Sentence): string {
    var start := x.httpMethod + " " + x.uri;
    match st
    case MethodStart => ""
    case Method => x.httpMethod
    case Uri => start
    case VersionH | VersionT1 | VersionT2 | VersionP | VersionSlash | MajorStart => start + Protocol(st)
    case Major => start + " HTTP/" + x.major
    case MinorStart => start + " HTTP/" + x.major + "."
    case Minor => start + " HTTP/" + x.major + "." + x.minor
    case ExpectingNewline1 => start + " HTTP/" + x.major + "." + x.minor + "\r"
    case _ => RequestLine(x)
  }

  /** The part of the header lines seen so far. */
  function SeenLines(st: State, ls: seq<Line>): string {
    if !InHeader(st) || ls == [] then LinesText(ls) + if st == ExpectingNewline3 then "\r" else ""
    else
      LinesText(Init(ls)) +
      (match st
       case HeaderName => Last(ls).name
       case SpaceBeforeHeaderValue => Last(ls).name + ":"
       case ExpectingNewline2 => LineText(Last(ls)) + "\r"
       case _ => LineText(Last(ls)))
  }

  function Seen(st: State, x: Sentence): string {
    SeenLine(st, x) + SeenLines(st, x.lines)
  }

  // ----- what holds of the partial sentence -----

  predicate GoodLine(st: State, x: Sentence) {
    && TokenChars(x.httpMethod) && (x.httpMethod == [] <==> Order(st) == 0)
    && UriChars(x.uri) && (Order(st) < 2 ==> x.uri == [])
    && AllDigits(x.major) && (x.major == [] <==> Order(st) < 9)
    && AllDigits(x.minor) && (x.minor == [] <==> Order(st) < 11)
  }

  predicate GoodLines(st: State, ls: seq<Line>) {
    && ValidLines(ls)
    && (Order(st) < 13 ==> ls == [])
    && (InHeader(st) ==> ls != [])
    && (st == HeaderName || st == SpaceBeforeHeaderValue ==> Last(ls).value == [] && Last(ls).folds == [])
    && (st == HeaderValue ==> Last(ls).folds == [] || Last(Last(ls).folds).text != [])
    && (st == HeaderLws ==> Last(ls).folds != [] && Last(Last(ls).folds).text == [])
  }

  predicate Agrees(st: State, x: Sentence, r: Contents) {
    && r.httpMethod == x.httpMethod && r.uri == x.uri && r.headers == HeadersOf(x.lines)
    && AllDigits(x.major) && AllDigits(x.minor)
    && (Order(st) >= 8 ==> r.major == NatOf(x.major) && r.minor == NatOf(x.minor))
  }

  predicate Tracks(st: State, x: Sentence, r: Contents) {
    GoodLine(st, x) && GoodLines(st, x.lines) && Agrees(st, x, r)
  }

  /** The partial sentence after one more character. */
  function Grown(st: State, x: Sentence, c: char): Sentence {
    match st
    case MethodStart => x.(httpMethod := x.httpMethod + [c])
    case Method => if c == ' ' then x else x.(httpMethod := x.httpMethod + [c])
    case Uri => if c == ' ' then x else x.(uri := x.uri + [c])
    case MajorStart => x.(major := x.major + [c])
    case Major => if c == '.' then x else x.(major := x.major + [c])
    case MinorStart => x.(minor := x.minor + [c])
    case Minor => if c == '\r' then x else x.(minor := x.minor + [c])
    case _ => x.(lines := GrownLines(st, x.lines, c))
  }

  function GrownLines(st: State, ls: seq<Line>, c: char): seq<Line> {
    if st == HeaderLineStart && c != '\r' && (ls == [] || !IsBlank(c)) then ls + [Line([c], "", [])]
    else if ls == [] || c == '\r' then ls
    else if st == HeaderLineStart || st == HeaderName || st == HeaderLws || st == HeaderValue then
      Init(ls) + [GrownLast(st, Last(ls), c)]
    else ls
  }

  function GrownLast(st: State, l: Line, c: char): Line {
    if st == HeaderLineStart then l.(folds := l.folds + [Fold([c], "")])
    else if st == HeaderName then (if c == ':' then l else l.(name := l.name + [c]))
    else if l.folds == [] then l.(value := l.value + [c])
    else
      var f := Last(l.folds);
      l.(folds := Init(l.folds) +
                  [if st == HeaderLws && IsBlank(c) then f.(blanks := f.blanks + [c]) else f.(text := f.text + [c])])
  }

  // ----- texts and meanings of grown sentences -----

  lemma {:induction false} LinesTextAppend(ls: seq<Line>, l: Line)
    ensures LinesText(ls + [l]) == LinesText(ls) + LineText(l) + "\r\n"
  {
    hide LineText;
    if ls == [] {
      assert [l][1..] == [] && [] + [l] == [l];
      assert LinesText([l]) == LineText(l) + "\r\n" + LinesText([]);
    } else {
      assert (ls + [l])[1..] == ls[1..] + [l];
      LinesTextAppend(ls[1..], l);
    }
  }

  lemma FoldsAppend(fs: seq<Fold>, f: Fold)
    ensures FoldsText(fs + [f]) == FoldsText(fs) + "\r\n" + f.blanks + f.text
    ensures Unfolded(fs + [f]) == Unfolded(fs) + f.text
  {
    hide *;
    FoldsInTwo(fs, [f]);
    FoldsCons(f, []);
    NoFolds();
    assert [f] + [] == [f] && f.text + [] == f.text;
    assert FoldsText(fs) + ("\r\n" + f.blanks + f.text + []) == FoldsText(fs) + "\r\n" + f.blanks + f.text;
  }

  lemma InitLast<T>(s: seq<T>)
    requires s != []
    ensures s == Init(s) + [Last(s)]
  {
  }

  /** A character added to the open value, in the last continuation line if there is one. */
  lemma ValueGrows(st: State, l: Line, c: char)
    requires ValidLine(l) && !IsCtl(c)
    requires st == HeaderValue || (st == HeaderLws && !IsBlank(c))
    requires st == HeaderValue ==> l.folds == [] || Last(l.folds).text != []
    requires st == HeaderLws ==> l.folds != [] && Last(l.folds).text == []
    ensures var g := GrownLast(st, l, c);
            && ValidLine(g) && LineText(g) == LineText(l) + [c]
            && HeaderOf(g) == Header(l.name, HeaderOf(l).value + [c])
            && (g.folds == [] || Last(g.folds).text != [])
  {
    hide IsCtl, IsBlank, IsTokenChar;
    var g := GrownLast(st, l, c);
    if l.folds != [] {
      var i, f := Init(l.folds), Last(l.folds);
      var f' := f.(text := f.text + [c]);
      InitLast(l.folds);
      FoldsAppend(i, f);
      FoldsAppend(i, f');
      assert ValidFold(f');
      assert g.folds == i + [f'];
      assert l.name + ": " + l.value + (FoldsText(i) + "\r\n" + f.blanks + (f.text + [c])) == LineText(l) + [c];
      assert l.value + (Unfolded(i) + (f.text + [c])) == l.value + Unfolded(l.folds) + [c];
    } else {
      assert FoldsText([]) == [] && Unfolded([]) == [];
    }
  }

  lemma BlankAdded(f: Fold, c: char)
    requires ValidFold(f) && f.text == [] && IsBlank(c)
    ensures ValidFold(f.(blanks := f.blanks + [c]))
  {
  }

  lemma FoldsValid(fs: seq<Fold>, f: Fold)
    requires fs != [] && ValidFolds(fs) && ValidFold(f)
    ensures ValidFolds(Init(fs) + [f])
  {
    hide ValidFold;
  }

  /** A blank added to the last continuation line, which has no text yet. */
  lemma BlankGrows(l: Line, c: char)
    requires ValidLine(l) && IsBlank(c) && l.folds != [] && Last(l.folds).text == []
    ensures var g := GrownLast(HeaderLws, l, c);
            && ValidLine(g) && LineText(g) == LineText(l) + [c] && HeaderOf(g) == HeaderOf(l)
            && g.folds != [] && Last(g.folds).text == []
  {
    hide IsCtl, IsTokenChar;
    var i, f := Init(l.folds), Last(l.folds);
    var f' := f.(blanks := f.blanks + [c]);
    InitLast(l.folds);
    FoldsAppend(i, f);
    FoldsAppend(i, f');
    BlankAdded(f, c);
    var g := GrownLast(HeaderLws, l, c);
    assert g.folds == i + [f'];
    assert ValidLine(g) by { FoldsValid(l.folds, f'); }
    hide ValidLine, FoldsText, Unfolded;
    assert FoldsText(i) + "\r\n" + (f.blanks + [c]) + [] == FoldsText(i) + "\r\n" + f.blanks + f.text + [c];
    assert l.name + ": " + l.value + (FoldsText(l.folds) + [c]) == LineText(l) + [c];
  }

  lemma FoldAdded(l: Line, f: Fold)
    requires ValidLine(l) && ValidFold(f)
    ensures ValidLine(l.(folds := l.folds + [f]))
  {
    hide ValidFold;
  }

  /** A blank at the start of a line opens a continuation of the last header. */
  lemma FoldOpens(l: Line, c: char)
    requires ValidLine(l) && IsBlank(c)
    ensures var g := GrownLast(HeaderLineStart, l, c);
            && ValidLine(g) && LineText(g) == LineText(l) + "\r\n" + [c] && HeaderOf(g) == HeaderOf(l)
            && g.folds != [] && Last(g.folds).text == []
  {
    hide IsCtl, IsTokenChar;
    var f := Fold([c], "");
    FoldsAppend(l.folds, f);
    FoldAdded(l, f);
    hide ValidLine, FoldsText, Unfolded;
    assert FoldsText(l.folds) + "\r\n" + [c] + "" == FoldsText(l.folds) + "\r\n" + [c];
    assert l.name + ": " + l.value + (FoldsText(l.folds) + "\r\n" + [c]) == LineText(l) + "\r\n" + [c];
    assert Unfolded(l.folds) + "" == Unfolded(l.folds);
  }

  lemma HeadersOfReplaced(ls: seq<Line>, g: Line)
    requires ls != []
    ensures HeadersOf(Init(ls) + [g]) == HeadersOf(ls)[|ls| - 1 := HeaderOf(g)]
    ensures ValidLines(ls) && ValidLine(g) ==> ValidLines(Init(ls) + [g])
  {
    hide HeaderOf, ValidLine;
  }

  lemma HeadersOfAdded(ls: seq<Line>, g: Line)
    ensures HeadersOf(ls + [g]) == HeadersOf(ls) + [HeaderOf(g)]
    ensures ValidLines(ls) && ValidLine(g) ==> ValidLines(ls + [g])
  {
    hide HeaderOf, ValidLine;
  }

  // ----- one step -----

  /** The step keeps the partial sentence in track. */
  predicate Kept(st: State, x: Sentence, c: char, n: Next) {
    var y := Grown(st, x, c);
    Tracks(n.state, y, n.contents) && Seen(n.state, y) == Seen(st, x) + [c]
  }

  lemma DigitAppended(ds: string, c: char)
    requires AllDigits(ds) && IsDigit(c)
    ensures AllDigits(ds + [c]) && NatOf(ds + [c]) == NatOf(ds) * 10 + DigitValue(c)
  {
    assert (ds + [c])[..|ds|] == ds;
  }

  /** Steps through the method. */
  lemma StepInMethod(st: State, x: Sentence, r: Contents, c: char)
    requires Order(st) < 2 && Ready(st, r) && Tracks(st, x, r) && Step(st, r, c).result == Indeterminate
    ensures Kept(st, x, c, Step(st, r, c))
  {
    hide IsCtl, IsTokenChar, RequestLine, LinesText, NatOf, HeaderOf;
    var n, y := Step(st, r, c), Grown(st, x, c);
    EmptyLinesText();
    assert x.httpMethod + " " + [] == x.httpMethod + " ";
    assert SeenLine(n.state, y) == SeenLine(st, x) + [c];
  }

  /** Steps through the URI. */
  lemma StepInUri(st: State, x: Sentence, r: Contents, c: char)
    requires st == Uri && Ready(st, r) && Tracks(st, x, r) && Step(st, r, c).result == Indeterminate
    ensures Kept(st, x, c, Step(st, r, c))
  {
    hide IsCtl, IsTokenChar, RequestLine, LinesText, NatOf, HeaderOf, TokenChars;
    var n, y, start := Step(st, r, c), Grown(st, x, c), x.httpMethod + " ";
    EmptyLinesText();
    assert start + (x.uri + [c]) == start + x.uri + [c];
    assert SeenLine(n.state, y) == SeenLine(st, x) + [c];
  }

  /** Steps through the name of the protocol. */
  lemma StepInProtocol(st: State, x: Sentence, r: Contents, c: char)
    requires 3 <= Order(st) < 7 && Ready(st, r) && Tracks(st, x, r) && Step(st, r, c).result == Indeterminate
    ensures Kept(st, x, c, Step(st, r, c))
  {
    hide IsCtl, IsTokenChar, RequestLine, LinesText, HeaderOf, TokenChars, UriChars, Protocol, NatOf;
    EmptyLinesText();
    ProtocolGrows(st, r, c);
    ProtocolSeen(st, x, c, Step(st, r, c).state);
  }

  lemma StepAtSlash(st: State, x: Sentence, r: Contents, c: char)
    requires st == VersionSlash && Ready(st, r) && Tracks(st, x, r) && Step(st, r, c).result == Indeterminate
    ensures Kept(st, x, c, Step(st, r, c))
  {
    assert NatOf([]) == 0;
    hide IsCtl, IsTokenChar, RequestLine, LinesText, HeaderOf, TokenChars, UriChars, Protocol, NatOf;
    EmptyLinesText();
    ProtocolGrows(st, r, c);
    ProtocolSeen(st, x, c, MajorStart);
  }

  lemma ProtocolSeen(st: State, x: Sentence, c: char, next: State)
    requires 3 <= Order(st) < 8 && 3 < Order(next) <= 8 && Protocol(next) == Protocol(st) + [c]
    ensures SeenLine(next, x) == SeenLine(st, x) + [c]
  {
    hide Protocol, RequestLine;
    var start := x.httpMethod + " " + x.uri;
    assert start + (Protocol(st) + [c]) == start + Protocol(st) + [c];
  }

  lemma ProtocolGrows(st: State, r: Contents, c: char)
    requires 3 <= Order(st) < 8 && Ready(st, r) && Step(st, r, c).result == Indeterminate
    ensures Protocol(Step(st, r, c).state) == Protocol(st) + [c] && 3 < Order(Step(st, r, c).state) <= 8
  {
  }

  lemma EmptyLinesText()
    ensures LinesText([]) == []
  {
  }

  /** Steps through the major version number. */
  lemma StepInMajor(st: State, x: Sentence, r: Contents, c: char)
    requires (st == MajorStart || st == Major) && Ready(st, r) && Tracks(st, x, r) && Step(st, r, c).result == Indeterminate
    ensures Kept(st, x, c, Step(st, r, c))
  {
    hide IsCtl, IsTokenChar, TokenChars, UriChars, LinesText, NatOf, RequestLine;
    var start := x.httpMethod + " " + x.uri + " HTTP/";
    EmptyLinesText();
    if IsDigit(c) {
      DigitAppended(x.major, c);
    }
    assert start + [] == start && start + (x.major + [c]) == start + x.major + [c];
    assert SeenLine(Step(st, r, c).state, Grown(st, x, c)) == SeenLine(st, x) + [c];
  }

  lemma StepInMinor(st: State, x: Sentence, r: Contents, c: char)
    requires (st == MinorStart || st == Minor) && Ready(st, r) && Tracks(st, x, r) && Step(st, r, c).result == Indeterminate
    ensures Kept(st, x, c, Step(st, r, c))
  {
    hide IsCtl, IsTokenChar, TokenChars, UriChars, LinesText, NatOf, RequestLine;
    var start := x.httpMethod + " " + x.uri + " HTTP/" + x.major + ".";
    EmptyLinesText();
    if IsDigit(c) {
      DigitAppended(x.minor, c);
    }
    assert start + [] == start && start + (x.minor + [c]) == start + x.minor + [c];
    assert SeenLine(Step(st, r, c).state, Grown(st, x, c)) == SeenLine(st, x) + [c];
  }

  lemma StepEndsRequestLine(st: State, x: Sentence, r: Contents, c: char)
    requires st == ExpectingNewline1 && Ready(st, r) && Tracks(st, x, r) && Step(st, r, c).result == Indeterminate
    ensures Kept(st, x, c, Step(st, r, c))
  {
    hide IsCtl, IsTokenChar, TokenChars, UriChars, LinesText, NatOf;
    EmptyLinesText();
    assert "\r" + "\n" == "\r\n";
    assert SeenLine(HeaderLineStart, x) == SeenLine(st, x) + [c];
  }

  /** The header list and the header text after a step that changes the last header. */
  lemma LastGrows(st: State, x: Sentence, r: Contents, c: char, g: Line, st': State)
    requires Order(st) == 13 && Order(st') == 13 && Tracks(st, x, r) && x.lines != [] && ValidLine(g)
    requires Grown(st, x, c) == x.(lines := Init(x.lines) + [g])
    ensures GoodLine(st', Grown(st, x, c)) && ValidLines(Grown(st, x, c).lines)
    ensures Agrees(st', Grown(st, x, c), r.(headers := r.headers[|r.headers| - 1 := HeaderOf(g)]))
    ensures SeenLine(st', Grown(st, x, c)) == SeenLine(st, x) == RequestLine(x)
  {
    hide ValidLine, HeaderOf, NatOf, Grown;
    HeadersOfReplaced(x.lines, g);
  }

  /** A blank after a header line goes on with that header. */
  lemma StepOpensFold(st: State, x: Sentence, r: Contents, c: char)
    requires st == HeaderLineStart && x.lines != [] && IsBlank(c) && Ready(st, r) && Tracks(st, x, r)
    ensures Kept(st, x, c, Step(st, r, c))
  {
    hide LineText, LinesText, NatOf, HeaderOf, IsTokenChar, TokenChars, UriChars, ValidLine, RequestLine;
    var y, ls := Grown(st, x, c), x.lines;
    var g := GrownLast(st, Last(ls), c);
    FoldOpens(Last(ls), c);
    LastGrows(st, x, r, c, g, HeaderLws);
    assert r.headers[|r.headers| - 1 := HeaderOf(g)] == r.headers;
    InitLast(ls);
    LinesTextAppend(Init(ls), Last(ls));
    assert Init(y.lines) == Init(ls) && Last(y.lines) == g;
    assert SeenLines(HeaderLws, y.lines) == SeenLines(st, ls) + [c];
  }

  lemma StepOpensLine(st: State, x: Sentence, r: Contents, c: char)
    requires st == HeaderLineStart && IsTokenChar(c) && Ready(st, r) && Tracks(st, x, r)
    ensures Kept(st, x, c, Step(st, r, c))
  {
    TokenCharIsVisible(c);
    hide LineText, LinesText, NatOf, HeaderOf, IsBlank, IsTokenChar, TokenChars, UriChars, ValidLine;
    var y, ls := Grown(st, x, c), x.lines;
    var g := Line([c], "", []);
    NewLine(c);
    HeadersOfAdded(ls, g);
    assert Init(y.lines) == ls && Last(y.lines) == g;
    assert SeenLines(HeaderName, y.lines) == SeenLines(st, ls) + [c];
  }

  lemma StepEndsHeaders(st: State, x: Sentence, r: Contents, c: char)
    requires st == HeaderLineStart && c == '\r' && Ready(st, r) && Tracks(st, x, r)
    ensures Kept(st, x, c, Step(st, r, c))
  {
    hide LineText, LinesText, NatOf, HeaderOf, IsTokenChar, TokenChars, UriChars, ValidLine, RequestLine;
    assert SeenLines(ExpectingNewline3, x.lines) == SeenLines(st, x.lines) + [c];
  }

  lemma StepInHeaderLine(st: State, x: Sentence, r: Contents, c: char)
    requires st == HeaderLineStart && Ready(st, r) && Tracks(st, x, r) && Step(st, r, c).result == Indeterminate
    ensures Kept(st, x, c, Step(st, r, c))
  {
    assert |r.headers| == |x.lines|;
    hide Kept, Tracks;
    if c == '\r' {
      StepEndsHeaders(st, x, r, c);
    } else {
      if x.lines != [] && IsBlank(c) {
        StepOpensFold(st, x, r, c);
      } else {
        TokenCharIsVisible(c);
        StepOpensLine(st, x, r, c);
      }
    }
  }

  lemma NewLine(c: char)
    requires IsTokenChar(c)
    ensures ValidLine(Line([c], "", [])) && HeaderOf(Line([c], "", [])) == Header([c], "")
  {
  }

  lemma StepInName(st: State, x: Sentence, r: Contents, c: char)
    requires st == HeaderName && c != ':' && Ready(st, r) && Tracks(st, x, r) && Step(st, r, c).result == Indeterminate
    ensures Kept(st, x, c, Step(st, r, c))
  {
    TokenCharIsVisible(c);
    hide LineText, LinesText, RequestLine, NatOf, IsTokenChar, ValidLine;
    var n, y, ls := Step(st, r, c), Grown(st, x, c), x.lines;
    var l, g := Last(ls), GrownLast(st, Last(ls), c);
    assert IsTokenChar(c);
    NameGrows(l, c);
    LastGrows(st, x, r, c, g, HeaderName);
    assert Init(y.lines) == Init(ls) && Last(y.lines) == g;
    assert SeenLines(n.state, y.lines) == SeenLines(st, ls) + [c];
  }

  lemma TokenCharIsVisible(c: char)
    ensures IsTokenChar(c) ==> c != '\r' && !IsBlank(c)
  {
    assert IsBlank(c) ==> IsTSpecial(c);
  }

  lemma StepAfterName(st: State, x: Sentence, r: Contents, c: char)
    requires (st == HeaderName && c == ':') || st == SpaceBeforeHeaderValue
    requires Ready(st, r) && Tracks(st, x, r) && Step(st, r, c).result == Indeterminate
    ensures Kept(st, x, c, Step(st, r, c))
  {
    hide LineText, LinesText, RequestLine, NatOf, IsTokenChar, ValidLine;
    var n, y, ls := Step(st, r, c), Grown(st, x, c), x.lines;
    var l := Last(ls);
    assert y.lines == ls by { InitLast(ls); }
    BareLineText(l);
    assert SeenLines(n.state, ls) == SeenLines(st, ls) + [c];
  }

  lemma BareLineText(l: Line)
    requires l.value == [] && l.folds == []
    ensures LineText(l) == l.name + ": " && l.name + ": " == l.name + ":" + " "
  {
    assert FoldsText(l.folds) == [];
  }

  lemma NameGrows(l: Line, c: char)
    requires ValidLine(l) && IsTokenChar(c)
    ensures ValidLine(l.(name := l.name + [c]))
    ensures HeaderOf(l.(name := l.name + [c])) == Header(l.name + [c], HeaderOf(l).value)
  {
    hide IsTokenChar;
  }

  lemma StepAfterLine(st: State, x: Sentence, r: Contents, c: char)
    requires st == ExpectingNewline2 && Ready(st, r) && Tracks(st, x, r) && Step(st, r, c).result == Indeterminate
    ensures Kept(st, x, c, Step(st, r, c))
  {
    hide LineText, LinesText, NatOf, HeaderOf, IsTokenChar, TokenChars, UriChars, ValidLine, RequestLine;
    var ls := x.lines;
    InitLast(ls);
    LinesTextAppend(Init(ls), Last(ls));
    assert LineText(Last(ls)) + "\r" + "\n" == LineText(Last(ls)) + "\r\n";
    assert SeenLines(HeaderLineStart, ls) == SeenLines(st, ls) + [c];
  }

  lemma StepEndsLine(st: State, x: Sentence, r: Contents, c: char)
    requires (st == HeaderValue || st == HeaderLws) && c == '\r' && Ready(st, r) && Tracks(st, x, r)
    ensures Kept(st, x, c, Step(st, r, c))
  {
    hide LineText, LinesText, NatOf, HeaderOf, IsTokenChar, TokenChars, UriChars, ValidLine, RequestLine;
    assert SeenLines(ExpectingNewline2, x.lines) == SeenLines(st, x.lines) + [c];
  }

  /** One more blank at the start of a continuation line. */
  lemma StepInBlanks(st: State, x: Sentence, r: Contents, c: char)
    requires st == HeaderLws && IsBlank(c) && Ready(st, r) && Tracks(st, x, r)
    ensures Kept(st, x, c, Step(st, r, c))
  {
    hide LineText, LinesText, NatOf, HeaderOf, IsTokenChar, TokenChars, UriChars, ValidLine, RequestLine;
    var y, ls := Grown(st, x, c), x.lines;
    var g := GrownLast(st, Last(ls), c);
    BlankGrows(Last(ls), c);
    LastGrows(st, x, r, c, g, HeaderLws);
    assert r.headers[|r.headers| - 1 := HeaderOf(g)] == r.headers;
    assert Init(y.lines) == Init(ls) && Last(y.lines) == g;
    assert SeenLines(HeaderLws, y.lines) == SeenLines(st, ls) + [c];
  }

  lemma StepInValue(st: State, x: Sentence, r: Contents, c: char)
    requires (st == HeaderValue || (st == HeaderLws && !IsBlank(c))) && c != '\r' && Ready(st, r) && Tracks(st, x, r)
    requires Step(st, r, c).result == Indeterminate
    ensures Kept(st, x, c, Step(st, r, c))
  {
    hide LineText, LinesText, NatOf, HeaderOf, IsTokenChar, TokenChars, UriChars, ValidLine, RequestLine, IsBlank;
    var y, ls := Grown(st, x, c), x.lines;
    var g := GrownLast(st, Last(ls), c);
    ValueGrows(st, Last(ls), c);
    LastGrows(st, x, r, c, g, HeaderValue);
    HeaderKeepsName(Last(ls));
    assert Init(y.lines) == Init(ls) && Last(y.lines) == g;
    assert SeenLines(HeaderValue, y.lines) == SeenLines(st, ls) + [c];
  }

  lemma HeaderKeepsName(l: Line)
    ensures HeaderOf(l).name == l.name
  {
  }

  lemma StepKeepsTrack(st: State, x: Sentence, r: Contents, c: char)
    requires Ready(st, r) && Tracks(st, x, r) && Step(st, r, c).result == Indeterminate
    ensures Kept(st, x, c, Step(st, r, c))
  {
    hide Kept, Tracks, Seen;
    if Order(st) < 2 {
      StepInMethod(st, x, r, c);
    } else if st == Uri {
      StepInUri(st, x, r, c);
    } else if Order(st) < 7 {
      StepInProtocol(st, x, r, c);
    } else if st == VersionSlash {
      StepAtSlash(st, x, r, c);
    } else if Order(st) < 10 {
      StepInMajor(st, x, r, c);
    } else if Order(st) < 12 {
      StepInMinor(st, x, r, c);
    } else if Order(st) == 12 {
      StepEndsRequestLine(st, x, r, c);
    } else if st == HeaderLineStart {
      StepInHeaderLine(st, x, r, c);
    } else if st == HeaderName && c != ':' {
      StepInName(st, x, r, c);
    } else if st == HeaderName || st == SpaceBeforeHeaderValue {
      StepAfterName(st, x, r, c);
    } else if st == ExpectingNewline2 {
      StepAfterLine(st, x, r, c);
    } else if st != ExpectingNewline3 && c == '\r' {
      StepEndsLine(st, x, r, c);
    } else if st == HeaderLws && IsBlank(c) {
      StepInBlanks(st, x, r, c);
    } else if st != ExpectingNewline3 {
      StepInValue(st, x, r, c);
    }
  }

  lemma GoodStep(st: State, r: Contents, c: char)
    requires Ready(st, r) && Step(st, r, c).result == Good
    ensures st == ExpectingNewline3 && c == '\n' && Step(st, r, c) == Next(st, r, Good)
  {
    hide IsTokenChar, IsCtl, IsBlank;
  }

  /** The accepting step completes the sentence. */
  lemma AcceptingStep(st: State, x: Sentence, r: Contents, c: char)
    requires Ready(st, r) && Tracks(st, x, r) && Step(st, r, c).result == Good
    ensures Valid(x) && Render(x) == Seen(st, x) + [c] && Step(st, r, c).contents == Meaning(x)
  {
    hide Step, LinesText, RequestLine, NatOf, ValidLine, HeaderOf, TokenChars, UriChars;
    GoodStep(st, r, c);
    assert SeenLines(st, x.lines) == LinesText(x.lines) + "\r";
    assert "\r" + "\n" == "\r\n";
    assert RequestLine(x) + (LinesText(x.lines) + "\r") + ['\n'] == RequestLine(x) + LinesText(x.lines) + ("\r" + "\n");
  }

  // ----- whole runs -----

  /** The sentence behind an accepting run, built up along the run. */
  lemma {:induction false} AcceptedIsSentence(st: State, x: Sentence, r: Contents, s: string) returns (y: Sentence)
    requires Ready(st, r) && Tracks(st, x, r) && Run(st, r, s).result == Good
    ensures var p := Run(st, r, s);
            Valid(y) && Render(y) == Seen(st, x) + s[..p.consumed] && p.contents == Meaning(y)
    decreases |s|
  {
    hide Step, Tracks, Seen, Valid, Render, Meaning, Grown;
    var n := Step(st, r, s[0]);
    if n.result == Indeterminate {
      StepKeepsTrack(st, x, r, s[0]);
      var k := Run(n.state, n.contents, s[1..]).consumed;
      assert Run(st, r, s).consumed == k + 1 && Run(st, r, s).contents == Run(n.state, n.contents, s[1..]).contents;
      hide Run;
      y := AcceptedIsSentence(n.state, Grown(st, x, s[0]), n.contents, s[1..]);
      OneMoreSeen(Seen(st, x), s, k);
    } else {
      y := x;
      AcceptingStep(st, x, r, s[0]);
      assert s[..1] == [s[0]];
    }
  }

  lemma OneMoreSeen(seen: string, s: string, k: nat)
    requires k < |s|
    ensures seen + [s[0]] + s[1..][..k] == seen + s[..k + 1]
  {
    assert s[..k + 1] == [s[0]] + s[1..][..k];
  }

  lemma GoodIsSentence(r: Contents, s: string) returns (y: Sentence)
    requires IsEmpty(r) && Run(MethodStart, r, s).result == Good
    ensures Valid(y) && Render(y) == s[..Run(MethodStart, r, s).consumed]
  {
    hide Run, Render, Seen, Tracks;
    NothingSeen(r);
    y := AcceptedIsSentence(MethodStart, NOTHING, r, s);
    var read := s[..Run(MethodStart, r, s).consumed];
    assert [] + read == read;
  }

  /**
   The parser answers `good` after exactly those prefixes that are sentences of the grammar,
   and the request it built is the meaning of the sentence.
   */
  lemma GoodExactlyOnSentences(r: Contents, s: string, n: nat)
    requires IsEmpty(r) && n <= |s|
    ensures (Run(MethodStart, r, s).result == Good && Run(MethodStart, r, s).consumed == n)
            <==> exists x :: Valid(x) && Render(x) == s[..n]
    ensures forall x :: Valid(x) && Render(x) == s[..n] ==> Run(MethodStart, r, s).contents == Meaning(x)
  {
    hide Run, Render, Meaning, ValidLines, TokenChars, UriChars;
    var p := Run(MethodStart, r, s);
    if p.result == Good && p.consumed == n {
      var y := GoodIsSentence(r, s);
    }
    forall x | Valid(x) && Render(x) == s[..n]
      ensures p.result == Good && p.consumed == n && p.contents == Meaning(x)
    {
      SentenceIsGood(r, s, n, x);
    }
  }

  lemma SentenceIsGood(r: Contents, s: string, n: nat, x: Sentence)
    requires IsEmpty(r) && n <= |s| && Valid(x) && Render(x) == s[..n]
    ensures Run(MethodStart, r, s) == Parse(Good, ExpectingNewline3, Meaning(x), n)
  {
    hide Run, Render, Meaning, ValidLines, TokenChars, UriChars;
    SentenceAccepted(x, r, s[n..]);
    assert s[..n] + s[n..] == s;
  }

  const NOTHING := Sentence("", "", "", "", [])

  lemma NothingSeen(r: Contents)
    requires IsEmpty(r)
    ensures Tracks(MethodStart, NOTHING, r) && Seen(MethodStart, NOTHING) == []
  {
    EmptyLinesText();
    assert HeadersOf([]) == [];
  }

  // ----- texts that are not decided yet -----

  /** A character that brings an undecided parser nearer to the end of a request. */
  function WayOut(st: State): char {
    match st
    case MethodStart => 'G'
    case Method | Uri | SpaceBeforeHeaderValue => ' '
    case VersionH => 'H'
    case VersionT1 | VersionT2 => 'T'
    case VersionP => 'P'
    case VersionSlash => '/'
    case MajorStart | MinorStart => '0'
    case Major => '.'
    case HeaderName => ':'
    case Minor | HeaderLws | HeaderValue | HeaderLineStart => '\r'
    case ExpectingNewline1 | ExpectingNewline2 | ExpectingNewline3 => '\n'
  }

  function StepsLeft(st: State): nat {
    match st
    case ExpectingNewline3 => 0
    case HeaderLineStart => 1
    case ExpectingNewline1 | ExpectingNewline2 => 2
    case Minor | HeaderLws | HeaderValue => 3
    case SpaceBeforeHeaderValue => 4
    case HeaderName => 5
    case _ => 20 - Order(st)
  }

  predicate Nearer(st: State, r: Contents)
    requires Ready(st, r)
  {
    var n := Step(st, r, WayOut(st));
    if st == ExpectingNewline3 then n.result == Good
    else n.result == Indeterminate && StepsLeft(n.state) < StepsLeft(st)
  }

  lemma NearerInLine(st: State, r: Contents)
    requires Order(st) < 13 && Ready(st, r)
    ensures Nearer(st, r)
  {
    hide IsTokenChar, IsCtl, IsBlank;
    CapitalIsTokenChar('G');
  }

  lemma NearerInHeaders(st: State, r: Contents)
    requires Order(st) == 13 && Ready(st, r)
    ensures Nearer(st, r)
  {
    hide IsTokenChar, IsCtl, IsBlank;
  }

  /** From every state some text leads to the answer `good`. */
  lemma {:induction false} CanFinish(st: State, r: Contents) returns (t: string)
    requires Ready(st, r)
    ensures t != [] && Run(st, r, t).result == Good && Run(st, r, t).consumed == |t|
    decreases StepsLeft(st)
  {
    hide Step, WayOut, StepsLeft;
    var c := WayOut(st);
    var n := Step(st, r, c);
    if Order(st) < 13 {
      NearerInLine(st, r);
    } else {
      NearerInHeaders(st, r);
    }
    if st == ExpectingNewline3 {
      t := [c];
    } else {
      var u := CanFinish(n.state, n.contents);
      t := [c] + u;
      assert t[1..] == u;
    }
  }

  ghost predicate IsSentence(s: string) {
    exists x :: Valid(x) && Render(x) == s
  }

  /** A sentence is accepted at its last character, and only a sentence is. */
  lemma SentenceIff(r: Contents, s: string)
    requires IsEmpty(r)
    ensures IsSentence(s) <==> Run(MethodStart, r, s).result == Good && Run(MethodStart, r, s).consumed == |s|
  {
    hide Run, Render, Valid;
    assert s[..|s|] == s;
    GoodExactlyOnSentences(r, s, |s|);
  }

  /** The answer is open exactly while the text can still be continued to a sentence. */
  lemma OpenExactlyOnProperPrefixes(r: Contents, s: string)
    requires IsEmpty(r)
    ensures Run(MethodStart, r, s).result == Indeterminate <==> exists t :: t != [] && IsSentence(s + t)
  {
    hide Run, IsSentence, IsEmpty;
    var p := Run(MethodStart, r, s);
    if p.result == Indeterminate {
      var t := CanFinish(p.state, p.contents);
      RunInTwo(MethodStart, r, s, t);
      SentenceIff(r, s + t);
      assert IsSentence(s + t);
    } else {
      forall t | t != [] ensures !IsSentence(s + t) {
        RunInTwo(MethodStart, r, s, t);
        SentenceIff(r, s + t);
      }
    }
  }

  /** It is `bad` exactly when no sentence starts the text and the text starts none. */
  lemma BadExactlyOffSentences(r: Contents, s: string)
    requires IsEmpty(r)
    ensures Run(MethodStart, r, s).result == Bad
            <==> (forall n :: 0 <= n <= |s| ==> !IsSentence(s[..n])) && (forall t :: !IsSentence(s + t))
  {
    hide Run, IsSentence;
    var p := Run(MethodStart, r, s);
    OpenExactlyOnProperPrefixes(r, s);
    forall n | 0 <= n <= |s| ensures IsSentence(s[..n]) <==> p.result == Good && p.consumed == n {
      SentencePrefixIff(r, s, n);
    }
    assert s + [] == s && s[..|s|] == s;
    if p.result == Good {
      assert IsSentence(s[..p.consumed]);
    }
  }

  lemma SentencePrefixIff(r: Contents, s: string, n: nat)
    requires IsEmpty(r) && n <= |s|
    ensures IsSentence(s[..n]) <==> Run(MethodStart, r, s).result == Good && Run(MethodStart, r, s).consumed == n
  {
    hide Run, Render, Valid;
    GoodExactlyOnSentences(r, s, n);
  }
}
