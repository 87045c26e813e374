/**
 The language of the request parser: a declarative grammar of requests with folded headers, in
 the terms of sections 2.2, 4.2 and 5 of RFC 1945.  A continuation line's text is joined to the
 value without a space, as the parser does.
 */
module HttpGrammar {
  import opened Decimals
  import opened HttpParser

  // ----- sentences -----

  /** A continuation line: blanks, then nothing or a text that starts with a non-blank. */
  datatype Fold = Fold(blanks: string, text: string)

  datatype Line = Line(name: string, value: string, folds: seq<Fold>)

  datatype Sentence = Sentence(httpMethod: string, uri: string, major: string, minor: string, lines: seq<Line>)

  predicate TokenChars(s: string) {
    forall i :: 0 <= i < |s| ==> IsTokenChar(s[i])
  }

  predicate UriChars(s: string) {
    forall i :: 0 <= i < |s| ==> !IsCtl(s[i]) && s[i] != ' '
  }

  predicate TextChars(s: string) {
    forall i :: 0 <= i < |s| ==> !IsCtl(s[i])
  }

  predicate Blanks(s: string) {
    forall i :: 0 <= i < |s| ==> IsBlank(s[i])
  }

  predicate ValidFold(f: Fold) {
    f.blanks != [] && Blanks(f.blanks) && TextChars(f.text) && (f.text != [] ==> !IsBlank(f.text[0]))
  }

  predicate ValidFolds(fs: seq<Fold>) {
    forall i :: 0 <= i < |fs| ==> ValidFold(fs[i])
  }

  predicate ValidLine(l: Line) {
    l.name != [] && TokenChars(l.name) && TextChars(l.value) && ValidFolds(l.folds)
  }

  predicate ValidLines(ls: seq<Line>) {
    forall i :: 0 <= i < |ls| ==> ValidLine(ls[i])
  }

  predicate Valid(x: Sentence) {
    && x.httpMethod != [] && TokenChars(x.httpMethod) && UriChars(x.uri)
    && x.major != [] && AllDigits(x.major) && x.minor != [] && AllDigits(x.minor)
    && ValidLines(x.lines)
  }

  // ----- their text -----

  function FoldsText(fs: seq<Fold>): string {
    if fs == [] then [] else "\r\n" + fs[0].blanks + fs[0].text + FoldsText(fs[1..])
  }

  /** A header with its continuation lines, without the final line break. */
  function LineText(l: Line): string {
    l.name + ": " + l.value + FoldsText(l.folds)
  }

  function LinesText(ls: seq<Line>): string {
    if ls == [] then [] else LineText(ls[0]) + "\r\n" + LinesText(ls[1..])
  }

  function RequestLine(x: Sentence): string {
    x.httpMethod + " " + x.uri + " HTTP/" + x.major + "." + x.minor + "\r\n"
  }

  function Render(x: Sentence): string {
    RequestLine(x) + LinesText(x.lines) + "\r\n"
  }

  // ----- their meaning -----

  function Unfolded(fs: seq<Fold>): string {
    if fs == [] then [] else fs[0].text + Unfolded(fs[1..])
  }

  function HeaderOf(l: Line): Header {
    Header(l.name, l.value + Unfolded(l.folds))
  }

  function HeadersOf(ls: seq<Line>): (r: seq<Header>)
    ensures |r| == |ls|
  {
    seq(|ls|, i requires 0 <= i < |ls| => HeaderOf(ls[i]))
  }

  function Meaning(x: Sentence): Contents
    requires AllDigits(x.major) && AllDigits(x.minor)
  {
    Contents(x.httpMethod, x.uri, NatOf(x.major), NatOf(x.minor), HeadersOf(x.lines))
  }

  lemma Regrouped(a: string, b: string, c: string)
    ensures a + (b + c) == a + b + c
  {
  }

  lemma NoFolds()
    ensures FoldsText([]) == [] && Unfolded([]) == []
  {
  }

  lemma {:induction false} FoldsInTwo(a: seq<Fold>, b: seq<Fold>)
    ensures FoldsText(a + b) == FoldsText(a) + FoldsText(b)
    ensures Unfolded(a + b) == Unfolded(a) + Unfolded(b)
  {
    hide *;
    if a == [] {
      NoFolds();
      assert a + b == b;
    } else {
      var f, rest := a[0], a[1..];
      FoldsInTwo(rest, b);
      assert a == [f] + rest && a + b == [f] + (rest + b);
      FoldsCons(f, rest);
      FoldsCons(f, rest + b);
      Regrouped("\r\n" + f.blanks + f.text, FoldsText(rest), FoldsText(b));
      Regrouped(f.text, Unfolded(rest), Unfolded(b));
    }
  }

  lemma FoldsCons(f: Fold, b: seq<Fold>)
    ensures FoldsText([f] + b) == "\r\n" + f.blanks + f.text + FoldsText(b)
    ensures Unfolded([f] + b) == f.text + Unfolded(b)
  {
    assert ([f] + b)[0] == f && ([f] + b)[1..] == b;
  }

  /** The token characters, listed: letters, digits and these fifteen marks. */
  lemma TokenCharacters(c: char)
    ensures IsTokenChar(c) <==>
            || 'A' <= c <= 'Z' || 'a' <= c <= 'z' || '0' <= c <= '9'
            || c == '!' || c == '#' || c == '$' || c == '%' || c == '&' || c == '\'' || c == '*' || c == '+' || c == '-'
            || c == '.' || c == '^' || c == '_' || c == '`' || c == '|' || c == '~'
  {
  }

  /** Controls are the bytes below the space, and the one above the last visible character. */
  lemma ControlCharacters(c: char)
    ensures IsCtl(c) <==> c < ' ' || c == '\U{7f}'
    ensures IsBlank(c) <==> c as int == 32 || c as int == 9
  {
  }

  lemma CapitalIsTokenChar(c: char)
    requires 'A' <= c <= 'Z'
    ensures IsTokenChar(c)
  {
  }

  // ----- every sentence is accepted -----

  /** The characters on which a state stays as it is. */
  predicate Loops(st: State, c: char) {
    match st
    case Method => IsTokenChar(c)
    case Uri => !IsCtl(c) && c != ' '
    case Major => IsDigit(c)
    case Minor => IsDigit(c)
    case HeaderName => IsTokenChar(c)
    case HeaderValue => !IsCtl(c)
    case HeaderLws => IsBlank(c)
    case _ => false
  }

  function AppendLastName(hs: seq<Header>, t: string): seq<Header>
    requires hs != []
  {
    var n := |hs| - 1;
    hs[n := hs[n].(name := hs[n].name + t)]
  }

  function AppendLastValue(hs: seq<Header>, t: string): seq<Header>
    requires hs != []
  {
    var n := |hs| - 1;
    hs[n := hs[n].(value := hs[n].value + t)]
  }

  /** The number a digit string continues from `n`. */
  function Continued(n: int, ds: string): int
    requires AllDigits(ds)
    decreases |ds|
  {
    if ds == [] then n else Continued(n * 10 + DigitValue(ds[0]), ds[1..])
  }

  lemma {:induction false} ContinuedAppend(n: int, ds: string, d: char)
    requires AllDigits(ds) && IsDigit(d)
    ensures Continued(n, ds + [d]) == Continued(n, ds) * 10 + DigitValue(d)
    decreases |ds|
  {
    if ds == [] {
      assert [d][1..] == [];
    } else {
      assert (ds + [d])[1..] == ds[1..] + [d];
      ContinuedAppend(n * 10 + DigitValue(ds[0]), ds[1..], d);
    }
  }

  lemma {:induction false} ContinuedIsNatOf(ds: string)
    requires AllDigits(ds)
    ensures Continued(0, ds) == NatOf(ds)
    decreases |ds|
  {
    if ds != [] {
      var init, last := ds[..|ds| - 1], ds[|ds| - 1];
      ContinuedIsNatOf(init);
      assert ds == init + [last];
      ContinuedAppend(0, init, last);
    }
  }

  predicate LoopsAll(st: State, t: string) {
    forall i :: 0 <= i < |t| ==> Loops(st, t[i])
  }

  /** The request after a whole text on which the state stays. */
  function Fed(st: State, r: Contents, t: string): Contents
    requires Ready(st, r) && LoopsAll(st, t)
  {
    match st
    case Method => r.(httpMethod := r.httpMethod + t)
    case Uri => r.(uri := r.uri + t)
    case Major => r.(major := Continued(r.major, t))
    case Minor => r.(minor := Continued(r.minor, t))
    case HeaderName => r.(headers := AppendLastName(r.headers, t))
    case HeaderValue => r.(headers := AppendLastValue(r.headers, t))
    case _ => r
  }

  lemma FedStep(st: State, r: Contents, t: string)
    requires Ready(st, r) && LoopsAll(st, t) && t != []
    ensures LoopsAll(st, t[1..])
    ensures var n := Step(st, r, t[0]);
            && n.state == st && n.result == Indeterminate && Ready(st, n.contents)
            && Fed(st, n.contents, t[1..]) == Fed(st, r, t)
  {
    assert Loops(st, t[0]);
    assert t == [t[0]] + t[1..];
    var n := Step(st, r, t[0]);
    if st == Method {
      assert r.httpMethod + [t[0]] + t[1..] == r.httpMethod + t;
    } else if st == Uri {
      assert r.uri + [t[0]] + t[1..] == r.uri + t;
    } else if st == HeaderName {
      var h := r.headers[|r.headers| - 1];
      assert h.name + [t[0]] + t[1..] == h.name + t;
      assert AppendLastName(n.contents.headers, t[1..]) == AppendLastName(r.headers, t);
    } else if st == HeaderValue {
      var h := r.headers[|r.headers| - 1];
      assert h.value + [t[0]] + t[1..] == h.value + t;
      assert AppendLastValue(n.contents.headers, t[1..]) == AppendLastValue(r.headers, t);
    }
  }

  lemma FedNothing(st: State, r: Contents)
    requires Ready(st, r)
    ensures Fed(st, r, []) == r
  {
    assert r.httpMethod + [] == r.httpMethod && r.uri + [] == r.uri;
    if r.headers != [] {
      var h := r.headers[|r.headers| - 1];
      assert h.name + [] == h.name && h.value + [] == h.value;
      assert AppendLastName(r.headers, []) == r.headers;
      assert AppendLastValue(r.headers, []) == r.headers;
    }
  }

  // ----- from state to state -----

  /** The parser takes the whole text, ends in the given state, and is still undecided. */
  predicate Leads(st: State, r: Contents, t: string, st': State, r': Contents)
    requires Ready(st, r)
  {
    Run(st, r, t) == Parse(Indeterminate, st', r', |t|)
  }

  lemma LeadsTwice(st: State, r: Contents, t: string, st1: State, r1: Contents, u: string, st2: State, r2: Contents)
    requires Ready(st, r) && Leads(st, r, t, st1, r1) && Ready(st1, r1) && Leads(st1, r1, u, st2, r2)
    ensures Leads(st, r, t + u, st2, r2)
  {
    hide Run;
    RunInTwo(st, r, t, u);
  }

  lemma LeadsChar(st: State, r: Contents, c: char)
    requires Ready(st, r) && Step(st, r, c).result == Indeterminate
    ensures Leads(st, r, [c], Step(st, r, c).state, Step(st, r, c).contents)
  {
    hide Step;
    assert [c][1..] == [];
    var n := Step(st, r, c);
    assert Run(n.state, n.contents, []) == Parse(Indeterminate, n.state, n.contents, 0);
  }

  lemma {:induction false} LeadsLoop(st: State, r: Contents, t: string)
    requires Ready(st, r) && LoopsAll(st, t)
    ensures Leads(st, r, t, st, Fed(st, r, t))
    decreases |t|
  {
    hide Step, Loops, Fed;
    if t == [] {
      FedNothing(st, r);
    } else {
      FedStep(st, r, t);
      LeadsLoop(st, Step(st, r, t[0]).contents, t[1..]);
    }
  }

  /** One leading character, then a text on which the new state stays. */
  lemma LeadsCharLoop(st: State, r: Contents, t: string)
    requires Ready(st, r) && t != [] && Step(st, r, t[0]).result == Indeterminate
    requires LoopsAll(Step(st, r, t[0]).state, t[1..])
    ensures var n := Step(st, r, t[0]); Leads(st, r, t, n.state, Fed(n.state, n.contents, t[1..]))
  {
    hide Step, Loops, Fed, Run;
    var n := Step(st, r, t[0]);
    LeadsChar(st, r, t[0]);
    LeadsLoop(n.state, n.contents, t[1..]);
    LeadsTwice(st, r, [t[0]], n.state, n.contents, t[1..], n.state, Fed(n.state, n.contents, t[1..]));
    assert [t[0]] + t[1..] == t;
  }

  // ----- the request line -----

  lemma LeadsVersion(r: Contents)
    ensures Leads(Uri, r, " HTTP/", MajorStart, r.(major := 0, minor := 0))
  {
    hide Run, Step, Leads;
    LeadsSpaceHT(r);
    LeadsTPSlash(r);
    LeadsTwice(Uri, r, " HT", VersionT2, r, "TP/", MajorStart, r.(major := 0, minor := 0));
    assert " HT" + "TP/" == " HTTP/";
  }

  lemma LeadsSpaceHT(r: Contents)
    ensures Leads(Uri, r, " HT", VersionT2, r)
  {
    hide Run, Leads;
    LeadsChar(Uri, r, ' ');
    LeadsChar(VersionH, r, 'H');
    LeadsChar(VersionT1, r, 'T');
    LeadsTwice(Uri, r, " ", VersionH, r, "H", VersionT1, r);
    LeadsTwice(Uri, r, " " + "H", VersionT1, r, "T", VersionT2, r);
    assert " " + "H" + "T" == " HT";
  }

  lemma LeadsTPSlash(r: Contents)
    ensures Leads(VersionT2, r, "TP/", MajorStart, r.(major := 0, minor := 0))
  {
    hide Run, Leads;
    LeadsChar(VersionT2, r, 'T');
    LeadsChar(VersionP, r, 'P');
    LeadsChar(VersionSlash, r, '/');
    LeadsTwice(VersionT2, r, "T", VersionP, r, "P", VersionSlash, r);
    LeadsTwice(VersionT2, r, "T" + "P", VersionSlash, r, "/", MajorStart, r.(major := 0, minor := 0));
    assert "T" + "P" + "/" == "TP/";
  }

  lemma LeadsMethod(r: Contents, m: string)
    requires m != [] && TokenChars(m)
    ensures Leads(MethodStart, r, m, Method, r.(httpMethod := r.httpMethod + m))
  {
    hide Run;
    assert IsTokenChar(m[0]);
    LeadsCharLoop(MethodStart, r, m);
    assert r.httpMethod + [m[0]] + m[1..] == r.httpMethod + m;
  }

  lemma LeadsMajor(r: Contents, ds: string)
    requires ds != [] && AllDigits(ds) && r.major == 0
    ensures Leads(MajorStart, r, ds, Major, r.(major := NatOf(ds)))
  {
    hide Run, NatOf;
    LeadsCharLoop(MajorStart, r, ds);
    ContinuedIsNatOf(ds);
  }

  lemma LeadsMinor(r: Contents, ds: string)
    requires ds != [] && AllDigits(ds) && r.minor == 0
    ensures Leads(MinorStart, r, ds, Minor, r.(minor := NatOf(ds)))
  {
    hide Run, NatOf;
    LeadsCharLoop(MinorStart, r, ds);
    ContinuedIsNatOf(ds);
  }

  /** A request as the server creates it, before anything was parsed into it. */
  predicate IsEmpty(r: Contents) {
    r.httpMethod == "" && r.uri == "" && r.headers == []
  }

  lemma LeadsNewline(st: State, r: Contents)
    requires Ready(st, r) && (st == Minor || st == HeaderValue || st == HeaderLws)
    ensures Leads(st, r, "\r\n", HeaderLineStart, r)
  {
    hide Run;
    var st1 := if st == Minor then ExpectingNewline1 else ExpectingNewline2;
    LeadsChar(st, r, '\r');
    LeadsChar(st1, r, '\n');
    LeadsTwice(st, r, "\r", st1, r, "\n", HeaderLineStart, r);
    assert "\r" + "\n" == "\r\n";
  }

  lemma LeadsUri(r: Contents, uri: string)
    requires UriChars(uri)
    ensures Leads(Method, r, " " + uri, Uri, r.(uri := r.uri + uri))
  {
    hide Run;
    LeadsChar(Method, r, ' ');
    LeadsLoop(Uri, r, uri);
    LeadsTwice(Method, r, " ", Uri, r, uri, Uri, r.(uri := r.uri + uri));
  }

  /** As far as the version number. */
  lemma LeadsToVersion(x: Sentence, r: Contents)
    requires Valid(x) && IsEmpty(r)
    ensures Leads(MethodStart, r, x.httpMethod + (" " + x.uri) + " HTTP/", MajorStart, Contents(x.httpMethod, x.uri, 0, 0, []))
  {
    hide Run, Leads, Step, Fed, LineText, ValidLine;
    var r1 := r.(httpMethod := r.httpMethod + x.httpMethod);
    assert r.httpMethod + x.httpMethod == x.httpMethod;
    LeadsMethod(r, x.httpMethod);
    var r2 := r1.(uri := r1.uri + x.uri);
    assert r1.uri + x.uri == x.uri;
    LeadsUri(r1, x.uri);
    LeadsVersion(r2);
    LeadsTwice(MethodStart, r, x.httpMethod, Method, r1, " " + x.uri, Uri, r2);
    LeadsTwice(MethodStart, r, x.httpMethod + (" " + x.uri), Uri, r2, " HTTP/", MajorStart, r2.(major := 0, minor := 0));
  }

  /** The version numbers and the end of the request line. */
  lemma LeadsNumbers(x: Sentence, r: Contents)
    requires Valid(x) && r.major == 0 && r.minor == 0
    ensures Leads(MajorStart, r, x.major + "." + x.minor + "\r\n", HeaderLineStart,
                  r.(major := NatOf(x.major), minor := NatOf(x.minor)))
  {
    hide Run, Leads, Step, Fed, NatOf, LineText, ValidLine;
    var r4 := r.(major := NatOf(x.major));
    var r5 := r4.(minor := NatOf(x.minor));
    LeadsMajor(r, x.major);
    LeadsDot(r4);
    LeadsMinor(r4, x.minor);
    LeadsNewline(Minor, r5);
    LeadsTwice(MajorStart, r, x.major, Major, r4, ".", MinorStart, r4);
    LeadsTwice(MajorStart, r, x.major + ".", MinorStart, r4, x.minor, Minor, r5);
    LeadsTwice(MajorStart, r, x.major + "." + x.minor, Minor, r5, "\r\n", HeaderLineStart, r5);
  }

  lemma LeadsRequestLine(x: Sentence, r: Contents)
    requires Valid(x) && IsEmpty(r)
    ensures Leads(MethodStart, r, RequestLine(x), HeaderLineStart,
                  Contents(x.httpMethod, x.uri, NatOf(x.major), NatOf(x.minor), []))
  {
    var a, b := x.httpMethod + (" " + x.uri) + " HTTP/", x.major + "." + x.minor + "\r\n";
    assert RequestLine(x) == a + b;
    hide Run, Leads, NatOf, RequestLine, ValidLines, TokenChars, UriChars;
    var r3 := Contents(x.httpMethod, x.uri, 0, 0, []);
    LeadsToVersion(x, r);
    LeadsNumbers(x, r3);
    LeadsTwice(MethodStart, r, a, MajorStart, r3, b, HeaderLineStart, r3.(major := NatOf(x.major), minor := NatOf(x.minor)));
  }

  lemma LeadsDot(r: Contents)
    ensures Leads(Major, r, ".", MinorStart, r)
  {
    hide Run;
    LeadsChar(Major, r, '.');
  }

  // ----- header lines -----

  lemma LeadsName(r: Contents, name: string)
    requires name != [] && TokenChars(name)
    ensures Leads(HeaderLineStart, r, name, HeaderName, r.(headers := r.headers + [Header(name, "")]))
  {
    hide Run;
    assert IsTokenChar(name[0]);
    LeadsCharLoop(HeaderLineStart, r, name);
    var hs := r.headers + [Header([name[0]], "")];
    assert [name[0]] + name[1..] == name;
    assert AppendLastName(hs, name[1..]) == r.headers + [Header(name, "")];
  }

  lemma LeadsColon(r: Contents)
    requires r.headers != []
    ensures Leads(HeaderName, r, ": ", HeaderValue, r)
  {
    hide Run;
    LeadsChar(HeaderName, r, ':');
    LeadsChar(SpaceBeforeHeaderValue, r, ' ');
    LeadsTwice(HeaderName, r, ":", SpaceBeforeHeaderValue, r, " ", HeaderValue, r);
    assert ":" + " " == ": ";
  }

  /** Where a continuation line leaves the parser: still in the blanks if it has no text. */
  function AfterFold(f: Fold): State {
    if f.text == [] then HeaderLws else HeaderValue
  }

  predicate InValue(st: State) {
    st == HeaderValue || st == HeaderLws
  }

  lemma LeadsFold(st: State, r: Contents, f: Fold)
    requires InValue(st) && r.headers != [] && ValidFold(f)
    ensures Leads(st, r, "\r\n" + f.blanks + f.text, AfterFold(f), r.(headers := AppendLastValue(r.headers, f.text)))
  {
    hide Run;
    LeadsNewline(st, r);
    assert IsBlank(f.blanks[0]);
    LeadsCharLoop(HeaderLineStart, r, f.blanks);
    LeadsTwice(st, r, "\r\n", HeaderLineStart, r, f.blanks, HeaderLws, r);
    if f.text == [] {
      var h := r.headers[|r.headers| - 1];
      assert h.value + [] == h.value && AppendLastValue(r.headers, []) == r.headers;
      assert "\r\n" + f.blanks + [] == "\r\n" + f.blanks;
    } else {
      LeadsFoldText(r, f.text);
      LeadsTwice(st, r, "\r\n" + f.blanks, HeaderLws, r, f.text, HeaderValue,
                 r.(headers := AppendLastValue(r.headers, f.text)));
    }
  }

  lemma LeadsFoldText(r: Contents, t: string)
    requires r.headers != [] && t != [] && TextChars(t) && !IsBlank(t[0])
    ensures Leads(HeaderLws, r, t, HeaderValue, r.(headers := AppendLastValue(r.headers, t)))
  {
    hide Run;
    assert !IsCtl(t[0]) && t[0] != '\r';
    LeadsCharLoop(HeaderLws, r, t);
    var h := r.headers[|r.headers| - 1];
    assert h.value + [t[0]] + t[1..] == h.value + t;
    assert AppendLastValue(AppendLastValue(r.headers, [t[0]]), t[1..]) == AppendLastValue(r.headers, t);
  }

  function AfterFolds(st: State, fs: seq<Fold>): State {
    if fs == [] then st else AfterFold(fs[|fs| - 1])
  }

  lemma AppendNothing(hs: seq<Header>)
    requires hs != []
    ensures AppendLastValue(hs, []) == hs
  {
    var h := hs[|hs| - 1];
    assert h.value + [] == h.value;
  }

  lemma AppendTwice(hs: seq<Header>, a: string, b: string)
    requires hs != []
    ensures AppendLastValue(hs, a) != []
    ensures AppendLastValue(AppendLastValue(hs, a), b) == AppendLastValue(hs, a + b)
  {
    var h := hs[|hs| - 1];
    assert h.value + a + b == h.value + (a + b);
  }

  lemma {:induction false} LeadsFolds(st: State, r: Contents, fs: seq<Fold>)
    requires InValue(st) && r.headers != [] && ValidFolds(fs)
    ensures Leads(st, r, FoldsText(fs), AfterFolds(st, fs), r.(headers := AppendLastValue(r.headers, Unfolded(fs))))
    decreases |fs|
  {
    hide Run, Step, ValidFold, AppendLastValue;
    if fs == [] {
      AppendNothing(r.headers);
      RunNothing(st, r);
    } else {
      var f, rest := fs[0], fs[1..];
      var r1 := r.(headers := AppendLastValue(r.headers, f.text));
      LeadsFold(st, r, f);
      LeadsFolds(AfterFold(f), r1, rest);
      AppendTwice(r.headers, f.text, Unfolded(rest));
      LeadsTwice(st, r, "\r\n" + f.blanks + f.text, AfterFold(f), r1, FoldsText(rest), AfterFolds(st, fs),
                 r.(headers := AppendLastValue(r.headers, Unfolded(fs))));
    }
  }

  lemma RunNothing(st: State, r: Contents)
    requires Ready(st, r)
    ensures Run(st, r, []) == Parse(Indeterminate, st, r, 0)
  {
  }

  lemma LeadsLine(r: Contents, l: Line)
    requires ValidLine(l)
    ensures Leads(HeaderLineStart, r, LineText(l) + "\r\n", HeaderLineStart, r.(headers := r.headers + [HeaderOf(l)]))
  {
    hide Run, Step, FoldsText, Unfolded, ValidFold;
    var r1 := r.(headers := r.headers + [Header(l.name, "")]);
    LeadsName(r, l.name);
    LeadsColon(r1);
    LeadsTwice(HeaderLineStart, r, l.name, HeaderName, r1, ": ", HeaderValue, r1);
    LeadsLoop(HeaderValue, r1, l.value);
    var r2 := r.(headers := r.headers + [Header(l.name, l.value)]);
    assert "" + l.value == l.value;
    assert AppendLastValue(r1.headers, l.value) == r2.headers;
    LeadsTwice(HeaderLineStart, r, l.name + ": ", HeaderValue, r1, l.value, HeaderValue, r2);
    LeadsFolds(HeaderValue, r2, l.folds);
    var r3 := r.(headers := r.headers + [HeaderOf(l)]);
    assert AppendLastValue(r2.headers, Unfolded(l.folds)) == r3.headers;
    var st := AfterFolds(HeaderValue, l.folds);
    LeadsTwice(HeaderLineStart, r, l.name + ": " + l.value, HeaderValue, r2, FoldsText(l.folds), st, r3);
    LeadsNewline(st, r3);
    LeadsTwice(HeaderLineStart, r, LineText(l), st, r3, "\r\n", HeaderLineStart, r3);
  }

  lemma {:induction false} LeadsLines(r: Contents, ls: seq<Line>)
    requires ValidLines(ls)
    ensures Leads(HeaderLineStart, r, LinesText(ls), HeaderLineStart, r.(headers := r.headers + HeadersOf(ls)))
    decreases |ls|
  {
    hide Run, Step, LineText, HeaderOf, ValidLine;
    if ls == [] {
      assert r.headers + HeadersOf([]) == r.headers;
      RunNothing(HeaderLineStart, r);
    } else {
      var r1 := r.(headers := r.headers + [HeaderOf(ls[0])]);
      LeadsLine(r, ls[0]);
      LeadsLines(r1, ls[1..]);
      assert r1.headers + HeadersOf(ls[1..]) == r.headers + HeadersOf(ls);
      LeadsTwice(HeaderLineStart, r, LineText(ls[0]) + "\r\n", HeaderLineStart, r1, LinesText(ls[1..]), HeaderLineStart,
                 r.(headers := r.headers + HeadersOf(ls)));
    }
  }

  lemma FinalNewline(r: Contents, rest: string)
    ensures Run(HeaderLineStart, r, "\r\n" + rest) == Parse(Good, ExpectingNewline3, r, 2)
  {
    var s := "\r\n" + rest;
    assert Step(HeaderLineStart, r, '\r') == Next(ExpectingNewline3, r, Indeterminate);
    assert Step(ExpectingNewline3, r, '\n') == Next(ExpectingNewline3, r, Good);
    hide Step;
    assert s[0] == '\r' && s[1..][0] == '\n';
    assert Run(ExpectingNewline3, r, s[1..]) == Parse(Good, ExpectingNewline3, r, 1);
  }

  /** Every sentence is accepted at its last character, with its meaning as the request. */
  lemma SentenceAccepted(x: Sentence, r: Contents, rest: string)
    requires Valid(x) && IsEmpty(r)
    ensures Run(MethodStart, r, Render(x) + rest) == Parse(Good, ExpectingNewline3, Meaning(x), |Render(x)|)
  {
    hide Run, Step, RequestLine, LinesText, NatOf, ValidLine, TokenChars, UriChars;
    var r1 := Contents(x.httpMethod, x.uri, NatOf(x.major), NatOf(x.minor), []);
    LeadsRequestLine(x, r);
    LeadsLines(r1, x.lines);
    assert [] + HeadersOf(x.lines) == HeadersOf(x.lines);
    LeadsTwice(MethodStart, r, RequestLine(x), HeaderLineStart, r1, LinesText(x.lines), HeaderLineStart, Meaning(x));
    var text := RequestLine(x) + LinesText(x.lines);
    FinalNewline(Meaning(x), rest);
    RunInTwo(MethodStart, r, text, "\r\n" + rest);
    assert Render(x) + rest == text + ("\r\n" + rest);
  }
}
