/**
 Printing a request and parsing it again, and folding header values.
 */
module HttpPrint {
  import opened Decimals
  import opened HttpParser
  import opened HttpGrammar
  import opened HttpVersion

  // ----- printing -----

  predicate WellFormedHeader(h: Header) {
    h.name != [] && TokenChars(h.name) && TextChars(h.value)
  }

  predicate WellFormed(r: Contents) {
    && r.httpMethod != [] && TokenChars(r.httpMethod) && UriChars(r.uri) && r.major >= 0 && r.minor >= 0
    && forall i :: 0 <= i < |r.headers| ==> WellFormedHeader(r.headers[i])
  }

  function PrintHeaders(hs: seq<Header>): string {
    if hs == [] then [] else hs[0].name + ": " + hs[0].value + "\r\n" + PrintHeaders(hs[1..])
  }

  /** The request as a client would send it. */
  function Print(r: Contents): string
    requires r.major >= 0 && r.minor >= 0
  {
    r.httpMethod + " " + r.uri + " HTTP/" + Decimal(r.major) + "." + Decimal(r.minor) + "\r\n"
    + PrintHeaders(r.headers) + "\r\n"
  }

  function LinesOf(hs: seq<Header>): (ls: seq<Line>)
    ensures |ls| == |hs| && forall i :: 0 <= i < |hs| ==> ls[i] == Line(hs[i].name, hs[i].value, [])
  {
    seq(|hs|, i requires 0 <= i < |hs| => Line(hs[i].name, hs[i].value, []))
  }

  function SentenceOf(r: Contents): Sentence
    requires r.major >= 0 && r.minor >= 0
  {
    Sentence(r.httpMethod, r.uri, Decimal(r.major), Decimal(r.minor), LinesOf(r.headers))
  }

  lemma {:induction false} PrintedHeaders(hs: seq<Header>)
    ensures PrintHeaders(hs) == LinesText(LinesOf(hs))
  {
    if hs != [] {
      PrintedHeaders(hs[1..]);
      assert LinesOf(hs)[1..] == LinesOf(hs[1..]);
      var l := LinesOf(hs)[0];
      assert FoldsText([]) == [];
      assert LineText(l) == hs[0].name + ": " + hs[0].value;
    }
  }

  lemma PrintedMeaning(r: Contents)
    requires WellFormed(r)
    ensures Valid(SentenceOf(r)) && Meaning(SentenceOf(r)) == r
  {
    NatOfDecimal(r.major);
    NatOfDecimal(r.minor);
    hide Decimal, NatOf, IsTokenChar, IsCtl;
    var ls := LinesOf(r.headers);
    forall i | 0 <= i < |ls| ensures ValidLine(ls[i]) && HeaderOf(ls[i]) == r.headers[i] {
      assert WellFormedHeader(r.headers[i]);
      assert Unfolded([]) == [] && r.headers[i].value + [] == r.headers[i].value;
    }
    assert HeadersOf(ls) == r.headers;
  }

  /**
   Parsing a printed request gives the request back, whatever follows it; the source's `int`
   arithmetic does so, too, exactly if the version numbers leave room for the code of '0'.
   */
  lemma PrintRoundTrip(r: Contents, fresh': Contents, rest: string)
    requires WellFormed(r) && IsEmpty(fresh')
    ensures Run(MethodStart, fresh', Print(r) + rest) == Parse(Good, ExpectingNewline3, r, |Print(r)|)
    ensures RunInInt(MethodStart, fresh', Print(r) + rest)
            <==> r.major + ZERO_CODE <= INT_MAX && r.minor + ZERO_CODE <= INT_MAX
  {
    NatOfDecimal(r.major);
    NatOfDecimal(r.minor);
    hide Run, RunInInt, Meaning, Valid, LinesText, PrintHeaders, Decimal;
    PrintedHeaders(r.headers);
    PrintedMeaning(r);
    SentenceAccepted(SentenceOf(r), fresh', rest);
    SentenceInIntIff(SentenceOf(r), fresh', rest);
    assert Print(r) == Render(SentenceOf(r));
  }

  // ----- folding -----

  /** The pieces of a header value: the first line's text, then the continuation lines'. */
  function Piece(l: Line, j: nat): string
    requires j <= |l.folds|
  {
    if j == 0 then l.value else l.folds[j - 1].text
  }

  /** The header with piece `j` broken before its character `k`. */
  function Broken(l: Line, j: nat, k: nat, blanks: string): Line
    requires j <= |l.folds| && k <= |Piece(l, j)|
  {
    var t := Piece(l, j);
    var added := [Fold(blanks, t[k..])];
    if j == 0 then Line(l.name, t[..k], added + l.folds)
    else Line(l.name, l.value, l.folds[..j - 1] + ([l.folds[j - 1].(text := t[..k])] + (added + l.folds[j..])))
  }

  /** The text before the break: up to character `k` of piece `j`. */
  function BeforeBreak(l: Line, j: nat, k: nat): string
    requires j <= |l.folds| && k <= |Piece(l, j)|
  {
    if j == 0 then l.name + ": " + l.value[..k]
    else
      var f := l.folds[j - 1];
      l.name + ": " + l.value + (FoldsText(l.folds[..j - 1]) + ("\r\n" + f.blanks + f.text[..k]))
  }

  /** Breaking a value keeps its header and inserts a line break and the blanks into its text. */
  lemma BrokenLine(l: Line, j: nat, k: nat, blanks: string)
    requires ValidLine(l) && j <= |l.folds| && k < |Piece(l, j)| && !IsBlank(Piece(l, j)[k])
    requires blanks != [] && Blanks(blanks)
    ensures ValidLine(Broken(l, j, k, blanks)) && HeaderOf(Broken(l, j, k, blanks)) == HeaderOf(l)
    ensures var before, after := BeforeBreak(l, j, k), Piece(l, j)[k..] + FoldsText(l.folds[j..]);
            LineText(l) == before + after && LineText(Broken(l, j, k, blanks)) == before + ("\r\n" + blanks + after)
  {
    if j == 0 {
      BrokenFirst(l, k, blanks);
    } else {
      BrokenFold(l, j, k, blanks);
    }
  }

  lemma AddedFold(t: string, k: nat, blanks: string)
    requires TextChars(t) && k < |t| && !IsBlank(t[k]) && blanks != [] && Blanks(blanks)
    ensures ValidFold(Fold(blanks, t[k..])) && TextChars(t[..k]) && t == t[..k] + t[k..]
  {
    hide IsCtl, IsBlank;
  }

  lemma BrokenFirst(l: Line, k: nat, blanks: string)
    requires ValidLine(l) && k < |l.value| && !IsBlank(l.value[k]) && blanks != [] && Blanks(blanks)
    ensures ValidLine(Broken(l, 0, k, blanks)) && HeaderOf(Broken(l, 0, k, blanks)) == HeaderOf(l)
    ensures var before, after := BeforeBreak(l, 0, k), l.value[k..] + FoldsText(l.folds[0..]);
            LineText(l) == before + after && LineText(Broken(l, 0, k, blanks)) == before + ("\r\n" + blanks + after)
  {
    hide ValidFold, IsTokenChar, FoldsText, Unfolded;
    AddedFold(l.value, k, blanks);
    var f := Fold(blanks, l.value[k..]);
    FoldsCons(f, l.folds);
    assert l.folds[0..] == l.folds;
    assert l.value[..k] + (l.value[k..] + Unfolded(l.folds)) == l.value + Unfolded(l.folds);
    assert l.name + ": " + l.value + FoldsText(l.folds) == l.name + ": " + l.value[..k] + (l.value[k..] + FoldsText(l.folds));
  }

  lemma FoldsAround(a: seq<Fold>, f: Fold, b: seq<Fold>)
    ensures FoldsText(a + ([f] + b)) == FoldsText(a) + ("\r\n" + f.blanks + f.text + FoldsText(b))
    ensures Unfolded(a + ([f] + b)) == Unfolded(a) + (f.text + Unfolded(b))
  {
    hide FoldsText, Unfolded;
    FoldsInTwo(a, [f] + b);
    FoldsCons(f, b);
  }

  lemma SplitFold(a: seq<Fold>, f: Fold, b: seq<Fold>, k: nat, blanks: string)
    requires k <= |f.text|
    ensures var f1, f2 := f.(text := f.text[..k]), Fold(blanks, f.text[k..]);
            && FoldsText(a + ([f] + b)) == FoldsText(a) + ("\r\n" + f.blanks + f.text[..k]) + (f.text[k..] + FoldsText(b))
            && FoldsText(a + ([f1] + ([f2] + b)))
               == FoldsText(a) + ("\r\n" + f.blanks + f.text[..k]) + ("\r\n" + blanks + (f.text[k..] + FoldsText(b)))
            && Unfolded(a + ([f1] + ([f2] + b))) == Unfolded(a + ([f] + b))
  {
    hide FoldsText, Unfolded;
    var f1, f2 := f.(text := f.text[..k]), Fold(blanks, f.text[k..]);
    FoldsAround(a, f, b);
    FoldsAround(a, f1, [f2] + b);
    FoldsCons(f2, b);
    assert f.text == f.text[..k] + f.text[k..];
  }

  lemma BrokenFold(l: Line, j: nat, k: nat, blanks: string)
    requires ValidLine(l) && 0 < j <= |l.folds| && k < |l.folds[j - 1].text| && !IsBlank(l.folds[j - 1].text[k])
    requires blanks != [] && Blanks(blanks)
    ensures ValidLine(Broken(l, j, k, blanks)) && HeaderOf(Broken(l, j, k, blanks)) == HeaderOf(l)
    ensures var before, after := BeforeBreak(l, j, k), l.folds[j - 1].text[k..] + FoldsText(l.folds[j..]);
            LineText(l) == before + after && LineText(Broken(l, j, k, blanks)) == before + ("\r\n" + blanks + after)
  {
    hide IsTokenChar, IsCtl, FoldsText, Unfolded;
    var a, f, b := l.folds[..j - 1], l.folds[j - 1], l.folds[j..];
    assert l.folds == a + ([f] + b);
    AddedFold(f.text, k, blanks);
    SplitFold(a, f, b, k, blanks);
    BrokenIsValid(l, j, k, blanks);
  }

  lemma BrokenIsValid(l: Line, j: nat, k: nat, blanks: string)
    requires ValidLine(l) && 0 < j <= |l.folds| && k < |l.folds[j - 1].text|
    requires ValidFold(Fold(blanks, l.folds[j - 1].text[k..])) && TextChars(l.folds[j - 1].text[..k])
    ensures ValidLine(Broken(l, j, k, blanks))
  {
    hide IsTokenChar, IsCtl, IsBlank;
    var f1 := l.folds[j - 1].(text := l.folds[j - 1].text[..k]);
    assert ValidFold(f1);
  }

  /** The request with one header broken. */
  function BrokenSentence(x: Sentence, i: nat, j: nat, k: nat, blanks: string): Sentence
    requires i < |x.lines| && j <= |x.lines[i].folds| && k <= |Piece(x.lines[i], j)|
  {
    x.(lines := x.lines[i := Broken(x.lines[i], j, k, blanks)])
  }

  lemma {:induction false} LinesInThree(ls: seq<Line>, i: nat)
    requires i < |ls|
    ensures LinesText(ls) == LinesText(ls[..i]) + LineText(ls[i]) + "\r\n" + LinesText(ls[i + 1..])
  {
    hide LineText;
    if i == 0 {
      assert ls[..0] == [] && LinesText([]) == [];
      Regrouped("", LineText(ls[0]) + "\r\n", LinesText(ls[1..]));
    } else {
      LinesInThree(ls[1..], i - 1);
      assert ls[1..][..i - 1] == ls[..i][1..] && ls[1..][i..] == ls[i + 1..];
      var head := LineText(ls[0]) + "\r\n";
      assert LinesText(ls) == head + LinesText(ls[1..]);
      assert LinesText(ls[..i]) == head + LinesText(ls[..i][1..]);
      hide *;
      FourTogether(head, LinesText(ls[..i][1..]), LineText(ls[i]), LinesText(ls[i + 1..]));
    }
  }

  lemma FourTogether(a: string, b: string, c: string, d: string)
    ensures a + (b + c + "\r\n" + d) == a + b + c + "\r\n" + d
  {
  }

  /**
   Inserting a line break and blanks into any header value before a non-blank character
   changes neither the answer nor the request.
   */
  lemma FoldingIsTransparent(x: Sentence, i: nat, j: nat, k: nat, blanks: string, r: Contents)
    returns (before: string, after: string)
    requires Valid(x) && IsEmpty(r) && i < |x.lines| && j <= |x.lines[i].folds|
    requires k < |Piece(x.lines[i], j)| && !IsBlank(Piece(x.lines[i], j)[k])
    requires blanks != [] && Blanks(blanks)
    ensures Render(x) == before + after && after != [] && after[0] == Piece(x.lines[i], j)[k]
    ensures Run(MethodStart, r, before + after) == Parse(Good, ExpectingNewline3, Meaning(x), |before + after|)
    ensures Run(MethodStart, r, before + ("\r\n" + blanks + after))
            == Parse(Good, ExpectingNewline3, Meaning(x), |before + ("\r\n" + blanks + after)|)
  {
    hide Run, RequestLine, LinesText, LineText, FoldsText, BeforeBreak, Broken, IsTokenChar, ValidFold, NatOf, HeaderOf;
    var l := x.lines[i];
    var y := BrokenSentence(x, i, j, k, blanks);
    BrokenLine(l, j, k, blanks);
    LinesInThree(x.lines, i);
    LinesInThree(y.lines, i);
    assert y.lines[..i] == x.lines[..i] && y.lines[i + 1..] == x.lines[i + 1..];
    assert HeadersOf(y.lines) == HeadersOf(x.lines);
    var tail := "\r\n" + LinesText(x.lines[i + 1..]) + "\r\n";
    before := RequestLine(x) + LinesText(x.lines[..i]) + BeforeBreak(l, j, k);
    after := Piece(l, j)[k..] + FoldsText(l.folds[j..]) + tail;
    assert RequestLine(y) == RequestLine(x) by { SameRequestLine(x, y); }
    assert Render(x) == before + after;
    assert Render(y) == before + ("\r\n" + blanks + after);
    SentenceAccepted(x, r, "");
    SentenceAccepted(y, r, "");
    assert Render(x) + "" == Render(x) && Render(y) + "" == Render(y);
  }

  lemma SameRequestLine(x: Sentence, y: Sentence)
    requires y == x.(lines := y.lines)
    ensures RequestLine(y) == RequestLine(x)
  {
  }
}
