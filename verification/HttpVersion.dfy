/**
 The `int` arithmetic of version numbers.  The parser computes `v * 10 + c - '0'` from left to
 right, so the largest value it computes for a digit is the new number plus the code of '0'.
 */
module HttpVersion {
  import opened Decimals
  import opened HttpParser
  import opened HttpGrammar

  const INT_MAX := 0x7FFF_FFFF

  const ZERO_CODE := '0' as int

  /** The states in which the version numbers of the request are those of this text. */
  predicate HasVersion(st: State) {
    !(st == MethodStart || st == Method || st == Uri || st == VersionH || st == VersionT1 || st == VersionT2
      || st == VersionP || st == VersionSlash)
  }

  /** The largest value a step computes in `int`, zero if it computes none. */
  function Computed(st: State, r: Contents, c: char): int {
    if !IsDigit(c) then 0
    else if st == MajorStart || st == Major then r.major * 10 + c as int
    else if st == MinorStart || st == Minor then r.minor * 10 + c as int
    else 0
  }

  /** Every value computed on the way through the text is an `int`. */
  predicate RunInInt(st: State, r: Contents, s: string)
    requires Ready(st, r)
    decreases |s|
  {
    s == [] ||
    var n := Step(st, r, s[0]);
    && Computed(st, r, s[0]) <= INT_MAX
    && (n.result == Indeterminate ==> RunInInt(n.state, n.contents, s[1..]))
  }

  predicate Small(v: int) {
    v + ZERO_CODE <= INT_MAX
  }

  predicate VersionSmall(st: State, r: Contents) {
    HasVersion(st) ==> Small(r.major) && Small(r.minor)
  }

  predicate VersionNatural(st: State, r: Contents) {
    && (HasVersion(st) ==> r.major >= 0 && r.minor >= 0)
    && (st == MajorStart ==> r.major == 0)
    && (st == MajorStart || st == Major || st == MinorStart ==> r.minor == 0)
  }

  /** A step computes an `int` exactly if it leaves the version small, and never makes a version small again. */
  predicate KeepsCount(st: State, r: Contents, c: char)
    requires Ready(st, r)
  {
    var n := Step(st, r, c);
    && VersionNatural(n.state, n.contents)
    && (VersionSmall(st, r) ==> (Computed(st, r, c) <= INT_MAX <==> VersionSmall(n.state, n.contents)))
    && (!VersionSmall(st, r) ==> !VersionSmall(n.state, n.contents))
  }

  lemma DigitStep(st: State, r: Contents, c: char)
    requires IsVersionState(st) && Ready(st, r) && VersionNatural(st, r)
    ensures KeepsCount(st, r, c)
  {
  }

  predicate IsVersionState(st: State) {
    st == MajorStart || st == Major || st == MinorStart || st == Minor
  }

  lemma BeforeVersion(st: State, r: Contents, c: char)
    requires !HasVersion(st)
    ensures var n := Step(st, r, c);
            !HasVersion(n.state) || (n.state == MajorStart && n.contents.major == n.contents.minor == 0)
  {
    hide IsTokenChar, IsCtl;
  }

  lemma AfterVersion(st: State, r: Contents, c: char)
    requires HasVersion(st) && !IsVersionState(st) && Ready(st, r)
    ensures var n := Step(st, r, c);
            && HasVersion(n.state) && !IsVersionState(n.state)
            && n.contents.major == r.major && n.contents.minor == r.minor
  {
    hide IsTokenChar, IsCtl, IsBlank;
  }

  /** No other step touches the version numbers, except that the slash before them clears both. */
  lemma OtherStep(st: State, r: Contents, c: char)
    requires !IsVersionState(st) && Ready(st, r) && VersionNatural(st, r)
    ensures KeepsCount(st, r, c)
  {
    hide Step;
    if HasVersion(st) {
      AfterVersion(st, r, c);
    } else {
      BeforeVersion(st, r, c);
    }
  }

  /** On every text: all values computed are `int`s exactly if the version numbers reached are small. */
  lemma {:induction false} RunInIntIff(st: State, r: Contents, s: string)
    requires Ready(st, r) && VersionNatural(st, r)
    ensures var p := Run(st, r, s);
            && (VersionSmall(st, r) ==> (RunInInt(st, r, s) <==> VersionSmall(p.state, p.contents)))
            && (!VersionSmall(st, r) ==> !VersionSmall(p.state, p.contents))
    decreases |s|
  {
    hide Step, Computed, VersionSmall, VersionNatural;
    if s != [] {
      var n := Step(st, r, s[0]);
      if IsVersionState(st) {
        DigitStep(st, r, s[0]);
      } else {
        OtherStep(st, r, s[0]);
      }
      if n.result == Indeterminate {
        RunInIntIff(n.state, n.contents, s[1..]);
      }
    }
  }

  /** On a sentence: exactly if both version numbers leave room for the code of '0'. */
  lemma SentenceInIntIff(x: Sentence, r: Contents, rest: string)
    requires Valid(x) && IsEmpty(r)
    ensures RunInInt(MethodStart, r, Render(x) + rest)
            <==> NatOf(x.major) + ZERO_CODE <= INT_MAX && NatOf(x.minor) + ZERO_CODE <= INT_MAX
  {
    hide Run, RunInInt, NatOf, Render, HeadersOf, ValidLines, TokenChars, UriChars;
    SentenceAccepted(x, r, rest);
    RunInIntIff(MethodStart, r, Render(x) + rest);
  }

  /** A version that is itself an `int` is too large: 2147483640 + '7' is computed for its last digit. */
  lemma LargestVersionOverflows(x: Sentence, r: Contents, rest: string)
    requires x == Sentence("GET", "/", "2147483647", "0", []) && IsEmpty(r)
    ensures Valid(x) && NatOf(x.major) == INT_MAX && !RunInInt(MethodStart, r, Render(x) + rest)
  {
    hide RunInInt, Render, NatOf, IsTokenChar;
    CapitalIsTokenChar('G');
    CapitalIsTokenChar('E');
    CapitalIsTokenChar('T');
    LargestVersion(x.major);
    SentenceInIntIff(x, r, rest);
  }

  lemma LargestVersion(ds: string)
    requires ds == "2147483647"
    ensures AllDigits(ds) && NatOf(ds) == INT_MAX
  {
    hide NatOf;
    OneDigit(ds, 0); OneDigit(ds, 1); OneDigit(ds, 2); OneDigit(ds, 3); OneDigit(ds, 4);
    OneDigit(ds, 5); OneDigit(ds, 6); OneDigit(ds, 7); OneDigit(ds, 8); OneDigit(ds, 9);
    NoDigits(ds);
    assert ds[..10] == ds;
  }

  lemma OneDigit(ds: string, k: nat)
    requires AllDigits(ds) && k < |ds|
    ensures NatOf(ds[..k + 1]) == 10 * NatOf(ds[..k]) + DigitValue(ds[k])
  {
    assert ds[..k + 1][..k] == ds[..k];
  }

  lemma NoDigits(ds: string)
    ensures NatOf(ds[..0]) == 0
  {
  }
}
