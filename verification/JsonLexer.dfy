/**
 What `Reader::readToken` and the scanners it calls compute: the token that starts at a given
 cursor position.  A token's `end` is also the cursor position after reading it.
 */
module JsonLexer {
  import opened Decimals

  datatype TokenKind =
    | EndOfStream | ObjectBegin | ObjectEnd | ArrayBegin | ArrayEnd | StringToken | NumberToken
    | TrueToken | FalseToken | NullToken | ArraySeparator | MemberSeparator | Comment | ErrorToken

  datatype Token = Token(kind: TokenKind, start: nat, end: nat)

  /** `*current_`: the document is NUL-terminated, so one position past the end is readable. */
  function CharAt(s: string, p: nat): char {
    if p < |s| then s[p] else '\0'
  }

  predicate IsSpace(c: char) {
    c == ' ' || c == '\t' || c == '\r' || c == '\n'
  }

  predicate IsNumberChar(c: char) {
    IsDigit(c) || c == '.' || c == 'e' || c == 'E' || c == '+' || c == '-'
  }

  function SkipSpaces(s: string, p: nat): (r: nat)
    requires p <= |s|
    ensures p <= r <= |s|
    ensures forall i :: p <= i < r ==> IsSpace(s[i])
    ensures r < |s| ==> !IsSpace(s[r])
    decreases |s| - p
  {
    if p < |s| && IsSpace(s[p]) then SkipSpaces(s, p + 1) else p
  }

  /** The text `t` stands in `s` at position `p`. */
  predicate Occurs(s: string, p: nat, t: string) {
    p + |t| <= |s| && forall i :: 0 <= i < |t| ==> s[p + i] == t[i]
  }

  lemma OccursInTwo(s: string, p: nat, a: string, b: string)
    ensures Occurs(s, p, a + b) <==> Occurs(s, p, a) && Occurs(s, p + |a|, b)
  {
    var t := a + b;
    if Occurs(s, p, t) {
      forall i | 0 <= i < |a| ensures s[p + i] == a[i] { assert t[i] == a[i]; }
      forall i | 0 <= i < |b| ensures s[p + |a| + i] == b[i] { assert t[|a| + i] == b[i]; }
    }
    if Occurs(s, p, a) && Occurs(s, p + |a|, b) {
      forall i | 0 <= i < |t| ensures s[p + i] == t[i] {
        if i >= |a| { assert s[p + |a| + (i - |a|)] == b[i - |a|]; }
      }
    }
  }

  function ScanNumber(s: string, p: nat): (r: nat)
    requires p <= |s|
    ensures p <= r <= |s|
    ensures forall i :: p <= i < r ==> IsNumberChar(s[i])
    ensures r < |s| ==> !IsNumberChar(s[r])
    decreases |s| - p
  {
    if p < |s| && IsNumberChar(s[p]) then ScanNumber(s, p + 1) else p
  }

  /** A position together with whether the scan found what it was looking for. */
  datatype Scan = Scan(end: nat, ok: bool)

  /** From just after the opening quote to just after the closing one. */
  function ScanString(s: string, p: nat): (r: Scan)
    requires p <= |s|
    ensures p <= r.end <= |s|
    ensures r.ok ==> p < r.end && s[r.end - 1] == '"'
    ensures !r.ok ==> r.end == |s|
    decreases |s| - p
  {
    if p == |s| then Scan(p, false)
    else if s[p] == '\\' then (if p + 1 == |s| then Scan(p + 1, false) else ScanString(s, p + 2))
    else if s[p] == '"' then Scan(p + 1, true)
    else ScanString(s, p + 1)
  }

  /** From just after the opening of a C-style comment to just after its close. */
  function ScanBlockComment(s: string, p: nat): (r: Scan)
    requires p <= |s|
    ensures p <= r.end <= |s|
    ensures !r.ok ==> r.end == |s|
    decreases |s| - p
  {
    if p == |s| then Scan(p, false)
    else if s[p] == '*' && CharAt(s, p + 1) == '/' then Scan(p + 2, true)
    else ScanBlockComment(s, p + 1)
  }

  function ScanLineComment(s: string, p: nat): (r: nat)
    requires p <= |s|
    ensures p <= r <= |s|
    decreases |s| - p
  {
    if p == |s| then p
    else if s[p] == '\r' || s[p] == '\n' then p + 1
    else ScanLineComment(s, p + 1)
  }

  /** From just after the slash that opens the comment. */
  function ScanComment(s: string, p: nat): (r: Scan)
    requires p <= |s|
    ensures p <= r.end <= |s|
  {
    if p == |s| then Scan(p, false)
    else if s[p] == '*' then ScanBlockComment(s, p + 1)
    else if s[p] == '/' then Scan(ScanLineComment(s, p + 1), true)
    else Scan(p + 1, false)
  }

  function ScanWord(s: string, p: nat, rest: string): (r: Scan)
    requires p <= |s|
    ensures p <= r.end <= |s|
  {
    if Occurs(s, p, rest) then Scan(p + |rest|, true) else Scan(p, false)
  }

  function Scanned(kind: TokenKind, start: nat, scan: Scan): Token {
    Token(if scan.ok then kind else ErrorToken, start, scan.end)
  }

  /** The token whose first character is at `p`, leading spaces already skipped. */
  function TokenAt(s: string, p: nat): (t: Token)
    requires p <= |s|
    ensures t.start == p && p <= t.end <= |s|
    ensures t.kind != EndOfStream ==> p < t.end
    ensures t.kind == StringToken ==> p + 2 <= t.end && s[p] == '"' && s[t.end - 1] == '"'
    ensures t.kind == NumberToken ==> IsNumberText(s[p..t.end])
  {
    if p == |s| then Token(EndOfStream, p, p)
    else
      var c := s[p];
      if c == '{' then Token(ObjectBegin, p, p + 1)
      else if c == '}' then Token(ObjectEnd, p, p + 1)
      else if c == '[' then Token(ArrayBegin, p, p + 1)
      else if c == ']' then Token(ArrayEnd, p, p + 1)
      else if c == '"' then Scanned(StringToken, p, ScanString(s, p + 1))
      else if c == '/' then Scanned(Comment, p, ScanComment(s, p + 1))
      else if IsDigit(c) || c == '-' then Token(NumberToken, p, ScanNumber(s, p + 1))
      else if c == 't' then Scanned(TrueToken, p, ScanWord(s, p + 1, "rue"))
      else if c == 'f' then Scanned(FalseToken, p, ScanWord(s, p + 1, "alse"))
      else if c == 'n' then Scanned(NullToken, p, ScanWord(s, p + 1, "ull"))
      else if c == ',' then Token(ArraySeparator, p, p + 1)
      else if c == ':' then Token(MemberSeparator, p, p + 1)
      else if c == '\0' then Token(EndOfStream, p, p + 1)
      else Token(ErrorToken, p, p + 1)
  }

  /** `readToken` */
  function ReadToken(s: string, p: nat): (t: Token)
    requires p <= |s|
    ensures p <= t.start <= t.end <= |s|
    ensures t.kind != EndOfStream ==> t.start < t.end
  {
    TokenAt(s, SkipSpaces(s, p))
  }

  /** `readToken`, repeated while it yields a comment. */
  function NextToken(s: string, p: nat): (t: Token)
    requires p <= |s|
    ensures p <= t.start <= t.end <= |s|
    ensures t.kind != EndOfStream ==> t.start < t.end
    ensures t.kind != Comment && t == TokenAt(s, t.start)
    decreases |s| - p
  {
    var t := ReadToken(s, p);
    if t.kind == Comment then NextToken(s, t.end) else t
  }

  /** `recoverFromError`: the cursor after skipping to a token of the wanted kind or the end. */
  function Recover(s: string, p: nat, until: TokenKind): (r: nat)
    requires p <= |s|
    ensures p <= r <= |s|
    decreases |s| - p
  {
    var t := ReadToken(s, p);
    if t.kind == until || t.kind == EndOfStream then t.end else Recover(s, t.end, until)
  }

  /** The spelling of a number token: it starts like a number and holds only number characters. */
  predicate IsNumberText(t: string) {
    && t != []
    && (IsDigit(t[0]) || t[0] == '-')
    && forall i :: 0 <= i < |t| ==> IsNumberChar(t[i])
  }
}
