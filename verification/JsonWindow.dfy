/**
 Reading is local: what is read from a document and ends inside a window of it is read in the
 same way from the window alone.  In each lemma `w` stands in `s` at offset `a`.
 */
module JsonWindow {
  import opened JsonLexer
  import opened Decimals
  import opened JsonString

  // ----- scanners -----

  lemma {:induction false} SpacesInWindow(s: string, w: string, a: nat, p: nat)
    requires Occurs(s, a, w) && p <= |w| && SkipSpaces(s, a + p) <= a + |w|
    ensures SkipSpaces(s, a + p) == a + SkipSpaces(w, p)
    decreases |w| - p
  {
    if p < |w| {
      assert s[a + p] == w[p];
      if IsSpace(w[p]) {
        SpacesInWindow(s, w, a, p + 1);
      }
    }
  }

  lemma {:induction false} NumberInWindow(s: string, w: string, a: nat, p: nat)
    requires Occurs(s, a, w) && p <= |w| && ScanNumber(s, a + p) <= a + |w|
    ensures ScanNumber(s, a + p) == a + ScanNumber(w, p)
    decreases |w| - p
  {
    if p < |w| {
      assert s[a + p] == w[p];
      if IsNumberChar(w[p]) {
        NumberInWindow(s, w, a, p + 1);
      }
    }
  }

  function Moved(a: nat, scan: Scan): Scan {
    Scan(a + scan.end, scan.ok)
  }

  lemma {:induction false} StringInWindow(s: string, w: string, a: nat, p: nat)
    requires Occurs(s, a, w) && p <= |w| && ScanString(s, a + p).end <= a + |w|
    ensures ScanString(s, a + p) == Moved(a, ScanString(w, p))
    decreases |w| - p
  {
    if p < |w| {
      assert s[a + p] == w[p];
      if w[p] == '\\' {
        if p + 1 < |w| {
          StringInWindow(s, w, a, p + 2);
        }
      } else if w[p] != '"' {
        StringInWindow(s, w, a, p + 1);
      }
    }
  }

  lemma {:induction false} BlockCommentInWindow(s: string, w: string, a: nat, p: nat)
    requires Occurs(s, a, w) && p <= |w| && ScanBlockComment(s, a + p).end <= a + |w|
    ensures ScanBlockComment(s, a + p) == Moved(a, ScanBlockComment(w, p))
    decreases |w| - p
  {
    if p < |w| {
      assert s[a + p] == w[p];
      assert p + 1 < |w| ==> s[a + (p + 1)] == w[p + 1];
      if !(w[p] == '*' && CharAt(w, p + 1) == '/') {
        BlockCommentInWindow(s, w, a, p + 1);
      }
    }
  }

  lemma {:induction false} LineCommentInWindow(s: string, w: string, a: nat, p: nat)
    requires Occurs(s, a, w) && p <= |w| && ScanLineComment(s, a + p) <= a + |w|
    ensures ScanLineComment(s, a + p) == a + ScanLineComment(w, p)
    decreases |w| - p
  {
    if p < |w| {
      assert s[a + p] == w[p];
      if w[p] != '\r' && w[p] != '\n' {
        LineCommentInWindow(s, w, a, p + 1);
      }
    }
  }

  lemma CommentInWindow(s: string, w: string, a: nat, p: nat)
    requires Occurs(s, a, w) && p <= |w| && ScanComment(s, a + p).end <= a + |w|
    ensures ScanComment(s, a + p) == Moved(a, ScanComment(w, p))
  {
    if p < |w| {
      assert s[a + p] == w[p];
      if w[p] == '*' {
        BlockCommentInWindow(s, w, a, p + 1);
      } else if w[p] == '/' {
        LineCommentInWindow(s, w, a, p + 1);
      }
    }
  }

  lemma WordInWindow(s: string, w: string, a: nat, p: nat, rest: string)
    requires Occurs(s, a, w) && p <= |w| && ScanWord(s, a + p, rest).end <= a + |w|
    ensures ScanWord(s, a + p, rest) == Moved(a, ScanWord(w, p, rest))
  {
    if Occurs(s, a + p, rest) {
      forall i | 0 <= i < |rest| ensures w[p + i] == rest[i] {
        assert s[a + (p + i)] == w[p + i];
        assert s[a + p + i] == rest[i];
      }
    } else if Occurs(w, p, rest) {
      forall i | 0 <= i < |rest| ensures s[a + p + i] == rest[i] {
        assert s[a + (p + i)] == w[p + i];
      }
    }
  }

  // ----- tokens -----

  function MovedToken(a: nat, t: Token): Token {
    Token(t.kind, a + t.start, a + t.end)
  }

  lemma TokenInWindow(s: string, w: string, a: nat, p: nat)
    requires Occurs(s, a, w) && p <= |w| && TokenAt(s, a + p).end <= a + |w|
    ensures TokenAt(s, a + p) == MovedToken(a, TokenAt(w, p))
  {
    if p == |w| {
      hide ScanString, ScanComment, ScanNumber, ScanWord;
    } else {
      var c := w[p];
      assert s[a + p] == c;
      hide TokenAt;
      if c == '"' || c == '/' || IsDigit(c) || c == '-' {
        ScannedInWindow(s, w, a, p);
      } else {
        OtherInWindow(s, w, a, p);
      }
    }
  }

  lemma ScannedInWindow(s: string, w: string, a: nat, p: nat)
    requires Occurs(s, a, w) && p < |w| && a + p < |s| && s[a + p] == w[p] && TokenAt(s, a + p).end <= a + |w|
    requires w[p] == '"' || w[p] == '/' || IsDigit(w[p]) || w[p] == '-'
    ensures TokenAt(s, a + p) == MovedToken(a, TokenAt(w, p))
  {
    hide ScanString, ScanComment, ScanNumber, ScanWord, Occurs;
    if w[p] == '"' {
      StringInWindow(s, w, a, p + 1);
    } else if w[p] == '/' {
      CommentInWindow(s, w, a, p + 1);
    } else {
      NumberInWindow(s, w, a, p + 1);
    }
  }

  lemma OtherInWindow(s: string, w: string, a: nat, p: nat)
    requires Occurs(s, a, w) && p < |w| && a + p < |s| && s[a + p] == w[p] && TokenAt(s, a + p).end <= a + |w|
    requires w[p] != '"' && w[p] != '/' && !IsDigit(w[p]) && w[p] != '-'
    ensures TokenAt(s, a + p) == MovedToken(a, TokenAt(w, p))
  {
    hide ScanString, ScanComment, ScanNumber, ScanWord, Occurs;
    if w[p] == 't' {
      WordInWindow(s, w, a, p + 1, "rue");
    } else if w[p] == 'f' {
      WordInWindow(s, w, a, p + 1, "alse");
    } else if w[p] == 'n' {
      WordInWindow(s, w, a, p + 1, "ull");
    }
  }

  lemma ReadTokenInWindow(s: string, w: string, a: nat, p: nat)
    requires Occurs(s, a, w) && p <= |w| && ReadToken(s, a + p).end <= a + |w|
    ensures ReadToken(s, a + p) == MovedToken(a, ReadToken(w, p))
  {
    hide TokenAt, Occurs, SkipSpaces;
    SpacesInWindow(s, w, a, p);
    TokenInWindow(s, w, a, SkipSpaces(w, p));
  }

  lemma {:induction false} NextTokenInWindow(s: string, w: string, a: nat, p: nat)
    requires Occurs(s, a, w) && p <= |w| && NextToken(s, a + p).end <= a + |w|
    ensures NextToken(s, a + p) == MovedToken(a, NextToken(w, p))
    decreases |w| - p
  {
    hide ReadToken, Occurs;
    ReadTokenInWindow(s, w, a, p);
    if ReadToken(w, p).kind == Comment {
      NextTokenInWindow(s, w, a, ReadToken(w, p).end);
    }
  }

  // ----- decoding -----

  function MovedCode(a: nat, c: Code): Code {
    match c
    case CodeOk(cp, next) => CodeOk(cp, a + next)
    case CodeErr(problem, at) => CodeErr(problem, a + at)
  }

  lemma {:induction false} HexRunInWindow(s: string, w: string, a: nat, cur: nat, n: nat, acc: nat)
    requires Occurs(s, a, w) && cur + n <= |w|
    ensures HexRun(s, a + cur, n, acc) == MovedCode(a, HexRun(w, cur, n, acc))
    decreases n
  {
    if n > 0 {
      assert s[a + cur] == w[cur];
      if HexValue(w[cur]).Some? {
        HexRunInWindow(s, w, a, cur + 1, n - 1, acc * 16 + HexValue(w[cur]).value);
      }
    }
  }

  lemma HexEscapeInWindow(s: string, w: string, a: nat, cur: nat, end: nat)
    requires Occurs(s, a, w) && cur <= end <= |w|
    ensures HexEscape(s, a + cur, a + end) == MovedCode(a, HexEscape(w, cur, end))
  {
    hide HexRun, Occurs;
    if end - cur >= 4 {
      HexRunInWindow(s, w, a, cur, 4, 0);
    }
  }

  lemma CodePointInWindow(s: string, w: string, a: nat, cur: nat, end: nat)
    requires Occurs(s, a, w) && cur <= end <= |w|
    ensures CodePoint(s, a + cur, a + end) == MovedCode(a, CodePoint(w, cur, end))
  {
    hide HexEscape;
    HexEscapeInWindow(s, w, a, cur, end);
    var c := HexEscape(w, cur, end);
    if c.CodeOk? && end - c.next >= 6 {
      assert s[a + c.next] == w[c.next];
      assert s[a + (c.next + 1)] == w[c.next + 1];
      HexEscapeInWindow(s, w, a, c.next + 2, end);
    }
  }

  function MovedText(a: nat, d: Decoded): Decoded {
    match d
    case Text(_) => d
    case Bad(problem, at) => Bad(problem, a + at)
  }

  lemma {:induction false} BodyInWindow(s: string, w: string, a: nat, cur: nat, end: nat)
    requires Occurs(s, a, w) && cur <= end <= |w|
    ensures DecodeBody(s, a + cur, a + end) == MovedText(a, DecodeBody(w, cur, end))
    decreases end - cur
  {
    hide CodePoint, Utf8, SimpleEscape;
    if cur < end && w[cur] != '"' {
      assert s[a + cur] == w[cur];
      if w[cur] != '\\' {
        BodyInWindow(s, w, a, cur + 1, end);
      } else if cur + 1 < end {
        assert s[a + (cur + 1)] == w[cur + 1];
        if w[cur + 1] == 'u' {
          CodePointInWindow(s, w, a, cur + 2, end);
          var c := CodePoint(w, cur + 2, end);
          if c.CodeOk? {
            BodyInWindow(s, w, a, c.next, end);
          }
        } else {
          BodyInWindow(s, w, a, cur + 2, end);
        }
      }
    } else if cur < end {
      assert s[a + cur] == w[cur];
    }
  }

  lemma TextInWindow(s: string, w: string, a: nat, p: nat, q: nat)
    requires Occurs(s, a, w) && p <= q <= |w|
    ensures s[a + p..a + q] == w[p..q]
  {
    forall i | 0 <= i < q - p ensures s[a + p..a + q][i] == w[p..q][i] {
      assert s[a + (p + i)] == w[p + i];
    }
  }
}
