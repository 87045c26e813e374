/** Gaps and the tokens behind them, as the reader finds them. */
module JsonGaps {
  import opened JsonLexer
  import opened JsonTokens
  import opened JsonGrammar

  lemma BlankIs(c: char)
    ensures Blank(c) <==> IsSpace(c)
  {
    var list := " \t\r\n";
    assert list[0] == ' ' && list[1] == '\t' && list[2] == '\r' && list[3] == '\n';
  }

  lemma FirstAt(s: string, p: nat, t: string)
    requires Occurs(s, p, t) && t != []
    ensures p < |s| && s[p] == t[0]
  {
    assert s[p + 0] == t[0];
  }

  // ----- gaps are skipped -----

  lemma SpaceSkipped(s: string, p: nat)
    requires p < |s| && IsSpace(s[p])
    ensures NextToken(s, p) == NextToken(s, p + 1) && ReadToken(s, p) == ReadToken(s, p + 1)
  {
    hide TokenAt;
    assert SkipSpaces(s, p) == SkipSpaces(s, p + 1);
  }

  lemma CommentOccurs(s: string, p: nat, u: string)
    requires IsComment(u) && Occurs(s, p, u)
    ensures Stands(s, p, p + |u|, Comment) && p < |s| && !IsSpace(s[p])
  {
    assert s[p + 0] == u[0] && s[p + 1] == u[1];
    if BlockComment(u, 0, |u|) {
      var n := |u|;
      assert s[p + (n - 2)] == u[n - 2] && s[p + (n - 1)] == u[n - 1];
      forall i: nat | p + 2 <= i < p + n - 2 ensures !CloseAt(s, i) {
        assert s[p + (i - p)] == u[i - p] && s[p + (i - p + 1)] == u[i - p + 1];
        assert !CloseAt(u, i - p);
      }
    } else {
      var n := |u|;
      assert s[p + (n - 1)] == u[n - 1];
      forall i | p + 2 <= i < p + n - 1 ensures !IsNewline(s[i]) {
        assert s[p + (i - p)] == u[i - p];
      }
    }
  }

  lemma CommentSkipped(s: string, p: nat, u: string)
    requires IsComment(u) && Occurs(s, p, u)
    ensures NextToken(s, p) == NextToken(s, p + |u|) && ReadToken(s, p).kind == Comment
  {
    hide TokenAt, IsComment, Stands;
    CommentOccurs(s, p, u);
    TokenIff(s, p, Comment, p + |u|);
    assert SkipSpaces(s, p) == p;
  }

  lemma UnitSkipped(s: string, p: nat, u: string)
    requires GapUnit(u) && Occurs(s, p, u)
    ensures NextToken(s, p) == NextToken(s, p + |u|)
  {
    hide NextToken, ReadToken, IsComment, Blank;
    if |u| == 1 && Blank(u[0]) {
      FirstAt(s, p, u);
      BlankIs(u[0]);
      SpaceSkipped(s, p);
    } else {
      CommentSkipped(s, p, u);
    }
  }

  lemma {:induction false} GapSkipped(s: string, p: nat, gap: seq<string>)
    requires IsGap(gap) && Occurs(s, p, Concat(gap))
    ensures NextToken(s, p) == NextToken(s, p + |Concat(gap)|)
    decreases |gap|
  {
    hide NextToken, GapUnit, Occurs;
    if gap != [] {
      OccursInTwo(s, p, gap[0], Concat(gap[1..]));
      OccursLength(s, p, gap[0]);
      UnitSkipped(s, p, gap[0]);
      GapSkipped(s, p + |gap[0]|, gap[1..]);
    } else {
      OccursLength(s, p, []);
    }
  }

  lemma OccursLength(s: string, p: nat, t: string)
    requires Occurs(s, p, t)
    ensures p + |t| <= |s|
  {
  }

  /** The token behind a gap is the next one. */
  lemma TokenBehindGap(s: string, p: nat, gap: seq<string>, q: nat)
    requires IsGap(gap) && Occurs(s, p, Concat(gap)) && q == p + |Concat(gap)| < |s|
    requires !IsSpace(s[q]) && TokenAt(s, q).kind != Comment
    ensures NextToken(s, p) == TokenAt(s, q)
  {
    hide TokenAt, IsGap, Concat;
    GapSkipped(s, p, gap);
    assert SkipSpaces(s, q) == q;
  }

  lemma {:induction false} BlanksSkipped(s: string, p: nat, b: string)
    requires AllBlank(b) && Occurs(s, p, b)
    ensures p + |b| <= |s| && ReadToken(s, p) == ReadToken(s, p + |b|) && SkipSpaces(s, p) == SkipSpaces(s, p + |b|)
    decreases |b|
  {
    hide ReadToken, Blank;
    if b != [] {
      assert [b[0]] + b[1..] == b;
      OccursInTwo(s, p, [b[0]], b[1..]);
      FirstAt(s, p, [b[0]]);
      BlankIs(b[0]);
      SpaceSkipped(s, p);
      BlanksSkipped(s, p + 1, b[1..]);
    }
  }

  /** A comment somewhere in the gap is the first token found in it. */
  lemma {:induction false} CommentComesFirst(s: string, p: nat, gap: seq<string>)
    requires IsGap(gap) && HasComment(gap) && Occurs(s, p, Concat(gap))
    ensures p <= |s| && ReadToken(s, p).kind == Comment
    decreases |gap|
  {
    hide ReadToken, NextToken, IsComment, Blank;
    OccursInTwo(s, p, gap[0], Concat(gap[1..]));
    if IsComment(gap[0]) {
      CommentSkipped(s, p, gap[0]);
    } else {
      assert GapUnit(gap[0]);
      FirstAt(s, p, gap[0]);
      BlankIs(gap[0][0]);
      SpaceSkipped(s, p);
      CommentComesFirst(s, p + 1, gap[1..]);
    }
  }

  // ----- gaps are found -----

  /** The blanks at the start as units of a gap. */
  function Units(b: string): (r: seq<string>)
    ensures |r| == |b| && forall i :: 0 <= i < |b| ==> r[i] == [b[i]]
  {
    seq(|b|, i requires 0 <= i < |b| => [b[i]])
  }

  lemma {:induction false} UnitsConcat(b: string)
    ensures Concat(Units(b)) == b
  {
    if b != [] {
      assert Units(b)[1..] == Units(b[1..]);
      UnitsConcat(b[1..]);
      assert b == [b[0]] + b[1..];
    }
  }

  lemma {:induction false} ConcatAppend(a: seq<string>, b: seq<string>)
    ensures Concat(a + b) == Concat(a) + Concat(b)
  {
    if a == [] {
      assert a + b == b;
    } else {
      assert (a + b)[0] == a[0] && (a + b)[1..] == a[1..] + b;
      ConcatAppend(a[1..], b);
    }
  }

  lemma BlanksFound(s: string, p: nat) returns (gap: seq<string>)
    requires p <= |s|
    ensures IsGap(gap) && !HasComment(gap) && Concat(gap) == s[p..SkipSpaces(s, p)]
  {
    hide SkipSpaces;
    var b := s[p..SkipSpaces(s, p)];
    gap := Units(b);
    UnitsConcat(b);
    forall i | 0 <= i < |gap| ensures GapUnit(gap[i]) && !IsComment(gap[i]) {
      assert IsSpace(s[p + i]);
      BlankIs(b[i]);
    }
  }

  lemma CommentFound(s: string, p: nat, e: nat)
    requires Stands(s, p, e, Comment) && e < |s|
    ensures p <= e && IsComment(s[p..e])
  {
    var u := s[p..e];
    assert u[0] == s[p] && u[1] == s[p + 1];
    if BlockComment(s, p, e) {
      assert u[|u| - 2] == s[e - 2] && u[|u| - 1] == s[e - 1];
      forall i: nat | 2 <= i < |u| - 2 ensures !CloseAt(u, i) {
        assert !CloseAt(s, p + i);
      }
    } else {
      assert u[|u| - 1] == s[e - 1];
      forall i | 2 <= i < |u| - 1 ensures !IsNewline(u[i]) {
        assert u[i] == s[p + i];
      }
    }
  }

  /** Whatever the reader skips before a token is a gap; it has a comment exactly if one was read first. */
  lemma {:induction false} GapFound(s: string, p: nat) returns (gap: seq<string>)
    requires p <= |s| && NextToken(s, p).start < |s|
    ensures IsGap(gap) && Concat(gap) == s[p..NextToken(s, p).start]
    ensures HasComment(gap) <==> ReadToken(s, p).kind == Comment
    decreases |s| - p
  {
    hide TokenAt, GapUnit, IsComment, Stands;
    var q := SkipSpaces(s, p);
    gap := BlanksFound(s, p);
    var t := TokenAt(s, q);
    if t.kind == Comment {
      assert NextToken(s, p) == NextToken(s, t.end);
      TokenIff(s, q, Comment, t.end);
      CommentFound(s, q, t.end);
      var u := s[q..t.end];
      var rest := GapFound(s, t.end);
      var tail := [u] + rest;
      assert tail[1..] == rest && GapUnit(u) by { CommentIsUnit(u); }
      ConcatAppend(gap, tail);
      ThreeSlices(s, p, q, t.end, NextToken(s, p).start);
      var n := |gap|;
      gap := gap + tail;
      assert gap[n] == u;
    }
  }

  lemma ThreeSlices(s: string, a: nat, b: nat, c: nat, d: nat)
    requires a <= b <= c <= d <= |s|
    ensures s[a..d] == s[a..b] + (s[b..c] + s[c..d])
  {
  }

  lemma CommentIsUnit(u: string)
    requires IsComment(u)
    ensures GapUnit(u)
  {
  }
}
