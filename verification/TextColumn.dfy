/**
 `TextFlow::Column` of lib/catch.hpp: breaking a text into lines of limited width.
 */
module TextColumn {
  import opened Optional

  predicate IsWhitespace(c: char) {
    c in " \t\n\r"
  }

  predicate IsBreakableBefore(c: char) {
    c in "[({<|"
  }

  predicate IsBreakableAfter(c: char) {
    c in "])}>.,:;*+-=&/\\"
  }

  /** A piece of the text: its length, and whether a hyphen is added to it. */
  datatype Cut = Cut(len: nat, suffix: bool)

  /** A text to be set, with `initialIndent` absent where the source has `npos`. */
  datatype Column = Column(text: string, width: nat, indent: nat, initialIndent: Option<nat>) {

    function IndentAt(pos: nat): nat {
      if pos == 0 && initialIndent.Some? then initialIndent.value else indent
    }

    /** What the source asserts of a column before iterating over it. */
    predicate Usable() {
      indent < width && (initialIndent.Some? ==> initialIndent.value < width)
    }

    function Room(pos: nat): (r: nat)
      requires Usable()
      ensures r >= 1 && IndentAt(pos) + r == width
    {
      width - IndentAt(pos)
    }

    predicate IsBoundary(at: nat)
      requires 0 < at <= |text|
    {
      || at == |text|
      || (IsWhitespace(text[at]) && !IsWhitespace(text[at - 1]))
      || IsBreakableBefore(text[at])
      || IsBreakableAfter(text[at - 1])
    }

    /** Where the line that contains `pos` ends: at a newline or at the end of the text. */
    function LineEnd(pos: nat): (r: nat)
      requires pos <= |text|
      ensures pos <= r <= |text| && (r < |text| ==> text[r] == '\n')
      ensures forall i :: pos <= i < r ==> text[i] != '\n'
      decreases |text| - pos
    {
      if pos < |text| && text[pos] != '\n' then LineEnd(pos + 1) else pos
    }

    /** The greatest length up to `len` that ends at a boundary, or zero. */
    function BackToBoundary(pos: nat, len: nat): (r: nat)
      requires pos + len <= |text|
      ensures r <= len && (r > 0 ==> IsBoundary(pos + r))
      ensures forall at :: pos + r < at <= pos + len ==> !IsBoundary(at)
      decreases len
    {
      if len > 0 && !IsBoundary(pos + len) then BackToBoundary(pos, len - 1) else len
    }

    /** That length without trailing white space. */
    function Trimmed(pos: nat, len: nat): (r: nat)
      requires pos + len <= |text|
      ensures r <= len && (r > 0 ==> !IsWhitespace(text[pos + r - 1]))
      ensures forall i :: pos + r <= i < pos + len ==> IsWhitespace(text[i])
      decreases len
    {
      if len > 0 && IsWhitespace(text[pos + len - 1]) then Trimmed(pos, len - 1) else len
    }

    /** The piece at `pos`: the whole line if it fits, else up to a boundary, else hyphenated. */
    function CutAt(pos: nat): (c: Cut)
      requires Usable() && pos <= |text|
      ensures pos + c.len <= LineEnd(pos)
      ensures c.len + (if c.suffix then 1 else 0) <= Room(pos)
      ensures pos < LineEnd(pos) && Room(pos) >= 2 ==> c.len > 0
    {
      if LineEnd(pos) < pos + Room(pos) then Cut(LineEnd(pos) - pos, false)
      else
        var len := Trimmed(pos, BackToBoundary(pos, Room(pos)));
        if len > 0 then Cut(len, false) else Cut(Room(pos) - 1, true)
    }

    /** The first position not holding white space. */
    function SkipWhitespace(pos: nat): (r: nat)
      requires pos <= |text|
      ensures pos <= r <= |text| && forall i :: pos <= i < r ==> IsWhitespace(text[i])
      decreases |text| - pos
    {
      if pos < |text| && IsWhitespace(text[pos]) then SkipWhitespace(pos + 1) else pos
    }

    /** Where the next piece starts: behind one newline, or behind all white space. */
    function Next(pos: nat): (r: nat)
      requires Usable() && pos < |text|
      ensures pos <= r <= |text| && (Room(pos) >= 2 ==> pos < r)
      ensures forall i :: pos + CutAt(pos).len <= i < r ==> IsWhitespace(text[i])
      ensures pos + CutAt(pos).len <= r
    {
      var p := pos + CutAt(pos).len;
      if p < |text| && text[p] == '\n' then p + 1 else SkipWhitespace(p)
    }

    function PieceAt(pos: nat): string
      requires Usable() && pos <= |text|
    {
      text[pos..pos + CutAt(pos).len]
    }

    /** `addIndentAndSuffix` */
    function LineAt(pos: nat): string
      requires Usable() && pos <= |text|
    {
      seq(IndentAt(pos), i => ' ') + PieceAt(pos) + (if CutAt(pos).suffix then "-" else "")
    }

    /** Where the iteration stands `n` steps after it stood at `pos`. */
    function PosAfter(pos: nat, n: nat): (r: nat)
      requires Usable() && pos <= |text|
      ensures pos <= r <= |text|
      decreases n
    {
      if n == 0 || pos == |text| then pos else PosAfter(Next(pos), n - 1)
    }

    /** The pieces of the first `n` steps from `pos` on. */
    function PiecesFrom(pos: nat, n: nat): seq<string>
      requires Usable() && pos <= |text|
      decreases n
    {
      if n == 0 || pos == |text| then [] else [PieceAt(pos)] + PiecesFrom(Next(pos), n - 1)
    }

    function LinesFrom(pos: nat, n: nat): seq<string>
      requires Usable() && pos <= |text|
      decreases n
    {
      if n == 0 || pos == |text| then [] else [LineAt(pos)] + LinesFrom(Next(pos), n - 1)
    }

    /** The first `n` pieces from `begin()`: an empty first piece ends the iteration at once. */
    function FirstPieces(n: nat): seq<string>
      requires Usable()
    {
      if CutAt(0).len == 0 then [] else PiecesFrom(0, n)
    }

    function FirstLines(n: nat): seq<string>
      requires Usable()
    {
      if CutAt(0).len == 0 then [] else LinesFrom(0, n)
    }

    predicate EndsWithin(n: nat)
      requires Usable()
    {
      CutAt(0).len == 0 || PosAfter(0, n) == |text|
    }

    /** The iteration from `begin()` reaches `end()`. */
    ghost predicate Ends()
      requires Usable()
    {
      exists n :: EndsWithin(n)
    }

    /** Two columns are left for every line, or a line may break behind every solid character. */
    predicate Breakable()
      requires Usable()
    {
      || indent + 2 <= width
      || forall pos :: CutAt(0).len <= pos < |text| && !IsWhitespace(text[pos]) ==> IsBoundary(pos + 1)
    }

    predicate Stuck(pos: nat)
      requires Usable()
    {
      pos < |text| && Room(pos) == 1 && !IsWhitespace(text[pos]) && !IsBoundary(pos + 1)
    }
  }

  // ----- what is guaranteed -----

  function Solid(s: string): string {
    if s == [] then []
    else (if IsWhitespace(s[0]) then [] else [s[0]]) + Solid(s[1..])
  }

  function Joined(ps: seq<string>): string {
    if ps == [] then [] else ps[0] + Joined(ps[1..])
  }

  lemma {:induction false} SolidAppend(a: string, b: string)
    ensures Solid(a + b) == Solid(a) + Solid(b)
  {
    hide IsWhitespace;
    if a == [] {
      assert a + b == b;
    } else {
      assert (a + b)[1..] == a[1..] + b;
      SolidAppend(a[1..], b);
    }
  }

  lemma SolidInTwo(t: string, i: nat, j: nat)
    requires i <= j <= |t|
    ensures Solid(t[i..]) == Solid(t[i..j]) + Solid(t[j..])
  {
    hide *;
    SolidAppend(t[i..j], t[j..]);
    assert t[i..] == t[i..j] + t[j..];
  }

  lemma {:induction false} SolidOfWhitespace(s: string)
    requires forall i :: 0 <= i < |s| ==> IsWhitespace(s[i])
    ensures Solid(s) == []
  {
    hide IsWhitespace;
    if s != [] {
      SolidOfWhitespace(s[1..]);
    }
  }

  lemma SkippedIsWhite(c: Column, pos: nat)
    requires c.Usable() && pos < |c.text|
    ensures Solid(c.text[pos + c.CutAt(pos).len..c.Next(pos)]) == []
  {
    hide Column.CutAt, Column.Next, Solid, IsWhitespace;
    SolidOfWhitespace(c.text[pos + c.CutAt(pos).len..c.Next(pos)]);
  }

  /** One piece and the white space skipped behind it. */
  lemma PieceKeepsText(c: Column, pos: nat)
    requires c.Usable() && pos < |c.text|
    ensures Solid(c.text[pos..]) == Solid(c.PieceAt(pos)) + Solid(c.text[c.Next(pos)..])
  {
    hide Column.CutAt, Column.Next, IsWhitespace, Solid;
    var q := pos + c.CutAt(pos).len;
    SkippedIsWhite(c, pos);
    SolidInTwo(c.text, pos, q);
    SolidInTwo(c.text, q, c.Next(pos));
  }

  /** The pieces of any number of steps and the text still ahead hold all that is not white space, in order. */
  lemma {:induction false} PiecesKeepText(c: Column, pos: nat, n: nat)
    requires c.Usable() && pos <= |c.text|
    ensures Solid(Joined(c.PiecesFrom(pos, n))) + Solid(c.text[c.PosAfter(pos, n)..]) == Solid(c.text[pos..])
    decreases n
  {
    hide Column.CutAt, Column.Next, Column.PieceAt, IsWhitespace, Solid;
    if n == 0 || pos == |c.text| {
      SolidOfWhitespace([]);
    } else {
      var next := c.Next(pos);
      var rest := c.PiecesFrom(next, n - 1);
      PiecesKeepText(c, next, n - 1);
      PieceKeepsText(c, pos);
      assert c.PiecesFrom(pos, n) == [c.PieceAt(pos)] + rest;
      JoinedSolid(c.PieceAt(pos), rest);
    }
  }

  lemma JoinedSolid(p: string, rest: seq<string>)
    ensures Solid(Joined([p] + rest)) == Solid(p) + Solid(Joined(rest))
  {
    hide Solid;
    assert ([p] + rest)[1..] == rest;
    SolidAppend(p, Joined(rest));
  }

  predicate FitsIn(line: string, width: nat) {
    |line| <= width && forall i :: 0 <= i < |line| ==> line[i] != '\n'
  }

  lemma LineFits(c: Column, pos: nat)
    requires c.Usable() && pos <= |c.text|
    ensures FitsIn(c.LineAt(pos), c.width)
  {
    hide Column.CutAt, Column.LineEnd;
    var blanks := seq(c.IndentAt(pos), i => ' ');
    var piece := c.PieceAt(pos);
    assert FitsIn(blanks, c.IndentAt(pos));
    assert FitsIn(piece, c.CutAt(pos).len);
    var hyphen := if c.CutAt(pos).suffix then "-" else "";
    FitsTogether(blanks, piece, hyphen);
  }

  lemma FitsTogether(a: string, b: string, c: string)
    requires FitsIn(a, |a|) && FitsIn(b, |b|) && FitsIn(c, |c|)
    ensures FitsIn(a + b + c, |a| + |b| + |c|)
  {
  }

  /** Every line is at most the width and holds no newline. */
  lemma {:induction false} LinesFit(c: Column, pos: nat, n: nat)
    requires c.Usable() && pos <= |c.text|
    ensures forall line :: line in c.LinesFrom(pos, n) ==> FitsIn(line, c.width)
    decreases n
  {
    hide Column.CutAt, Column.Next, Column.LineAt, FitsIn;
    if n > 0 && pos < |c.text| {
      LinesFit(c, c.Next(pos), n - 1);
      LineFits(c, pos);
    }
  }

  // ----- where lines break -----

  /** A boundary in the room of the line at `pos`, with something before it that is not white space. */
  predicate Breaks(c: Column, pos: nat, at: nat)
    requires c.Usable()
  {
    && pos < at <= pos + c.Room(pos) && at <= |c.text| && c.IsBoundary(at)
    && exists i :: pos <= i < at && !IsWhitespace(c.text[i])
  }

  /** `end` is where the text from `pos` to `at` ends when its trailing white space is removed. */
  predicate TrimmedEnd(c: Column, pos: nat, at: nat, end: nat) {
    && pos < end <= at <= |c.text| && !IsWhitespace(c.text[end - 1])
    && forall i :: end <= i < at ==> IsWhitespace(c.text[i])
  }

  /**
   A line that ends in the room is one piece.  A longer one gets a hyphen exactly if it cannot
   break in the room; else it ends before the last place where it can, white space removed.
   */
  lemma CutAtLastBreak(c: Column, pos: nat)
    requires c.Usable() && pos <= |c.text|
    ensures c.LineEnd(pos) < pos + c.Room(pos) ==> c.CutAt(pos) == Cut(c.LineEnd(pos) - pos, false)
    ensures c.LineEnd(pos) >= pos + c.Room(pos) ==> (c.CutAt(pos).suffix <==> forall at: nat :: !Breaks(c, pos, at))
    ensures c.CutAt(pos).suffix ==> c.CutAt(pos).len == c.Room(pos) - 1
    ensures c.LineEnd(pos) >= pos + c.Room(pos) && !c.CutAt(pos).suffix ==>
              exists at: nat :: && Breaks(c, pos, at) && TrimmedEnd(c, pos, at, pos + c.CutAt(pos).len)
                           && forall later: nat :: Breaks(c, pos, later) ==> later <= at
  {
    hide Column.LineEnd, Column.IsBoundary, IsWhitespace, Column.BackToBoundary, Column.Trimmed;
    if c.LineEnd(pos) >= pos + c.Room(pos) {
      var back := c.BackToBoundary(pos, c.Room(pos));
      var len := c.Trimmed(pos, back);
      forall at: nat | Breaks(c, pos, at) ensures at <= pos + back && len > 0 {
      }
      if len > 0 {
        assert Breaks(c, pos, pos + back) by { assert !IsWhitespace(c.text[pos + len - 1]); }
        assert TrimmedEnd(c, pos, pos + back, pos + len);
      }
    }
  }

  /** Behind a piece one newline is left out, or else all white space up to the next solid character. */
  lemma NextIsBehind(c: Column, pos: nat)
    requires c.Usable() && pos < |c.text|
    ensures var end, next := pos + c.CutAt(pos).len, c.Next(pos);
            if end < |c.text| && c.text[end] == '\n' then next == end + 1
            else (forall i :: end <= i < next ==> IsWhitespace(c.text[i])) && (next == |c.text| || !IsWhitespace(c.text[next]))
  {
    hide Column.CutAt, IsWhitespace;
    SkippedTo(c, pos + c.CutAt(pos).len);
  }

  lemma {:induction false} SkippedTo(c: Column, pos: nat)
    requires pos <= |c.text|
    ensures c.SkipWhitespace(pos) == |c.text| || !IsWhitespace(c.text[c.SkipWhitespace(pos)])
    decreases |c.text| - pos
  {
    hide IsWhitespace;
    if pos < |c.text| && IsWhitespace(c.text[pos]) {
      SkippedTo(c, pos + 1);
    }
  }

  /** The characters at which a line may break. */
  lemma BoundaryIff(c: Column, at: nat)
    requires 0 < at <= |c.text|
    ensures c.IsBoundary(at) <==>
            || at == |c.text|
            || (Among(c.text[at], " \t\n\r") && !Among(c.text[at - 1], " \t\n\r"))
            || Among(c.text[at], "[({<|") || Among(c.text[at - 1], "])}>.,:;*+-=&/\\")
  {
  }

  predicate Among(c: char, list: string) {
    exists i :: 0 <= i < |list| && list[i] == c
  }

  /** The line shown at a position: blanks, text from there on, and a hyphen if one is added. */
  lemma LineShows(c: Column, pos: nat)
    requires c.Usable() && pos <= |c.text|
    ensures var line, n, cut := c.LineAt(pos), if pos == 0 && c.initialIndent.Some? then c.initialIndent.value else c.indent, c.CutAt(pos);
            && |line| == n + cut.len + (if cut.suffix then 1 else 0)
            && (forall i :: 0 <= i < n ==> line[i] == ' ')
            && (forall i :: n <= i < n + cut.len ==> line[i] == c.text[pos + i - n])
            && (cut.suffix ==> line[n + cut.len] == '-')
  {
    hide Column.CutAt;
  }

  // ----- when the iteration ends -----

  /** A single step makes no progress exactly where one column is left and no break may follow. */
  lemma StuckIff(c: Column, pos: nat)
    requires c.Usable() && pos < |c.text|
    ensures c.Next(pos) == pos <==> c.Stuck(pos)
  {
    assert IsWhitespace('\n');
    hide IsWhitespace, Column.IsBoundary;
    if c.Room(pos) == 1 {
      assert c.BackToBoundary(pos, 0) == 0 && c.Trimmed(pos, 0) == 0;
    }
  }

  /** Where nothing is stuck, as many steps as there are characters reach the end. */
  lemma {:induction false} FreeEnds(c: Column, pos: nat, n: nat)
    requires c.Usable() && pos <= |c.text| <= pos + n
    requires forall q :: pos <= q < |c.text| ==> !c.Stuck(q)
    ensures c.PosAfter(pos, n) == |c.text|
    decreases n
  {
    hide Column.CutAt, Column.Next, Column.Stuck;
    if pos < |c.text| {
      StuckIff(c, pos);
      FreeEnds(c, c.Next(pos), n - 1);
    }
  }

  /** With one column left no step passes over a character that is not white space. */
  lemma NextNotPast(c: Column, pos: nat, q: nat)
    requires c.Usable() && pos < q < |c.text| && !IsWhitespace(c.text[q]) && pos + c.CutAt(pos).len <= q
    ensures c.Next(pos) <= q
  {
    hide Column.CutAt;
    assert IsWhitespace('\n');
  }

  lemma {:induction false} StuckStays(c: Column, pos: nat, q: nat, n: nat)
    requires c.Usable() && 0 < pos <= q && c.indent + 1 == c.width && c.Stuck(q)
    ensures c.PosAfter(pos, n) <= q
    decreases n
  {
    hide Column.CutAt, Column.Next, IsWhitespace, Column.IsBoundary;
    if n > 0 {
      if pos == q {
        StuckIff(c, q);
      } else {
        NextNotPast(c, pos, q);
      }
      StuckStays(c, c.Next(pos), q, n - 1);
    }
  }

  /** The first step comes to the first solid character behind the first piece, or stops before it. */
  lemma FirstStep(c: Column)
    requires c.Usable() && c.CutAt(0).len > 0
    ensures 0 < c.CutAt(0).len <= c.Next(0) <= |c.text|
    ensures forall q :: c.CutAt(0).len <= q < |c.text| && !IsWhitespace(c.text[q]) ==> c.Next(0) <= q
  {
    hide Column.CutAt, Column.Next, IsWhitespace;
  }

  lemma BreakableEnds(c: Column)
    requires c.Usable() && c.CutAt(0).len > 0 && c.Breakable()
    ensures c.PosAfter(0, |c.text|) == |c.text|
  {
    hide Column.CutAt, Column.Next, IsWhitespace, Column.IsBoundary;
    FirstStep(c);
    forall q | c.Next(0) <= q < |c.text| ensures !c.Stuck(q) {
    }
    FreeEnds(c, c.Next(0), |c.text| - 1);
  }

  lemma UnbreakableStays(c: Column, n: nat) returns (q: nat)
    requires c.Usable() && c.CutAt(0).len > 0 && !c.Breakable()
    ensures c.PosAfter(0, n) <= q < |c.text| && !IsWhitespace(c.text[q])
  {
    hide Column.CutAt, Column.Next, IsWhitespace, Column.IsBoundary;
    FirstStep(c);
    q :| c.CutAt(0).len <= q < |c.text| && !IsWhitespace(c.text[q]) && !c.IsBoundary(q + 1);
    assert c.Stuck(q);
    if n > 0 {
      StuckStays(c, c.Next(0), q, n - 1);
    }
  }

  /**
   The iteration ends exactly if its first piece is empty, two columns are left for the other
   lines, or a break may follow every solid character behind the first piece; and then it ends
   within as many steps as there are characters.
   */
  lemma IterationEndsIff(c: Column)
    requires c.Usable()
    ensures c.Ends() <==> c.CutAt(0).len == 0 || c.Breakable()
    ensures c.Ends() ==> c.EndsWithin(|c.text|)
  {
    hide Column.CutAt, Column.Next, Column.Breakable, Column.PosAfter;
    if c.CutAt(0).len == 0 {
      assert c.EndsWithin(|c.text|);
    } else if c.Breakable() {
      BreakableEnds(c);
      assert c.EndsWithin(|c.text|);
    } else {
      forall n ensures !c.EndsWithin(n) {
        var q := UnbreakableStays(c, n);
      }
    }
  }

  /** When the first piece is empty, and with it the whole iteration. */
  lemma FirstPieceEmptyIff(c: Column)
    requires c.Usable()
    ensures c.CutAt(0).len == 0
            <==> || c.text == [] || c.text[0] == '\n'
                 || (c.Room(0) == 1 && (IsWhitespace(c.text[0]) || !c.IsBoundary(1)))
  {
    hide IsWhitespace, Column.IsBoundary;
    if c.text != [] && c.Room(0) == 1 {
      assert c.BackToBoundary(0, 0) == 0 && c.Trimmed(0, 0) == 0;
    }
  }

  /**
   An iteration that ends keeps the text exactly if its first piece is not empty or there is
   nothing to keep; one that does not end never gives all of the text.
   */
  lemma IterationKeepsTextIff(c: Column)
    requires c.Usable()
    ensures c.Ends() ==> (Solid(Joined(c.FirstPieces(|c.text|))) == Solid(c.text)
                          <==> c.CutAt(0).len > 0 || Solid(c.text) == [])
    ensures !c.Ends() ==> forall n :: Solid(Joined(c.FirstPieces(n))) != Solid(c.text)
  {
    hide IsWhitespace, Solid, Column.CutAt, Column.Breakable, Column.PosAfter, Column.PiecesFrom, Column.Ends;
    IterationEndsIff(c);
    SolidOfWhitespace([]);
    assert c.text[0..] == c.text && c.text[|c.text|..] == [];
    if c.CutAt(0).len > 0 {
      PiecesKeepText(c, 0, |c.text|);
      if !c.Ends() {
        forall n ensures Solid(Joined(c.FirstPieces(n))) != Solid(c.text) {
          PiecesKeepText(c, 0, n);
          var q := UnbreakableStays(c, n);
          SolidCharacter(c.text, c.PosAfter(0, n), q);
        }
      }
    }
  }

  lemma SolidCharacter(t: string, i: nat, q: nat)
    requires i <= q < |t| && !IsWhitespace(t[q])
    ensures Solid(t[i..]) != []
  {
    hide IsWhitespace;
    SolidInTwo(t, i, q);
    assert t[q..][0] == t[q];
  }

  // ----- columns on which more might be expected -----

  /** A text that starts with a newline comes out empty. */
  lemma LeadingNewlineLosesText(c: Column)
    requires c.Usable() && c.text == "\na"
    ensures c.Ends() && (forall n :: c.FirstLines(n) == []) && Solid(c.text) == "a"
  {
    FirstPieceEmptyIff(c);
    assert c.EndsWithin(0);
    assert c.text[1..] == "a" && "a"[1..] == [];
    assert Solid("a") == "a";
  }

  lemma LetterIsPlain(ch: char)
    requires 'a' <= ch <= 'z'
    ensures !IsWhitespace(ch) && !IsBreakableBefore(ch) && !IsBreakableAfter(ch)
  {
  }

  /** Inside a word there is no boundary. */
  lemma NoBreakInWord(c: Column)
    requires forall i :: 0 <= i < |c.text| ==> 'a' <= c.text[i] <= 'z'
    ensures forall i :: 0 <= i < |c.text| ==> !IsWhitespace(c.text[i])
    ensures forall at :: 0 < at < |c.text| ==> !c.IsBoundary(at)
  {
    hide IsWhitespace, IsBreakableBefore, IsBreakableAfter;
    forall i | 0 <= i < |c.text|
      ensures !IsWhitespace(c.text[i]) && !IsBreakableBefore(c.text[i]) && !IsBreakableAfter(c.text[i])
    {
      LetterIsPlain(c.text[i]);
    }
  }

  /** A piece cut inside a word takes all the room but the hyphen's. */
  lemma WordIsHyphenated(c: Column, pos: nat)
    requires c.Usable() && (forall i :: 0 <= i < |c.text| ==> 'a' <= c.text[i] <= 'z')
    requires pos + c.Room(pos) < |c.text|
    ensures c.CutAt(pos) == Cut(c.Room(pos) - 1, true) && c.Next(pos) == pos + c.Room(pos) - 1
  {
    NoBreakInWord(c);
    hide IsWhitespace, Column.IsBoundary;
    assert c.LineEnd(pos) == |c.text|;
    assert c.BackToBoundary(pos, c.Room(pos)) == 0;
    assert c.Trimmed(pos, 0) == 0;
  }

  lemma {:induction false} SolidOfWord(t: string)
    requires forall i :: 0 <= i < |t| ==> 'a' <= t[i] <= 'z'
    ensures Solid(t) == t
  {
    if t != [] {
      LetterIsPlain(t[0]);
      hide IsWhitespace;
      SolidOfWord(t[1..]);
      assert t == [t[0]] + t[1..];
    }
  }

  /** So does one with a single column and no break behind the first character. */
  lemma SingleColumnLosesText(c: Column)
    requires c == Column("ab", 1, 0, None)
    ensures c.Usable() && c.Ends() && (forall n :: c.FirstLines(n) == []) && Solid(c.text) == "ab"
  {
    hide Solid, Column.CutAt, Column.Next, Column.PosAfter, Column.LinesFrom;
    WordIsHyphenated(c, 0);
    assert c.EndsWithin(0);
    SolidOfWord(c.text);
  }

  /** The first line takes two characters, then a hyphen alone is repeated for ever. */
  lemma SingleColumnLoops(c: Column)
    requires c == Column("abcde", 3, 2, Some(0))
    ensures c.Usable() && c.Next(0) == 2 && c.Next(2) == 2 && !c.Ends()
    ensures c.LineAt(0) == "ab-" && c.LineAt(2) == "  -"
  {
    hide Column.CutAt, Column.Next, Column.Ends;
    LoopsInWord(c);
    assert c.PieceAt(0) == "ab" && c.PieceAt(2) == "";
    hide Column.PieceAt;
    assert seq(0, i => ' ') == "" && seq(2, i => ' ') == "  ";
  }

  lemma LoopsInWord(c: Column)
    requires c.Usable() && |c.text| == 5 && (forall i :: 0 <= i < |c.text| ==> 'a' <= c.text[i] <= 'z')
    requires c.width == 3 && c.indent == 2 && c.initialIndent == Some(0)
    ensures c.CutAt(0) == Cut(2, true) && c.CutAt(2) == Cut(0, true)
    ensures c.Next(0) == 2 && c.Next(2) == 2 && !c.Ends()
  {
    hide Column.CutAt, Column.Next, Column.IsBoundary, IsWhitespace, Column.Ends;
    WordIsHyphenated(c, 0);
    WordIsHyphenated(c, 2);
    NoBreakInWord(c);
    assert !c.IsBoundary(2 + 1);
    IterationEndsIff(c);
  }

  // ----- the iterator -----

  class Iterator {
    const column: Column
    var stringIndex: nat
    var pos: nat
    var len: nat
    var suffix: bool

    /** The iterator stands at a position of the text, or at the end. */
    ghost predicate Valid()
      reads this
    {
      && column.Usable()
      && (stringIndex == 0 ==> pos < |column.text| && Cut(len, suffix) == column.CutAt(pos))
      && (stringIndex == 1 ==> pos == 0)
      && stringIndex <= 1
    }

    /** How far the iterator has come in the text. */
    ghost function Place(): nat
      requires Valid()
      reads this
    {
      if stringIndex == 1 then |column.text| else pos
    }

    constructor (column: Column)
      requires column.Usable()
      ensures this.column == column && Valid() && pos == 0
      ensures stringIndex == 1 <==> column.CutAt(0).len == 0
    {
      this.column := column;
      stringIndex, pos, len, suffix := 0, 0, 0, false;
      new;
      CalcLength();
      if len == 0 {
        stringIndex := stringIndex + 1;
      }
    }

    function Indent(): nat
      reads this
    {
      if pos == 0 && stringIndex == 0 && column.initialIndent.Some? then column.initialIndent.value else column.indent
    }

    method FindLineEnd() returns (end: nat)
      requires stringIndex == 0 && pos <= |column.text|
      ensures end == column.LineEnd(pos)
    {
      end := pos;
      while end < |column.text| && column.text[end] != '\n'
        invariant pos <= end <= |column.text| && column.LineEnd(end) == column.LineEnd(pos)
      {
        end := end + 1;
      }
    }

    /** The two loops that shorten a piece which does not fit. */
    method BackOff(width: nat) returns (l: nat)
      requires pos + width <= |column.text|
      ensures l == column.Trimmed(pos, column.BackToBoundary(pos, width))
    {
      hide IsWhitespace, Column.IsBoundary;
      l := width;
      while l > 0 && !column.IsBoundary(pos + l)
        invariant l <= width && column.BackToBoundary(pos, l) == column.BackToBoundary(pos, width)
      {
        l := l - 1;
      }
      ghost var kept := l;
      while l > 0 && IsWhitespace(column.text[pos + l - 1])
        invariant l <= kept && column.Trimmed(pos, l) == column.Trimmed(pos, kept)
      {
        l := l - 1;
      }
    }

    method CalcLength()
      requires column.Usable() && stringIndex == 0 && pos <= |column.text|
      modifies `len, `suffix
      ensures Cut(len, suffix) == column.CutAt(pos)
    {
      hide Column.LineEnd, Column.Trimmed, Column.BackToBoundary;
      suffix := false;
      var width := column.width - Indent();
      var end := FindLineEnd();
      if end < pos + width {
        len := end - pos;
      } else {
        var l := BackOff(width);
        if l > 0 {
          len := l;
        } else {
          suffix := true;
          len := width - 1;
        }
      }
    }

    /** `operator *` */
    method Line() returns (line: string)
      requires Valid() && stringIndex == 0
      ensures line == column.LineAt(pos)
    {
      var plain := column.text[pos..pos + len];
      line := seq(Indent(), i => ' ') + (if suffix then plain + "-" else plain);
    }

    method SkipSpace(from: nat) returns (p: nat)
      requires from <= |column.text|
      ensures p == column.SkipWhitespace(from)
    {
      hide IsWhitespace;
      p := from;
      while p < |column.text| && IsWhitespace(column.text[p])
        invariant from <= p <= |column.text| && column.SkipWhitespace(p) == column.SkipWhitespace(from)
      {
        p := p + 1;
      }
    }

    /** `operator ++` */
    method Advance()
      requires Valid() && stringIndex == 0
      modifies this
      ensures Valid() && Place() == column.Next(old(pos))
    {
      hide Column.CutAt, Column.SkipWhitespace, Column.LineEnd, IsWhitespace;
      var line := column.text;
      pos := pos + len;
      if pos < |line| && line[pos] == '\n' {
        pos := pos + 1;
      } else {
        pos := SkipSpace(pos);
      }
      if pos == |line| {
        pos := 0;
        stringIndex := stringIndex + 1;
      } else {
        CalcLength();
      }
    }
  }

  lemma OneStep(c: Column, pos: nat, n: nat, before: seq<string>)
    requires c.Usable() && pos < |c.text| && n > 0
    ensures before + c.LinesFrom(pos, n) == before + [c.LineAt(pos)] + c.LinesFrom(c.Next(pos), n - 1)
    ensures c.PosAfter(pos, n) == c.PosAfter(c.Next(pos), n - 1)
  {
    hide Column.CutAt, Column.Next, Column.LineAt;
    assert before + ([c.LineAt(pos)] + c.LinesFrom(c.Next(pos), n - 1))
        == before + [c.LineAt(pos)] + c.LinesFrom(c.Next(pos), n - 1);
  }

  lemma NoStep(c: Column, pos: nat, n: nat, before: seq<string>)
    requires c.Usable() && pos <= |c.text| && (pos == |c.text| || n == 0)
    ensures before + c.LinesFrom(pos, n) == before && c.PosAfter(pos, n) == pos
  {
  }

  /** At most `n` lines of any column the source's assertions accept, and whether it then ended. */
  method TakeLines(column: Column, n: nat) returns (lines: seq<string>, ended: bool)
    requires column.Usable()
    ensures lines == column.FirstLines(n) && ended == column.EndsWithin(n)
  {
    hide Column.CutAt, Column.Next, Column.LineAt, Column.LinesFrom, Column.PosAfter, Column.Usable;
    var it := new Iterator(column);
    lines := [];
    if it.stringIndex == 1 {
      return lines, true;
    }
    var left := n;
    ghost var goal, last := lines + column.LinesFrom(0, n), column.PosAfter(0, n);
    while it.stringIndex != 1 && left > 0
      invariant it.Valid() && it.column == column && fresh(it)
      invariant lines + column.LinesFrom(it.Place(), left) == goal && column.PosAfter(it.Place(), left) == last
      decreases left
    {
      OneStep(column, it.pos, left, lines);
      var line := it.Line();
      it.Advance();
      lines := lines + [line];
      left := left - 1;
    }
    NoStep(column, it.Place(), left, lines);
    ended := it.stringIndex == 1;
  }

  /** Printing a column, from `begin()` to `end()`; on other columns the source does not return. */
  method SetText(column: Column) returns (lines: seq<string>)
    requires column.Usable() && (column.CutAt(0).len == 0 || column.Breakable())
    ensures lines == column.FirstLines(|column.text|)
  {
    hide Column.CutAt, Column.Next, Column.LineAt, Column.LinesFrom, Column.PosAfter, Column.Usable, Column.Breakable;
    var it := new Iterator(column);
    lines := [];
    if it.stringIndex == 1 {
      return;
    }
    BreakableEnds(column);
    ghost var left: nat := |column.text|;
    ghost var goal := lines + column.LinesFrom(0, left);
    while it.stringIndex != 1
      invariant it.Valid() && it.column == column && fresh(it)
      invariant lines + column.LinesFrom(it.Place(), left) == goal
      invariant column.PosAfter(it.Place(), left) == |column.text|
      decreases left
    {
      if left == 0 {
        NoStep(column, it.pos, left, lines);
      }
      OneStep(column, it.pos, left, lines);
      var line := it.Line();
      it.Advance();
      lines := lines + [line];
      left := left - 1;
    }
    NoStep(column, it.Place(), left, lines);
  }
}
