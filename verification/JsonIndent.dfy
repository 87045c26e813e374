/**
 The white space of written text, told from the text alone.  A scan over the characters counts
 the brackets that are open outside literals; styled text indents every line by three columns
 for each of them, and compact text has no white space outside literals but, in the
 YAML-compatible form, one space behind every colon.
 */
module JsonIndent {
  import opened JsonValue
  import opened JsonLexer
  import opened JsonNumber
  import opened JsonString
  import opened JsonText
  import opened JsonWriter
  import opened JsonLayout
  import opened JsonStyledWriter

  // ----- the scan -----

  /** Open brackets, whether a literal or an escape in it is open, and whether a colon came last. */
  datatype Mode = Mode(depth: int, quoted: bool, escaped: bool, colon: bool) {
    predicate Outside() {
      !quoted && !escaped
    }

    function Feed(c: char): Mode {
      if quoted then
        if escaped then Mode(depth, true, false, false)
        else Mode(depth, c != '"', c == '\\', false)
      else if c == '"' then Mode(depth, true, false, false)
      else if c == '[' || c == '{' then Mode(depth + 1, false, false, false)
      else if c == ']' || c == '}' then Mode(depth - 1, false, false, false)
      else Mode(depth, false, false, c == ':')
    }

    function After(s: string): Mode
      decreases |s|
    {
      if s == [] then this else Feed(s[0]).After(s[1..])
    }
  }

  const START := Mode(0, false, false, false)

  lemma {:induction false} AfterAppend(m: Mode, a: string, b: string)
    ensures m.After(a + b) == m.After(a).After(b)
    decreases |a|
  {
    hide Mode.Feed;
    if a == [] {
      assert a + b == b;
    } else {
      assert (a + b)[1..] == a[1..] + b;
      AfterAppend(m.Feed(a[0]), a[1..], b);
    }
  }

  // ----- tokens -----

  /** A character that changes nothing in the scan, whether it is in a literal or not. */
  predicate Inert(c: char) {
    c != '"' && c != '\\' && c != '[' && c != ']' && c != '{' && c != '}' && c != ':' && !IsSpace(c)
  }

  predicate AllInert(s: string) {
    forall i :: 0 <= i < |s| ==> Inert(s[i])
  }

  /** White space outside literals occurs only behind a colon of the YAML-compatible form, and always there. */
  predicate Tight(m: Mode, yaml: bool, s: string)
    decreases |s|
  {
    s == [] || ((!m.quoted ==> (IsSpace(s[0]) <==> yaml && m.colon)) && Tight(m.Feed(s[0]), yaml, s[1..]))
  }

  lemma {:induction false} TightAppend(m: Mode, yaml: bool, a: string, b: string)
    requires Tight(m, yaml, a) && Tight(m.After(a), yaml, b)
    ensures Tight(m, yaml, a + b)
    decreases |a|
  {
    hide Mode.Feed;
    if a == [] {
      assert a + b == b;
    } else {
      assert (a + b)[1..] == a[1..] + b;
      TightAppend(m.Feed(a[0]), yaml, a[1..], b);
    }
  }

  lemma {:induction false} InertKeeps(m: Mode, yaml: bool, s: string)
    requires !m.escaped && AllInert(s) && s != [] && (yaml ==> !m.colon)
    ensures m.After(s) == m.(colon := false) && Tight(m, yaml, s)
    decreases |s|
  {
    assert Inert(s[0]);
    assert m.Feed(s[0]) == m.(colon := false);
    if |s| > 1 {
      InertKeeps(m.(colon := false), yaml, s[1..]);
    }
  }

  lemma HexIsInert(n: nat)
    requires n <= 0xFFFF
    ensures AllInert(Hex4(n))
  {
  }

  lemma TwoCharacters(m: Mode, yaml: bool, t: string)
    requires m.quoted && !m.escaped && !m.colon && |t| == 2 && t[0] == '\\'
    ensures m.After(t) == m && Tight(m, yaml, t)
  {
    assert t[1..] == [t[1]] && t[1..][1..] == [];
    var open := m.Feed(t[0]);
    assert open.Feed(t[1]) == m && open.After([t[1]]) == m;
  }

  lemma EscapeKeeps(m: Mode, yaml: bool, c: char)
    requires m.quoted && !m.escaped && !m.colon
    ensures m.After(EscapeChar(c)) == m && Tight(m, yaml, EscapeChar(c))
  {
    var t := EscapeChar(c);
    if |t| == 6 {
      var hex := Hex4(c as int);
      HexIsInert(c as int);
      hide Hex4;
      assert t[1..] == "u" + hex && t[1..][1..] == hex;
      InertKeeps(m, yaml, hex);
    } else if |t| == 2 {
      TwoCharacters(m, yaml, t);
    } else {
      assert t == [c] && t[1..] == [];
    }
  }

  lemma {:induction false} EscapedKeeps(m: Mode, yaml: bool, s: string)
    requires m.quoted && !m.escaped && !m.colon
    ensures m.After(Escaped(s)) == m && Tight(m, yaml, Escaped(s))
  {
    hide EscapeChar, Mode.Feed;
    if s != [] {
      EscapeKeeps(m, yaml, s[0]);
      EscapedKeeps(m, yaml, s[1..]);
      AfterAppend(m, EscapeChar(s[0]), Escaped(s[1..]));
      TightAppend(m, yaml, EscapeChar(s[0]), Escaped(s[1..]));
    }
  }

  lemma QuotedKeeps(m: Mode, yaml: bool, s: string)
    requires m.Outside() && (yaml ==> !m.colon)
    ensures m.After(Quoted(s)) == m.(colon := false) && Tight(m, yaml, Quoted(s))
  {
    var body, inside := Escaped(s), m.(quoted := true, colon := false);
    EscapedKeeps(inside, yaml, s);
    hide Escaped;
    AfterAppend(inside, body, "\"");
    assert "\""[1..] == [];
    assert inside.After("\"") == m.(colon := false) && Tight(inside, yaml, "\"");
    TightAppend(inside, yaml, body, "\"");
    assert Quoted(s)[1..] == body + "\"";
  }

  /** How far a token changes the depth. */
  function Rise(t: Tok): int {
    if t.LBrace? || t.LBracket? then 1 else if t.RBrace? || t.RBracket? then -1 else 0
  }

  lemma OneCharacter(m: Mode, yaml: bool, c: char)
    requires m.Outside() && !IsSpace(c) && (yaml ==> !m.colon)
    ensures m.After([c]) == m.Feed(c) && Tight(m, yaml, [c])
  {
    assert [c][1..] == [];
  }

  lemma SpellingKeeps(m: Mode, yaml: bool, t: Tok)
    requires m.Outside() && (yaml ==> !m.colon)
    ensures m.After(Spelling(t)) == Mode(m.depth + Rise(t), false, false, t.Colon?) && Tight(m, yaml, Spelling(t))
  {
    hide Quoted, IntText, Tight, Mode.After;
    match t
    case LBrace => OneCharacter(m, yaml, '{');
    case RBrace => OneCharacter(m, yaml, '}');
    case LBracket => OneCharacter(m, yaml, '[');
    case RBracket => OneCharacter(m, yaml, ']');
    case Comma => OneCharacter(m, yaml, ',');
    case Colon => OneCharacter(m, yaml, ':');
    case StrTok(s) => QuotedKeeps(m, yaml, s);
    case NumTok(i) =>
      IntTextIsNumber(i);
      InertKeeps(m, yaml, IntText(i));
    case _ => InertKeeps(m, yaml, Spelling(t));
  }

  // ----- compact text -----

  lemma SpaceBehindColon(m: Mode)
    requires m.Outside() && m.colon
    ensures m.After(" ") == m.(colon := false) && Tight(m, true, " ")
  {
    assert " "[1..] == [];
  }

  lemma {:induction false} RenderedIsTight(m: Mode, yaml: bool, toks: seq<Tok>)
    requires m.Outside() && (yaml ==> !m.colon)
    ensures Tight(m, yaml, Rendered(toks, yaml))
    decreases |toks|
  {
    if toks != [] {
      var t, rest := toks[0], Rendered(toks[1..], yaml);
      var word, gap := Spelling(t), if yaml && t.Colon? then " " else "";
      SpellingKeeps(m, yaml, t);
      var next := m.After(word);
      if gap == "" {
        assert word + gap == word;
      } else {
        SpaceBehindColon(next);
        TightAppend(m, yaml, word, gap);
        AfterAppend(m, word, gap);
      }
      hide Spelling, Tight, Mode.After, Mode.Feed;
      RenderedIsTight(m.After(word + gap), yaml, toks[1..]);
      TightAppend(m, yaml, word + gap, rest);
    }
  }

  lemma {:induction false} TightAt(m: Mode, yaml: bool, s: string, i: nat)
    requires Tight(m, yaml, s) && i < |s| && !m.After(s[..i]).quoted
    ensures IsSpace(s[i]) <==> yaml && m.After(s[..i]).colon
    decreases |s|
  {
    hide Mode.Feed;
    if i > 0 {
      assert s[..i][1..] == s[1..][..i - 1];
      TightAt(m.Feed(s[0]), yaml, s[1..], i - 1);
    }
  }

  /** Outside literals compact text has a blank exactly behind each colon, and only if YAML is asked for. */
  lemma CompactBlanks(v: Value, yaml: bool, i: nat)
    requires Writable(v)
    ensures var text := Rendered(Tokens(v), yaml);
            i < |text| && !START.After(text[..i]).quoted ==> (IsSpace(text[i]) <==> yaml && START.After(text[..i]).colon)
  {
    hide *;
    var text := Rendered(Tokens(v), yaml);
    StartIsOutside();
    RenderedIsTight(START, yaml, Tokens(v));
    if i < |text| && !START.After(text[..i]).quoted {
      TightAt(START, yaml, text, i);
    }
  }

  lemma StartIsOutside()
    ensures START.Outside() && !START.colon && START.depth == 0
  {
  }

  // ----- lines -----

  function LeadingBlanks(s: string): (n: nat)
    ensures n <= |s| && (n < |s| ==> s[n] != ' ') && forall i :: 0 <= i < n ==> s[i] == ' '
  {
    if s == [] || s[0] != ' ' then 0 else 1 + LeadingBlanks(s[1..])
  }

  predicate Closes(c: char) {
    c == ']' || c == '}'
  }

  /** A line goes on with `s`: three columns for each bracket open at its first visible character. */
  predicate StartsLine(m: Mode, s: string) {
    var n := LeadingBlanks(s);
    n < |s| && !m.quoted && n == 3 * if Closes(s[n]) then m.depth - 1 else m.depth
  }

  /** Every line that starts in `s` is indented by its depth. */
  predicate Indented(m: Mode, s: string)
    decreases |s|
  {
    s == [] || ((s[0] == '\n' ==> StartsLine(m, s[1..])) && Indented(m.Feed(s[0]), s[1..]))
  }

  lemma {:induction false} LeadingBlanksAre(indent: string, x: string)
    requires AllBlank(indent) && x != [] && x[0] != ' '
    ensures LeadingBlanks(indent + x) == |indent|
  {
    if indent == [] {
      assert indent + x == x;
    } else {
      assert (indent + x)[1..] == indent[1..] + x;
      LeadingBlanksAre(indent[1..], x);
    }
  }

  lemma {:induction false} LeadingBlanksGrow(a: string, b: string)
    requires LeadingBlanks(a) < |a|
    ensures LeadingBlanks(a + b) == LeadingBlanks(a)
  {
    if a[0] == ' ' {
      assert (a + b)[1..] == a[1..] + b;
      LeadingBlanksGrow(a[1..], b);
    }
  }

  lemma {:induction false} IndentedAppend(m: Mode, a: string, b: string)
    requires Indented(m, a) && Indented(m.After(a), b)
    ensures Indented(m, a + b)
    decreases |a|
  {
    hide Mode.Feed;
    if a == [] {
      assert a + b == b;
    } else {
      assert (a + b)[1..] == a[1..] + b;
      if a[0] == '\n' {
        LeadingBlanksGrow(a[1..], b);
      }
      IndentedAppend(m.Feed(a[0]), a[1..], b);
    }
  }

  lemma {:induction false} OneLineIsIndented(m: Mode, s: string)
    requires NoNewline(s)
    ensures Indented(m, s)
    decreases |s|
  {
    hide Mode.Feed;
    if s != [] {
      OneLineIsIndented(m.Feed(s[0]), s[1..]);
    }
  }

  /** `s` leads the scan from `m` to `n` with all its lines indented. */
  predicate Leads(m: Mode, s: string, n: Mode) {
    Indented(m, s) && m.After(s) == n
  }

  lemma LeadsOn(m: Mode, a: string, n: Mode, b: string, o: Mode)
    requires Leads(m, a, n) && Leads(n, b, o)
    ensures Leads(m, a + b, o)
  {
    hide Indented, Mode.After;
    IndentedAppend(m, a, b);
    AfterAppend(m, a, b);
  }

  lemma {:induction false} BlanksKeep(m: Mode, s: string)
    requires m.Outside() && !m.colon && AllBlank(s)
    ensures m.After(s) == m && Indented(m, s)
  {
    if s != [] {
      assert m.Feed(s[0]) == m;
      BlanksKeep(m, s[1..]);
    }
  }

  /** A line break, the indentation and what stands behind it. */
  lemma LineLeads(m: Mode, indent: string, x: string, n: Mode)
    requires m.Outside() && !m.colon && AllBlank(indent) && x != [] && x[0] != ' ' && Leads(m, x, n)
    requires |indent| == 3 * if Closes(x[0]) then m.depth - 1 else m.depth
    ensures Leads(m, "\n" + (indent + x), n)
  {
    var line := indent + x;
    LeadingBlanksAre(indent, x);
    BlanksKeep(m, indent);
    hide AllBlank, LeadingBlanks;
    LeadsOn(m, indent, m, x, n);
    assert line[|indent|] == x[0];
    assert ("\n" + line)[1..] == line;
    assert m.Feed('\n') == m;
  }

  // ----- laid out text -----

  lemma TokenLeads(m: Mode, t: Tok)
    requires m.Outside()
    ensures Leads(m, Spelling(t), Mode(m.depth + Rise(t), false, false, t.Colon?))
  {
    hide Spelling, Indented;
    SpellingKeeps(m, false, t);
    SpellingHasNoNewline(t);
    OneLineIsIndented(m, Spelling(t));
  }

  lemma LeafLeads(m: Mode, v: Value)
    requires Writable(v) && IsLeaf(v) && m.Outside() && !m.colon
    ensures Leads(m, Compact(v), m)
  {
    hide Leads, Spelling, Compact, Writable;
    if v.data.Arr? {
      EmptyCompact(v);
      TokenLeads(m, LBracket);
      TokenLeads(m.(depth := m.depth + 1), RBracket);
      LeadsOn(m, Spelling(LBracket), m.(depth := m.depth + 1), Spelling(RBracket), m);
      Marks();
    } else if v.data.Obj? {
      EmptyCompact(v);
      TokenLeads(m, LBrace);
      TokenLeads(m.(depth := m.depth + 1), RBrace);
      LeadsOn(m, Spelling(LBrace), m.(depth := m.depth + 1), Spelling(RBrace), m);
      Marks();
    } else {
      ScalarCompact(v);
      TokenLeads(m, Tokens(v)[0]);
    }
  }

  lemma Marks()
    ensures Spelling(LBracket) + Spelling(RBracket) == "[]" && Spelling(LBrace) + Spelling(RBrace) == "{}"
    ensures Spelling(LBracket) == "[" && Spelling(RBracket) == "]" && Spelling(LBrace) == "{" && Spelling(RBrace) == "}"
    ensures Spelling(Comma) == ","
  {
  }

  lemma SpacedMarksLead(m: Mode)
    requires m.Outside() && !m.colon
    ensures Leads(m, "", m) && Leads(m, ",", m) && Leads(m, ", ", m) && Leads(m, " : ", m)
    ensures Leads(m, "[ ", m.(depth := m.depth + 1)) && Leads(m, " ]", m.(depth := m.depth - 1))
  {
    assert forall a, b: char :: [a, b][1..] == [b];
    assert " : "[1..] == ": " && ", "[1..] == " " && "[ "[1..] == " " && " ]"[1..] == "]";
    assert ","[1..] == "" && " "[1..] == "" && "]"[1..] == "" && ": "[1..] == " ";
  }

  lemma {:induction false} RowLeads(m: Mode, v: Value, i: nat)
    requires Writable(v) && v.data.Arr? && i <= Size(v.data.entries) && m.Outside() && !m.colon
    requires forall k :: 0 <= k < Size(v.data.entries) ==> IsLeaf(At(v.data.entries, k))
    ensures Leads(m, Row(v, i), m)
    decreases Size(v.data.entries) - i
  {
    hide Writable, Row, Compact, At, Size, Leads, IsLeaf;
    SpacedMarksLead(m);
    if i == Size(v.data.entries) {
      RowEnds(v);
    } else {
      var comma, item := if i == 0 then "" else ", ", At(v.data.entries, i);
      RowFrom(v, i);
      LeafLeads(m, item);
      RowLeads(m, v, i + 1);
      LeadsOn(m, comma, m, Compact(item), m);
      LeadsOn(m, comma + Compact(item), m, Row(v, i + 1), m);
    }
  }

  lemma OneLineTextLeads(m: Mode, v: Value)
    requires Writable(v) && v.data.Arr? && OnOneLine(v) && m.Outside() && !m.colon
    ensures Leads(m, OneLineText(v), m)
  {
    var inner := m.(depth := m.depth + 1);
    assert forall k :: 0 <= k < Size(v.data.entries) ==> IsLeaf(At(v.data.entries, k));
    hide Writable, Row, Leads, OnOneLine, At, Size, IsLeaf;
    SpacedMarksLead(m);
    RowLeads(inner, v, 0);
    SpacedMarksLead(inner);
    LeadsOn(m, "[ ", inner, Row(v, 0), inner);
    LeadsOn(m, "[ " + Row(v, 0), inner, " ]", m);
  }

  /** Text that starts a value: it does not start with a blank or a closing bracket. */
  predicate Opens(s: string) {
    s != [] && s[0] != ' ' && !Closes(s[0])
  }

  lemma SpellingOpens(t: Tok)
    requires !t.RBrace? && !t.RBracket?
    ensures Opens(Spelling(t))
  {
    hide Escaped, IntText;
    if t.NumTok? {
      IntTextIsNumber(t.i);
    }
  }

  lemma LayoutOpens(v: Value, indent: string)
    requires Writable(v)
    ensures Opens(Layout(v, indent))
  {
    if IsLeaf(v) {
      LeafLayout(v, indent);
      hide Layout, Compact, Writable, Spelling;
      EmptyCompact(v);
      if !v.data.Arr? && !v.data.Obj? {
        ScalarCompact(v);
        SpellingOpens(Tokens(v)[0]);
      }
    } else if v.data.Obj? {
      ObjectLayout(v, indent);
      hide Layout, Compact, Writable;
    } else {
      ArrayLayout(v, indent);
      hide Layout, Compact, Writable, OnOneLine;
    }
  }

  /** Where a value at this depth stands and how its lines are indented. */
  predicate Fits(m: Mode, indent: string) {
    m.Outside() && !m.colon && AllBlank(indent) && |indent| == 3 * m.depth
  }

  /** What stands before a line, the line break, the indentation and the start of the line. */
  lemma NextLineLeads(m: Mode, before: string, n: Mode, indent: string, x: string, o: Mode)
    requires Leads(m, before, n) && n.Outside() && !n.colon && AllBlank(indent) && x != [] && x[0] != ' ' && Leads(n, x, o)
    requires |indent| == 3 * if Closes(x[0]) then n.depth - 1 else n.depth
    ensures Leads(m, before + "\n" + indent + x, o)
  {
    hide *;
    LineLeads(n, indent, x, o);
    LeadsOn(m, before, n, "\n" + (indent + x), o);
    assert before + "\n" + indent + x == before + ("\n" + (indent + x));
  }

  lemma CommaLeads(m: Mode, i: nat)
    requires m.Outside() && !m.colon
    ensures Leads(m, CommaBefore(i), m)
  {
    hide Leads;
    SpacedMarksLead(m);
  }

  lemma MarkLeads(m: Mode, c: char)
    requires m.Outside() && !m.colon && c in "[]{}"
    ensures Leads(m, [c], m.(depth := if Closes(c) then m.depth - 1 else m.depth + 1))
  {
    assert [c][1..] == [];
  }

  lemma NameLeads(m: Mode, name: string)
    requires m.Outside() && !m.colon
    ensures Leads(m, Quoted(name), m) && Opens(Quoted(name))
  {
    hide Leads, Escaped;
    TokenLeads(m, StrTok(name));
  }

  lemma DeeperFits(m: Mode, indent: string)
    requires Fits(m, indent)
    ensures Fits(m.(depth := m.depth + 1), indent + "   ")
  {
  }

  /** The lines of a container between its brackets. */
  lemma BracketsLead(m: Mode, indent: string, open: char, lines: string, close: char)
    requires Fits(m, indent) && ((open == '{' && close == '}') || (open == '[' && close == ']'))
    requires Leads(m.(depth := m.depth + 1), lines, m.(depth := m.depth + 1))
    ensures Leads(m, [open] + lines + "\n" + indent + [close], m)
  {
    var inner := m.(depth := m.depth + 1);
    hide Leads;
    MarkLeads(m, open);
    LeadsOn(m, [open], inner, lines, inner);
    MarkLeads(inner, close);
    NextLineLeads(m, [open] + lines, inner, indent, [close], m);
  }

  lemma {:induction false} MemberLinesLead(m: Mode, v: Value, indent: string, i: nat)
    requires Writable(v) && v.data.Obj? && i <= |v.data.entries| && Fits(m, indent)
    ensures Leads(m, MemberLines(v, indent, i), m)
    decreases Height(v), 0, |v.data.entries| - i
  {
    hide Writable, MemberLines, Layout, Leads, Quoted, CommaBefore, Height;
    if i == |v.data.entries| {
      MemberLinesEnd(v, indent);
      SpacedMarksLead(m);
    } else {
      var e := v.data.entries[i];
      MemberLinesFrom(v, indent, i);
      CommaLeads(m, i);
      NameLeads(m, e.key.s);
      NextLineLeads(m, CommaBefore(i), m, indent, Quoted(e.key.s), m);
      var head := CommaBefore(i) + "\n" + indent + Quoted(e.key.s);
      SpacedMarksLead(m);
      LeadsOn(m, head, m, " : ", m);
      LayoutLeads(m, e.value, indent);
      LeadsOn(m, head + " : ", m, Layout(e.value, indent), m);
      MemberLinesLead(m, v, indent, i + 1);
      LeadsOn(m, head + " : " + Layout(e.value, indent), m, MemberLines(v, indent, i + 1), m);
    }
  }

  lemma MemberLinesEnd(v: Value, indent: string)
    requires Writable(v)
    ensures v.data.Obj? ==> MemberLines(v, indent, |v.data.entries|) == ""
    ensures v.data.Arr? ==> ItemLines(v, indent, Size(v.data.entries)) == ""
  {
  }

  lemma {:induction false} ItemLinesLead(m: Mode, v: Value, indent: string, i: nat)
    requires Writable(v) && v.data.Arr? && i <= Size(v.data.entries) && Fits(m, indent)
    ensures Leads(m, ItemLines(v, indent, i), m)
    decreases Height(v), 0, Size(v.data.entries) - i
  {
    hide Writable, ItemLines, Layout, Leads, CommaBefore, Height, At, Size;
    if i == Size(v.data.entries) {
      MemberLinesEnd(v, indent);
      SpacedMarksLead(m);
    } else {
      var item := At(v.data.entries, i);
      ItemLinesFrom(v, indent, i);
      CommaLeads(m, i);
      LayoutLeads(m, item, indent);
      LayoutOpens(item, indent);
      NextLineLeads(m, CommaBefore(i), m, indent, Layout(item, indent), m);
      ItemLinesLead(m, v, indent, i + 1);
      LeadsOn(m, CommaBefore(i) + "\n" + indent + Layout(item, indent), m, ItemLines(v, indent, i + 1), m);
    }
  }

  lemma {:induction false} LayoutLeads(m: Mode, v: Value, indent: string)
    requires Writable(v) && Fits(m, indent)
    ensures Leads(m, Layout(v, indent), m)
    decreases Height(v), 1, 0
  {
    var inner, deeper := m.(depth := m.depth + 1), indent + "   ";
    DeeperFits(m, indent);
    if IsLeaf(v) {
      LeafLayout(v, indent);
      LeafLeads(m, v);
    } else if v.data.Obj? {
      ObjectLayout(v, indent);
      hide Leads, Layout, Compact, Writable;
      MemberLinesLead(inner, v, deeper, 0);
      BracketsLead(m, indent, '{', MemberLines(v, deeper, 0), '}');
    } else {
      ArrayLayout(v, indent);
      hide Leads, Layout, Compact, Writable, OnOneLine;
      if OnOneLine(v) {
        OneLineTextLeads(m, v);
      } else {
        ItemLinesLead(inner, v, deeper, 0);
        BracketsLead(m, indent, '[', ItemLines(v, deeper, 0), ']');
      }
    }
  }

  lemma {:induction false} IndentedAt(m: Mode, s: string, i: nat)
    requires Indented(m, s) && i < |s| && s[i] == '\n'
    ensures StartsLine(m.After(s[..i]), s[i + 1..])
    decreases |s|
  {
    hide Mode.Feed;
    if i > 0 {
      assert s[..i][1..] == s[1..][..i - 1] && s[1..][i..] == s[i + 1..];
      IndentedAt(m.Feed(s[0]), s[1..], i - 1);
    }
  }

  /**
   Every line of styled text but the first starts outside literals, with three blanks for each
   bracket that is open at its first visible character; in the end none is open.
   */
  lemma StyledIndentation(v: Value, i: nat)
    requires Writable(v)
    ensures var text := StyledText(v);
            && START.After(text) == START
            && (i + 1 < |text| && text[i] == '\n' ==> StartsLine(START.After(text[..i]), text[i + 1..]))
  {
    var layout := Layout(v, "");
    assert Fits(START, "");
    LayoutLeads(START, v, "");
    hide Layout, Writable, StartsLine;
    AfterAppend(START, layout, "\n");
    assert START.After("\n") == START by { assert "\n"[1..] == []; }
    if i < |layout| && layout[i] == '\n' {
      IndentedAt(START, layout, i);
      LineGrows(START.After(layout[..i]), layout[i + 1..], "\n");
      assert (layout + "\n")[..i] == layout[..i] && (layout + "\n")[i + 1..] == layout[i + 1..] + "\n";
    }
  }

  lemma LineGrows(m: Mode, a: string, b: string)
    requires StartsLine(m, a)
    ensures StartsLine(m, a + b)
  {
    LeadingBlanksGrow(a, b);
  }
}
