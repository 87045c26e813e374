/**
 The layout of styled JSON text, as a function of the value alone: containers are indented by
 three spaces a level, except that an array of leaves goes on one line if that line is short.
 */
module JsonLayout {
  import opened JsonValue
  import opened Decimals
  import opened JsonNumber
  import opened JsonString
  import opened JsonText
  import opened JsonWriter

  const RIGHT_MARGIN := 74

  /** The text of an element or leaf without any layout. */
  function Compact(v: Value): string
    requires Writable(v)
  {
    Rendered(Tokens(v), false)
  }

  /** The elements of an array from index `i` on, side by side. */
  function Row(v: Value, i: nat): string
    requires Writable(v) && v.data.Arr? && i <= Size(v.data.entries)
    decreases Size(v.data.entries) - i
  {
    if i == Size(v.data.entries) then ""
    else
      WritableAt(v, i);
      (if i == 0 then "" else ", ") + Compact(At(v.data.entries, i)) + Row(v, i + 1)
  }

  function OneLineText(v: Value): string
    requires Writable(v) && v.data.Arr?
  {
    "[ " + Row(v, 0) + " ]"
  }

  /** The elements alone force one line each: there are many, or one of them is not a leaf. */
  predicate ForcedApart(v: Value)
    requires v.data.Arr?
  {
    var es := v.data.entries;
    Size(es) * 3 >= RIGHT_MARGIN || exists i :: 0 <= i < Size(es) && !IsLeaf(At(es, i))
  }

  predicate OnOneLine(v: Value)
    requires Writable(v) && v.data.Arr?
  {
    !ForcedApart(v) && |OneLineText(v)| < RIGHT_MARGIN
  }

  /** The text of a value whose lines are indented by `indent`. */
  function Layout(v: Value, indent: string): string
    requires Writable(v)
    decreases Height(v), 1, 0
  {
    if IsLeaf(v) then Compact(v)
    else if v.data.Obj? then "{" + MemberLines(v, indent + "   ", 0) + "\n" + indent + "}"
    else if OnOneLine(v) then OneLineText(v)
    else "[" + ItemLines(v, indent + "   ", 0) + "\n" + indent + "]"
  }

  /** The elements of an array from index `i` on, one below the other. */
  function ItemLines(v: Value, indent: string, i: nat): string
    requires Writable(v) && v.data.Arr? && i <= Size(v.data.entries)
    decreases Height(v), 0, Size(v.data.entries) - i
  {
    if i == Size(v.data.entries) then ""
    else
      WritableAt(v, i);
      CommaBefore(i) + "\n" + indent + Layout(At(v.data.entries, i), indent) + ItemLines(v, indent, i + 1)
  }

  function MemberLines(v: Value, indent: string, i: nat): string
    requires Writable(v) && v.data.Obj? && i <= |v.data.entries|
    decreases Height(v), 0, |v.data.entries| - i
  {
    if i == |v.data.entries| then ""
    else
      WritableMember(v, i);
      var e := v.data.entries[i];
      CommaBefore(i) + "\n" + indent + Quoted(e.key.s) + " : " + Layout(e.value, indent) + MemberLines(v, indent, i + 1)
  }

  function CommaBefore(i: nat): string {
    if i == 0 then "" else ","
  }

  /** The whole text of `StyledWriter`. */
  function StyledText(v: Value): string
    requires Writable(v)
  {
    Layout(v, "") + "\n"
  }

  // ----- the layout, case by case -----

  lemma LeafLayout(v: Value, indent: string)
    requires Writable(v) && IsLeaf(v)
    ensures Layout(v, indent) == Compact(v)
  {
  }

  lemma ObjectLayout(v: Value, indent: string)
    requires Writable(v) && v.data.Obj? && |v.data.entries| > 0
    ensures !IsLeaf(v) && Layout(v, indent) == "{" + MemberLines(v, indent + "   ", 0) + "\n" + indent + "}"
    ensures MemberLines(v, indent + "   ", |v.data.entries|) == ""
  {
    hide Compact, Writable;
  }

  lemma MemberLinesFrom(v: Value, indent: string, i: nat)
    requires Writable(v) && v.data.Obj? && i < |v.data.entries|
    ensures var e := v.data.entries[i];
            && e.key.Name? && NulFree(e.key.s) && Writable(e.value) && Height(e.value) < Height(v)
            && MemberLines(v, indent, i)
               == CommaBefore(i) + "\n" + indent + Quoted(e.key.s) + " : " + Layout(e.value, indent) + MemberLines(v, indent, i + 1)
  {
    hide Layout, Quoted, CommaBefore;
    WritableMember(v, i);
  }

  lemma ArrayLayout(v: Value, indent: string)
    requires Writable(v) && v.data.Arr? && Size(v.data.entries) > 0
    ensures !IsLeaf(v)
    ensures Layout(v, indent) == if OnOneLine(v) then OneLineText(v)
                                 else "[" + ItemLines(v, indent + "   ", 0) + "\n" + indent + "]"
    ensures ItemLines(v, indent + "   ", Size(v.data.entries)) == ""
  {
    hide Compact, Writable, OnOneLine, OneLineText;
  }

  lemma ItemLinesFrom(v: Value, indent: string, i: nat)
    requires Writable(v) && v.data.Arr? && i < Size(v.data.entries)
    ensures var item := At(v.data.entries, i);
            && Writable(item) && Height(item) < Height(v)
            && ItemLines(v, indent, i) == CommaBefore(i) + "\n" + indent + Layout(item, indent) + ItemLines(v, indent, i + 1)
  {
    hide Layout, CommaBefore;
    WritableAt(v, i);
  }

  lemma RowFrom(v: Value, i: nat)
    requires Writable(v) && v.data.Arr? && i < Size(v.data.entries)
    ensures var item := At(v.data.entries, i);
            Writable(item) && Row(v, i) == (if i == 0 then "" else ", ") + Compact(item) + Row(v, i + 1)
  {
    hide Compact;
    WritableAt(v, i);
  }

  lemma RowEnds(v: Value)
    requires Writable(v) && v.data.Arr?
    ensures Row(v, Size(v.data.entries)) == ""
  {
  }

  // ----- laid out text ends in a visible character -----

  predicate EndsVisibly(s: string) {
    s != "" && s[|s| - 1] != ' ' && s[|s| - 1] != '\n'
  }

  lemma SpellingEndsVisibly(t: Tok)
    ensures EndsVisibly(Spelling(t))
  {
    hide Escaped;
    if t.NumTok? {
      var w := IntText(t.i);
      hide Decimal;
      assert IsDigit(w[|w| - 1]);
    }
  }

  lemma CompactEndsVisibly(v: Value)
    requires Writable(v)
    ensures EndsVisibly(Compact(v))
  {
    hide *;
    var toks := Tokens(v);
    var last := toks[|toks| - 1];
    assert toks == toks[..|toks| - 1] + [last];
    RenderedAppend(toks[..|toks| - 1], [last], false);
    RenderedOne(last, false);
    SpellingEndsVisibly(last);
    assert Spelling(last) + "" == Spelling(last);
    CompactIs(v);
    VisibleEnd(Rendered(toks[..|toks| - 1], false), Spelling(last));
  }

  lemma CompactIs(v: Value)
    requires Writable(v)
    ensures Compact(v) == Rendered(Tokens(v), false)
  {
  }

  lemma VisibleEnd(a: string, b: string)
    requires EndsVisibly(b)
    ensures EndsVisibly(a + b)
  {
  }

  lemma LayoutEndsVisibly(v: Value, indent: string)
    requires Writable(v)
    ensures EndsVisibly(Layout(v, indent))
  {
    if IsLeaf(v) {
      LeafLayout(v, indent);
      CompactEndsVisibly(v);
    } else if v.data.Obj? {
      ObjectLayout(v, indent);
      hide Layout, Compact;
      VisibleEnd("{" + MemberLines(v, indent + "   ", 0) + "\n" + indent, "}");
    } else {
      ArrayLayout(v, indent);
      hide Layout, Compact, OnOneLine;
      VisibleEnd("[ " + Row(v, 0), " ]");
      VisibleEnd("[" + ItemLines(v, indent + "   ", 0) + "\n" + indent, "]");
    }
  }

  // ----- laid out text spells the value -----

  /** A token with spaces around it still spells just that token. */
  lemma PaddedSpells(left: string, t: Tok, right: string)
    requires AllSpace(left) && AllSpace(right)
    ensures Spells(left + Spelling(t) + right, [t])
  {
    hide Spells, Spelling;
    SpaceSpellsNothing(left);
    SpaceSpellsNothing(right);
    TokenSpellsItself(t);
    SpellsAppend(left, [], Spelling(t), [t]);
    assert [] + [t] == [t];
    SpellsAppend(left + Spelling(t), [t], right, []);
    assert [t] + [] == [t];
  }

  lemma BracketsSpell()
    ensures Spells("[", [LBracket]) && Spells("]", [RBracket]) && Spells("[ ", [LBracket]) && Spells(" ]", [RBracket])
    ensures Spells("[]", [LBracket, RBracket])
  {
    hide Spells;
    PaddedSpells("", LBracket, "");
    PaddedSpells("", RBracket, "");
    PaddedSpells("", LBracket, " ");
    PaddedSpells(" ", RBracket, "");
    assert "" + "[" + "" == "[" && "" + "]" + "" == "]" && "" + "[" + " " == "[ " && " " + "]" + "" == " ]";
    SpellsAppend("[", [LBracket], "]", [RBracket]);
    assert "[" + "]" == "[]" && [LBracket] + [RBracket] == [LBracket, RBracket];
  }

  lemma BracesSpell()
    ensures Spells("{", [LBrace]) && Spells("}", [RBrace]) && Spells("{}", [LBrace, RBrace])
  {
    hide Spells;
    PaddedSpells("", LBrace, "");
    PaddedSpells("", RBrace, "");
    assert "" + "{" + "" == "{" && "" + "}" + "" == "}";
    SpellsAppend("{", [LBrace], "}", [RBrace]);
    assert "{" + "}" == "{}" && [LBrace] + [RBrace] == [LBrace, RBrace];
  }

  lemma SeparatorsSpell()
    ensures Spells(",", [Comma]) && Spells(", ", [Comma]) && Spells(" : ", [Colon]) && Spells("\n", []) && Spells("", [])
  {
    hide Spells;
    PaddedSpells("", Comma, "");
    PaddedSpells("", Comma, " ");
    PaddedSpells(" ", Colon, " ");
    assert "" + "," + "" == "," && "" + "," + " " == ", " && " " + ":" + " " == " : ";
    SpaceSpellsNothing("\n");
    SpaceSpellsNothing("");
  }

  lemma PunctuationSpells()
    ensures Spells("[", [LBracket]) && Spells("]", [RBracket]) && Spells("{", [LBrace]) && Spells("}", [RBrace])
    ensures Spells(",", [Comma]) && Spells(" : ", [Colon]) && Spells("[ ", [LBracket]) && Spells(", ", [Comma])
    ensures Spells(" ]", [RBracket]) && Spells("[]", [LBracket, RBracket]) && Spells("{}", [LBrace, RBrace])
    ensures Spells("\n", []) && Spells("", [])
  {
    hide Spells;
    BracketsSpell();
    BracesSpell();
    SeparatorsSpell();
  }

  lemma SpellsThree(a: string, x: seq<Tok>, b: string, y: seq<Tok>, c: string, z: seq<Tok>)
    requires Spells(a, x) && Spells(b, y) && Spells(c, z)
    ensures Spells(a + b + c, x + y + z)
  {
    hide *;
    SpellsAppend(a, x, b, y);
    SpellsAppend(a + b, x + y, c, z);
  }

  /** What stands before an element on a line of its own. */
  lemma LineStartSpells(i: nat, indent: string)
    requires AllSpace(indent)
    ensures Spells(CommaBefore(i) + "\n" + indent, Separator(i))
  {
    hide Spells;
    PunctuationSpells();
    NewlineSpells(indent);
    SpellsAppend(CommaBefore(i), Separator(i), "\n" + indent, []);
    assert CommaBefore(i) + ("\n" + indent) == CommaBefore(i) + "\n" + indent && Separator(i) + [] == Separator(i);
  }

  lemma CompactSpells(v: Value)
    requires Writable(v)
    ensures Spells(Compact(v), Tokens(v))
  {
    hide Spells, Rendered, Tokens;
    RenderedSpells(Tokens(v), false);
  }

  lemma {:induction false} RowSpells(v: Value, i: nat)
    requires Writable(v) && v.data.Arr? && i <= Size(v.data.entries)
    ensures Spells(Row(v, i), ItemTokens(v, i))
    decreases Size(v.data.entries) - i
  {
    hide *;
    PunctuationSpells();
    if i == Size(v.data.entries) {
      RowEnds(v);
      ArrayTokens(v);
    } else {
      RowFrom(v, i);
      ItemTokensFrom(v, i);
      RowSpells(v, i + 1);
      CompactSpells(At(v.data.entries, i));
      SeparatorIs(i);
      SpellsThree(if i == 0 then "" else ", ", Separator(i), Compact(At(v.data.entries, i)), Tokens(At(v.data.entries, i)),
                  Row(v, i + 1), ItemTokens(v, i + 1));
    }
  }

  lemma SeparatorIs(i: nat)
    ensures Separator(i) == (if i == 0 then [] else [Comma])
  {
  }

  /** Whatever the layout decides, the text spells the tokens of the value. */
  lemma {:induction false} LayoutSpells(v: Value, indent: string)
    requires Writable(v) && AllSpace(indent)
    ensures Spells(Layout(v, indent), Tokens(v))
    decreases Height(v), 1, 0
  {
    var deeper := indent + "   ";
    assert AllSpace(deeper) && AllSpace("\n" + indent);
    hide Spells, Layout, Compact, Tokens, Writable, OnOneLine, Height;
    if IsLeaf(v) {
      LeafLayout(v, indent);
      CompactSpells(v);
    } else if v.data.Obj? {
      ObjectLayout(v, indent);
      MemberLinesSpell(v, deeper, 0);
      ObjectTokens(v);
      ClosedSpells("{", LBrace, MemberLines(v, deeper, 0), MemberTokens(v, 0), indent, "}", RBrace);
    } else {
      ArrayLayout(v, indent);
      ArrayTokens(v);
      if OnOneLine(v) {
        RowSpells(v, 0);
        PunctuationSpells();
        SpellsThree("[ ", [LBracket], Row(v, 0), ItemTokens(v, 0), " ]", [RBracket]);
      } else {
        ItemLinesSpell(v, deeper, 0);
        ClosedSpells("[", LBracket, ItemLines(v, deeper, 0), ItemTokens(v, 0), indent, "]", RBracket);
      }
    }
  }

  lemma ClosedSpells(open: string, o: Tok, text: string, toks: seq<Tok>, indent: string, close: string, c: Tok)
    requires Spells(text, toks) && AllSpace(indent)
    requires (open == "{" && o == LBrace && close == "}" && c == RBrace) || (open == "[" && o == LBracket && close == "]" && c == RBracket)
    ensures Spells(open + text + "\n" + indent + close, [o] + toks + [c])
  {
    hide *;
    PunctuationSpells();
    NewlineSpells(indent);
    SpellsAppend("\n" + indent, [], close, [c]);
    assert [] + [c] == [c];
    SpellsThree(open, [o], text, toks, "\n" + indent + close, [c]);
    assert open + text + ("\n" + indent + close) == open + text + "\n" + indent + close;
  }

  lemma NewlineSpells(indent: string)
    requires AllSpace(indent)
    ensures Spells("\n" + indent, [])
  {
    hide Spells;
    SpaceSpellsNothing("\n" + indent);
  }

  lemma {:induction false} ItemLinesSpell(v: Value, indent: string, i: nat)
    requires Writable(v) && v.data.Arr? && i <= Size(v.data.entries) && AllSpace(indent)
    ensures Spells(ItemLines(v, indent, i), ItemTokens(v, i))
    decreases Height(v), 0, Size(v.data.entries) - i
  {
    hide *;
    if i == Size(v.data.entries) {
      PunctuationSpells();
      NoItemLines(v, indent);
    } else {
      var item := At(v.data.entries, i);
      ItemLinesFrom(v, indent, i);
      ItemTokensFrom(v, i);
      LayoutSpells(item, indent);
      ItemLinesSpell(v, indent, i + 1);
      LineStartSpells(i, indent);
      SpellsThree(CommaBefore(i) + "\n" + indent, Separator(i), Layout(item, indent), Tokens(item),
                  ItemLines(v, indent, i + 1), ItemTokens(v, i + 1));
    }
  }

  lemma {:induction false} MemberLinesSpell(v: Value, indent: string, i: nat)
    requires Writable(v) && v.data.Obj? && i <= |v.data.entries| && AllSpace(indent)
    ensures Spells(MemberLines(v, indent, i), MemberTokens(v, i))
    decreases Height(v), 0, |v.data.entries| - i
  {
    hide *;
    if i == |v.data.entries| {
      PunctuationSpells();
      NoMemberLines(v, indent);
    } else {
      var e := v.data.entries[i];
      MemberLinesFrom(v, indent, i);
      MemberTokensFrom(v, i);
      LayoutSpells(e.value, indent);
      MemberLinesSpell(v, indent, i + 1);
      NameSpells(i, indent, e.key.s);
      SpellsThree(CommaBefore(i) + "\n" + indent + Quoted(e.key.s) + " : ", Separator(i) + [StrTok(e.key.s), Colon],
                  Layout(e.value, indent), Tokens(e.value), MemberLines(v, indent, i + 1), MemberTokens(v, i + 1));
    }
  }

  lemma NoItemLines(v: Value, indent: string)
    requires Writable(v) && v.data.Arr?
    ensures ItemLines(v, indent, Size(v.data.entries)) == "" && ItemTokens(v, Size(v.data.entries)) == []
  {
  }

  lemma NoMemberLines(v: Value, indent: string)
    requires Writable(v) && v.data.Obj?
    ensures MemberLines(v, indent, |v.data.entries|) == "" && MemberTokens(v, |v.data.entries|) == []
  {
  }

  lemma NameSpells(i: nat, indent: string, name: string)
    requires AllSpace(indent)
    ensures Spells(CommaBefore(i) + "\n" + indent + Quoted(name) + " : ", Separator(i) + [StrTok(name), Colon])
  {
    assert Spelling(StrTok(name)) == Quoted(name);
    hide *;
    LineStartSpells(i, indent);
    TokenSpellsItself(StrTok(name));
    PunctuationSpells();
    SpellsThree(CommaBefore(i) + "\n" + indent, Separator(i), Quoted(name), [StrTok(name)], " : ", [Colon]);
    assert Separator(i) + [StrTok(name)] + [Colon] == Separator(i) + [StrTok(name), Colon];
  }

  lemma StyledTextSpells(v: Value)
    requires Writable(v)
    ensures Spells(StyledText(v), Tokens(v))
  {
    assert AllSpace("");
    hide Spells, Layout, Tokens, Writable;
    LayoutSpells(v, "");
    PunctuationSpells();
    SpellsAppend(Layout(v, ""), Tokens(v), "\n", []);
    assert Tokens(v) + [] == Tokens(v);
  }
}
