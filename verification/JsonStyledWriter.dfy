/**
 `StyledWriter` on comment-free values.  Whether an array goes on one line is decided by first
 writing its elements into `childValues` instead of the document.  What the writer appends is
 the layout of the value, which depends on the value and the indentation only.
 */
module JsonStyledWriter {
  import opened JsonValue
  import opened JsonString
  import opened JsonText
  import opened JsonWriter
  import opened JsonLayout
  import opened JsonNumber

  predicate AllBlank(s: string) {
    forall i :: 0 <= i < |s| ==> s[i] == ' '
  }

  /** What `writeIndent` appends. */
  function IndentText(document: string, indent: string): string {
    if document == "" then indent
    else if document[|document| - 1] == ' ' then ""
    else if document[|document| - 1] == '\n' then indent
    else "\n" + indent
  }

  /** A container may start here without a line break: at the very start, or behind a blank. */
  predicate AtStart(document: string, indent: string) {
    if document == "" then indent == "" else document[|document| - 1] == ' '
  }

  lemma NothingToIndent(document: string, indent: string)
    requires AtStart(document, indent)
    ensures IndentText(document, indent) == ""
  {
  }

  lemma NewLineNeeded(document: string, indent: string)
    requires EndsVisibly(document)
    ensures IndentText(document, indent) == "\n" + indent
  {
  }

  lemma IndentedStart(document: string, indent: string)
    requires AllBlank(indent) && indent != ""
    ensures AtStart(document + "\n" + indent, indent)
  {
  }

  lemma VisibleMark(document: string, mark: string)
    requires mark == "[" || mark == "{" || mark == ","
    ensures EndsVisibly(document + mark)
  {
  }

  lemma ColonStart(document: string, indent: string)
    ensures AtStart(document + " : ", indent)
  {
  }

  // ----- the texts collected by the lookahead -----

  /** The texts of the first `n` elements. */
  function Texts(v: Value, n: nat): (r: seq<string>)
    requires Writable(v) && v.data.Arr? && n <= Size(v.data.entries)
    ensures |r| == n
  {
    if n == 0 then []
    else
      WritableAt(v, n - 1);
      Texts(v, n - 1) + [Compact(At(v.data.entries, n - 1))]
  }

  lemma {:induction false} TextAt(v: Value, n: nat, k: nat)
    requires Writable(v) && v.data.Arr? && k < n <= Size(v.data.entries)
    ensures Writable(At(v.data.entries, k)) && Texts(v, n)[k] == Compact(At(v.data.entries, k))
    decreases n
  {
    hide Compact, Writable, At;
    WritableAt(v, k);
    if k + 1 < n {
      TextAt(v, n - 1, k);
    }
  }

  lemma NextText(v: Value, n: nat)
    requires Writable(v) && v.data.Arr? && n < Size(v.data.entries)
    ensures Writable(At(v.data.entries, n)) && Height(At(v.data.entries, n)) < Height(v)
    ensures Texts(v, n + 1) == Texts(v, n) + [Compact(At(v.data.entries, n))]
  {
    hide Compact;
    WritableAt(v, n);
  }

  function TotalLength(texts: seq<string>): nat {
    if texts == [] then 0 else TotalLength(texts[..|texts| - 1]) + |texts[|texts| - 1]|
  }

  lemma TotalLengthAppend(texts: seq<string>, t: string)
    ensures TotalLength(texts + [t]) == TotalLength(texts) + |t|
  {
    assert (texts + [t])[..|texts|] == texts;
  }

  /** The length the lookahead computes is that of the one-line text. */
  lemma {:induction false} RowLength(v: Value, i: nat)
    requires Writable(v) && v.data.Arr? && i <= Size(v.data.entries)
    ensures var n := Size(v.data.entries);
            |Row(v, i)| + TotalLength(Texts(v, i))
            == TotalLength(Texts(v, n)) + (if i == n then 0 else if i == 0 then 2 * (n - 1) else 2 * (n - i))
    decreases Size(v.data.entries) - i
  {
    hide Compact, Writable, At, Size, Row, Texts, TotalLength;
    if i < Size(v.data.entries) {
      RowFrom(v, i);
      NextText(v, i);
      TotalLengthAppend(Texts(v, i), Compact(At(v.data.entries, i)));
      RowLength(v, i + 1);
    } else {
      RowEnds(v);
    }
  }

  lemma OneLineLength(v: Value)
    requires Writable(v) && v.data.Arr? && Size(v.data.entries) > 0
    ensures |OneLineText(v)| == 4 + (Size(v.data.entries) - 1) * 2 + TotalLength(Texts(v, Size(v.data.entries)))
  {
    hide Compact, Writable, At, Size, Row;
    RowLength(v, 0);
  }

  // ----- the object -----

  class StyledWriter {
    var document: string
    var childValues: seq<string>
    var indentString: string
    var addChildValues: bool

    constructor ()
      ensures !addChildValues
    {
      document, childValues, indentString, addChildValues := "", [], "", false;
    }

    method Write(root: Value) returns (text: string)
      requires Writable(root)
      modifies this
      ensures text == StyledText(root)
    {
      hide Writable, Layout;
      document := "";
      addChildValues := false;
      indentString := "";
      WriteValue(root);
      assert "" + Layout(root, "") == Layout(root, "");
      document := document + "\n";
      return document;
    }

    // ----- pushing text -----

    method PushValue(text: string)
      modifies `document, `childValues
      ensures if addChildValues then document == old(document) && childValues == old(childValues) + [text]
              else document == old(document) + text && childValues == old(childValues)
    {
      if addChildValues {
        childValues := childValues + [text];
      } else {
        document := document + text;
      }
    }

    method WriteIndent()
      modifies `document
      ensures document == old(document) + IndentText(old(document), indentString)
    {
      if document != "" {
        var last := document[|document| - 1];
        if last == ' ' {
          assert document + "" == document;
          return;
        }
        if last != '\n' {
          document := document + "\n";
        }
      }
      document := document + indentString;
    }

    method WriteWithIndent(text: string)
      modifies `document
      ensures document == old(document) + IndentText(old(document), indentString) + text
    {
      WriteIndent();
      document := document + text;
    }

    method Indent()
      modifies `indentString
      ensures indentString == old(indentString) + "   "
    {
      indentString := indentString + "   ";
    }

    method Unindent()
      requires |indentString| >= 3
      modifies `indentString
      ensures indentString == old(indentString)[..|old(indentString)| - 3]
    {
      indentString := indentString[..|indentString| - 3];
    }

    // ----- values -----

    /** Where `writeValue` is called: for a leaf anywhere, for a container where it may start. */
    ghost predicate CanWrite(v: Value)
      reads this
    {
      AllBlank(indentString) && (IsLeaf(v) || (!addChildValues && AtStart(document, indentString)))
    }

    /** One child text was collected, or the document grew by the layout of the value. */
    twostate predicate Wrote(v: Value)
      requires Writable(v)
      reads this
    {
      && indentString == old(indentString) && addChildValues == old(addChildValues)
      && if addChildValues then document == old(document) && childValues == old(childValues) + [Compact(v)]
         else document == old(document) + Layout(v, indentString)
    }

    method WriteValue(v: Value)
      requires Writable(v) && CanWrite(v)
      modifies this
      ensures Wrote(v)
      decreases Height(v), 3
    {
      if v.data.Arr? {
        WriteArrayValue(v);
      } else if v.data.Obj? {
        WriteObjectValue(v);
      } else {
        hide Writable, Layout;
        var text := ScalarText(v);
        ScalarCompact(v);
        LeafLayout(v, indentString);
        PushValue(text);
      }
    }

    method WriteObjectValue(v: Value)
      requires Writable(v) && v.data.Obj? && CanWrite(v)
      modifies this
      ensures Wrote(v)
      decreases Height(v), 2
    {
      hide Writable, Layout, Tokens;
      if |v.data.entries| == 0 {
        EmptyCompact(v);
        LeafLayout(v, indentString);
        PushValue("{}");
        return;
      }
      ObjectLayout(v, indentString);
      NothingToIndent(document, indentString);
      assert document + "" == document;
      WriteMembers(v);
    }

    /** The lines of an object that has members. */
    method WriteMembers(v: Value)
      requires Writable(v) && v.data.Obj? && |v.data.entries| > 0 && AllBlank(indentString)
      requires !addChildValues && AtStart(document, indentString)
      modifies this
      ensures indentString == old(indentString) && !addChildValues
      ensures document == old(document) + ("{" + MemberLines(v, indentString + "   ", 0) + "\n" + indentString + "}")
      decreases Height(v), 1
    {
      hide *;
      ghost var before, indent, deeper := document, indentString, indentString + "   ";
      ghost var lines := MemberLines(v, deeper, 0);
      ObjectLayout(v, indent);
      DeeperIsBlank(indent);
      OpenLines("{");
      ghost var goal := document + lines;
      for i := 0 to |v.data.entries|
        invariant indentString == deeper && !addChildValues && EndsVisibly(document)
        invariant document + MemberLines(v, deeper, i) == goal
      {
        WriteMemberLine(v, i);
      }
      NothingAdded(document);
      CloseLines("}", indent);
      Enclosed(before, "{", lines, indent, "}");
    }

    /** The opening of a container that takes several lines. */
    method OpenLines(mark: string)
      requires (mark == "{" || mark == "[") && AtStart(document, indentString)
      modifies `document, `indentString
      ensures document == old(document) + mark && EndsVisibly(document)
      ensures indentString == old(indentString) + "   "
    {
      NothingToIndent(document, indentString);
      VisibleMark(document, mark);
      hide *;
      assert document + "" == document;
      WriteWithIndent(mark);
      Indent();
    }

    method CloseLines(mark: string, ghost indent: string)
      requires indentString == indent + "   " && EndsVisibly(document)
      modifies `document, `indentString
      ensures document == old(document) + "\n" + indent + mark && indentString == indent
    {
      hide *;
      Unindent();
      assert indentString == indent;
      NewLineNeeded(document, indent);
      assert document + ("\n" + indent) + mark == document + "\n" + indent + mark;
      WriteWithIndent(mark);
    }

    method WriteMemberLine(v: Value, i: nat)
      requires Writable(v) && v.data.Obj? && i < |v.data.entries|
      requires AllBlank(indentString) && !addChildValues && EndsVisibly(document)
      modifies this
      ensures indentString == old(indentString) && !addChildValues && EndsVisibly(document)
      ensures document + MemberLines(v, indentString, i + 1) == old(document) + MemberLines(v, indentString, i)
      decreases Height(v), 0
    {
      hide *;
      MemberLinesFrom(v, indentString, i);
      var e := v.data.entries[i];
      WriteComma(i);
      WriteMember(e.key.s, e.value);
      LayoutEndsVisibly(e.value, indentString);
      ghost var start := CommaBefore(i) + "\n" + indentString + Quoted(e.key.s) + " : ";
      assert document == old(document) + start + Layout(e.value, indentString);
      VisibleEnd(old(document) + start, Layout(e.value, indentString));
      FourParts(old(document), start, Layout(e.value, indentString), MemberLines(v, indentString, i + 1));
    }

    method WriteComma(i: nat)
      requires EndsVisibly(document)
      modifies `document
      ensures document == old(document) + CommaBefore(i) && EndsVisibly(document)
    {
      if i > 0 {
        document := document + ",";
      } else {
        assert document + "" == document;
      }
    }

    method WriteMember(name: string, value: Value)
      requires NulFree(name) && Writable(value) && AllBlank(indentString) && !addChildValues && EndsVisibly(document)
      modifies this
      ensures indentString == old(indentString) && !addChildValues
      ensures document == old(document) + "\n" + indentString + Quoted(name) + " : " + Layout(value, indentString)
      decreases Height(value), 4
    {
      hide Writable, Layout, Quoted, Height;
      NewLineNeeded(document, indentString);
      var quoted := ValueToQuotedString(name);
      WriteWithIndent(quoted);
      ColonStart(document, indentString);
      document := document + " : ";
      hide AtStart, IndentText, EndsVisibly;
      WriteValue(value);
    }

    method WriteArrayValue(v: Value)
      requires Writable(v) && v.data.Arr? && CanWrite(v)
      modifies this
      ensures Wrote(v)
      decreases Height(v), 2
    {
      hide Writable, Layout, Tokens, Size, OnOneLine, OneLineText;
      if Size(v.data.entries) == 0 {
        EmptyCompact(v);
        LeafLayout(v, indentString);
        PushValue("[]");
        return;
      }
      ArrayLayout(v, indentString);
      var multiLine := IsMultilineArray(v);
      if multiLine {
        WriteLines(v);
      } else {
        WriteOneLine(v);
      }
    }

    /** What the lookahead leaves behind. */
    ghost predicate Decided(v: Value, multiLine: bool)
      requires Writable(v) && v.data.Arr?
      reads `childValues
    {
      && multiLine == !OnOneLine(v)
      && childValues == if ForcedApart(v) then [] else Texts(v, Size(v.data.entries))
    }

    method WriteLines(v: Value)
      requires Writable(v) && v.data.Arr? && Size(v.data.entries) > 0 && AllBlank(indentString)
      requires !addChildValues && AtStart(document, indentString) && Decided(v, true)
      modifies this
      ensures indentString == old(indentString) && !addChildValues
      ensures document == old(document) + ("[" + ItemLines(v, indentString + "   ", 0) + "\n" + indentString + "]")
      decreases Height(v), 1
    {
      hide *;
      ghost var before, indent, deeper := document, indentString, indentString + "   ";
      ghost var lines := ItemLines(v, deeper, 0);
      ArrayLayout(v, indent);
      DeeperIsBlank(indent);
      OpenLines("[");
      ghost var goal := document + lines;
      var hasChildValue := childValues != [];
      for index := 0 to Size(v.data.entries)
        invariant indentString == deeper && !addChildValues && EndsVisibly(document)
        invariant hasChildValue ==> Decided(v, true) && childValues != []
        invariant document + ItemLines(v, deeper, index) == goal
      {
        WriteItemLine(v, index, hasChildValue);
      }
      NothingAdded(document);
      CloseLines("]", indent);
      Enclosed(before, "[", lines, indent, "]");
    }

    method WriteItemLine(v: Value, index: nat, hasChildValue: bool)
      requires Writable(v) && v.data.Arr? && index < Size(v.data.entries)
      requires AllBlank(indentString) && indentString != "" && !addChildValues && EndsVisibly(document)
      requires hasChildValue ==> Decided(v, true) && childValues != []
      modifies this
      ensures indentString == old(indentString) && !addChildValues && EndsVisibly(document)
      ensures hasChildValue ==> Decided(v, true) && childValues != []
      ensures document + ItemLines(v, indentString, index + 1) == old(document) + ItemLines(v, indentString, index)
      decreases Height(v), 0, 1
    {
      hide Writable, Layout, Compact, OnOneLine, ForcedApart, Texts, Size, At, Height, EndsVisibly, ItemLines, CommaBefore;
      ItemLinesFrom(v, indentString, index);
      var item := At(v.data.entries, index);
      WriteComma(index);
      WriteItem(v, index, hasChildValue);
      LayoutEndsVisibly(item, indentString);
      ghost var start := CommaBefore(index) + "\n" + indentString;
      assert document == old(document) + start + Layout(item, indentString);
      VisibleEnd(old(document) + start, Layout(item, indentString));
      FourParts(old(document), start, Layout(item, indentString), ItemLines(v, indentString, index + 1));
    }

    /** One element on a line of its own, from its collected text if there is one. */
    method WriteItem(v: Value, index: nat, hasChildValue: bool)
      requires Writable(v) && v.data.Arr? && index < Size(v.data.entries) && Writable(At(v.data.entries, index))
      requires AllBlank(indentString) && indentString != "" && !addChildValues && EndsVisibly(document)
      requires hasChildValue ==> Decided(v, true) && childValues != []
      modifies this
      ensures indentString == old(indentString) && !addChildValues && (hasChildValue ==> childValues == old(childValues))
      ensures document == old(document) + "\n" + indentString + Layout(At(v.data.entries, index), indentString)
      decreases Height(v), 0, 0
    {
      hide Writable, Layout, Compact, OnOneLine, ForcedApart, Texts, Size, At, Height, EndsVisibly;
      NewLineNeeded(document, indentString);
      WritableAt(v, index);
      var item := At(v.data.entries, index);
      if hasChildValue {
        CollectedText(v, index, childValues);
        LeafLayout(item, indentString);
        WriteWithIndent(childValues[index]);
      } else {
        WriteIndent();
        assert document == old(document) + "\n" + indentString;
        IndentedStart(old(document), indentString);
        hide IndentText;
        WriteValue(item);
      }
    }

    method WriteOneLine(v: Value)
      requires Writable(v) && v.data.Arr? && Size(v.data.entries) > 0 && Decided(v, false)
      modifies `document
      ensures document == old(document) + OneLineText(v)
    {
      hide Writable, Compact, Texts, Size, At, ForcedApart, Row;
      assert childValues == Texts(v, Size(v.data.entries));
      document := document + "[ ";
      ghost var before := document;
      for index := 0 to Size(v.data.entries)
        invariant document + Row(v, index) == before + Row(v, 0)
      {
        RowFrom(v, index);
        TextAt(v, Size(v.data.entries), index);
        ghost var d := document;
        if index > 0 {
          document := document + ", ";
        }
        document := document + childValues[index];
        ghost var piece := (if index == 0 then "" else ", ") + Compact(At(v.data.entries, index));
        assert document == d + piece;
        Associate(d, piece, Row(v, index + 1));
      }
      RowEnds(v);
      assert document == before + Row(v, 0) by { assert document + "" == document; }
      document := document + " ]";
      assert document == old(document) + ("[ " + Row(v, 0) + " ]");
    }

    /** Decides the layout; the document is left alone, the texts of the elements may be collected. */
    method IsMultilineArray(v: Value) returns (multiLine: bool)
      requires Writable(v) && v.data.Arr? && Size(v.data.entries) > 0 && AllBlank(indentString) && !addChildValues
      modifies this
      ensures document == old(document) && indentString == old(indentString) && !addChildValues
      ensures Decided(v, multiLine)
      decreases Height(v), 1
    {
      hide Tokens, Writable, IsLeaf, At, Compact, OneLineText, Texts, TotalLength, Layout;
      var size := Size(v.data.entries);
      multiLine := size * 3 >= RIGHT_MARGIN;
      childValues := [];
      var index := 0;
      while index < size && !multiLine
        invariant 0 <= index <= size
        invariant !multiLine ==> forall i :: 0 <= i < index ==> IsLeaf(At(v.data.entries, i))
        invariant if multiLine then ForcedApart(v) else size * 3 < RIGHT_MARGIN
      {
        multiLine := !IsLeaf(At(v.data.entries, index));
        index := index + 1;
      }
      if !multiLine {
        assert !ForcedApart(v);
        var lineLength := Collect(v);
        OneLineLength(v);
        multiLine := lineLength >= RIGHT_MARGIN;
      }
    }

    method CollectOne(v: Value)
      requires Writable(v) && IsLeaf(v) && AllBlank(indentString) && addChildValues
      modifies this
      ensures document == old(document) && indentString == old(indentString) && addChildValues
      ensures childValues == old(childValues) + [Compact(v)]
      decreases Height(v), 4
    {
      hide Writable, Layout, Compact, IsLeaf, AllBlank;
      WriteValue(v);
    }

    /** The second loop of `isMultineArray`: the leaves are written to `childValues`. */
    method Collect(v: Value) returns (lineLength: nat)
      requires Writable(v) && v.data.Arr? && Size(v.data.entries) > 0 && AllBlank(indentString)
      requires !addChildValues && childValues == [] && forall i :: 0 <= i < Size(v.data.entries) ==> IsLeaf(At(v.data.entries, i))
      modifies this
      ensures document == old(document) && indentString == old(indentString) && !addChildValues
      ensures childValues == Texts(v, Size(v.data.entries))
      ensures lineLength == 4 + (Size(v.data.entries) - 1) * 2 + TotalLength(Texts(v, Size(v.data.entries)))
      decreases Height(v), 0
    {
      hide *;
      var size := Size(v.data.entries);
      addChildValues := true;
      lineLength := 4 + (size - 1) * 2;
      var index := 0;
      NoTexts(v);
      while index < size
        invariant 0 <= index <= size && addChildValues && childValues == Texts(v, index)
        invariant document == old(document) && indentString == old(indentString)
        invariant lineLength == 4 + (size - 1) * 2 + TotalLength(Texts(v, index))
      {
        NextText(v, index);
        CollectOne(At(v.data.entries, index));
        TotalLengthAppend(Texts(v, index), Compact(At(v.data.entries, index)));
        lineLength := lineLength + |childValues[index]|;
        index := index + 1;
      }
      addChildValues := false;
    }
  }

  lemma NoTexts(v: Value)
    requires Writable(v) && v.data.Arr?
    ensures Texts(v, 0) == [] && TotalLength([]) == 0
  {
  }

  /** Texts are only collected when all elements are leaves. */
  lemma CollectedText(v: Value, i: nat, texts: seq<string>)
    requires Writable(v) && v.data.Arr? && i < Size(v.data.entries) && texts != []
    requires texts == if ForcedApart(v) then [] else Texts(v, Size(v.data.entries))
    ensures IsLeaf(At(v.data.entries, i)) && Writable(At(v.data.entries, i))
    ensures i < |texts| && texts[i] == Compact(At(v.data.entries, i))
  {
    hide Writable, Compact, Texts, At, IsLeaf;
    TextAt(v, Size(v.data.entries), i);
  }

  lemma ScalarCompact(v: Value)
    requires Writable(v) && !v.data.Arr? && !v.data.Obj?
    ensures |Tokens(v)| == 1 && Compact(v) == Spelling(Tokens(v)[0])
  {
    var t := Tokens(v)[0];
    assert Tokens(v) == [t];
    hide *;
    CompactIs(v);
    RenderedOne(t, false);
    assert Spelling(t) + "" == Spelling(t);
  }

  lemma EmptyCompact(v: Value)
    requires Writable(v)
    ensures v.data.Arr? && Size(v.data.entries) == 0 ==> Compact(v) == "[]"
    ensures v.data.Obj? && v.data.entries == [] ==> Compact(v) == "{}"
  {
    hide Writable, Rendered;
    if v.data.Arr? && Size(v.data.entries) == 0 {
      ArrayRendered(v, false);
    } else if v.data.Obj? && v.data.entries == [] {
      ObjectRendered(v, false);
    }
  }

  lemma DeeperIsBlank(indent: string)
    requires AllBlank(indent)
    ensures AllBlank(indent + "   ") && indent + "   " != ""
  {
  }

  lemma FourParts(a: string, b: string, c: string, d: string)
    ensures a + b + c + d == a + (b + c + d)
  {
  }

  lemma Enclosed(before: string, open: string, lines: string, indent: string, close: string)
    ensures before + open + lines + "\n" + indent + close == before + (open + lines + "\n" + indent + close)
  {
  }

  lemma NothingAdded(a: string)
    ensures a + "" == a
  {
  }

  lemma Associate(a: string, b: string, c: string)
    ensures a + b + c == a + (b + c)
  {
  }

  // ----- when an array goes on one line -----

  predicate NoNewline(s: string) {
    forall i :: 0 <= i < |s| ==> s[i] != '\n'
  }

  lemma EscapeHasNoNewline(c: char)
    ensures NoNewline(EscapeChar(c))
  {
    if |EscapeChar(c)| == 6 {
      HexHasNoNewline(c as int);
    }
  }

  lemma HexHasNoNewline(n: nat)
    requires n <= 0xFFFF
    ensures NoNewline(Hex4(n))
  {
  }

  lemma {:induction false} EscapedHasNoNewline(s: string)
    ensures NoNewline(Escaped(s))
  {
    hide EscapeChar;
    if s != [] {
      EscapeHasNoNewline(s[0]);
      EscapedHasNoNewline(s[1..]);
    }
  }

  lemma SpellingHasNoNewline(t: Tok)
    ensures NoNewline(Spelling(t))
  {
    hide Escaped, IntText;
    match t
    case StrTok(s) => EscapedHasNoNewline(s);
    case NumTok(i) => IntTextIsNumber(i);
    case _ =>
  }

  lemma {:induction false} RenderedHasNoNewline(toks: seq<Tok>)
    ensures NoNewline(Rendered(toks, false))
  {
    hide Spelling;
    if toks != [] {
      SpellingHasNoNewline(toks[0]);
      RenderedHasNoNewline(toks[1..]);
    }
  }

  lemma {:induction false} RowHasNoNewline(v: Value, i: nat)
    requires Writable(v) && v.data.Arr? && i <= Size(v.data.entries)
    ensures NoNewline(Row(v, i))
    decreases Size(v.data.entries) - i
  {
    hide Writable, Row, Rendered, Tokens, At, Size;
    if i == Size(v.data.entries) {
      RowEnds(v);
    } else {
      RowFrom(v, i);
      RenderedHasNoNewline(Tokens(At(v.data.entries, i)));
      RowHasNoNewline(v, i + 1);
    }
  }

  /**
   An array of leaves is written without a line break exactly if it has at most 24 elements
   whose texts, with two characters more for each, take at most 71 characters.
   */
  lemma OneLineIff(v: Value, indent: string)
    requires Writable(v) && v.data.Arr? && forall i :: 0 <= i < Size(v.data.entries) ==> IsLeaf(At(v.data.entries, i))
    ensures var n := Size(v.data.entries);
            NoNewline(Layout(v, indent)) <==> n == 0 || (n <= 24 && TotalLength(Texts(v, n)) + 2 * n <= 71)
  {
    hide *;
    if Size(v.data.entries) == 0 {
      EmptyIsLeaf(v);
      LeafLayout(v, indent);
      RenderedHasNoNewline(Tokens(v));
      CompactIs(v);
    } else {
      ArrayLayout(v, indent);
      OneLineDecision(v);
      OneLineTextHasNoNewline(v);
      LinesBreak(v, indent);
    }
  }

  lemma EmptyIsLeaf(v: Value)
    requires v.data.Arr? && Size(v.data.entries) == 0
    ensures IsLeaf(v)
  {
  }

  lemma OneLineDecision(v: Value)
    requires Writable(v) && v.data.Arr? && Size(v.data.entries) > 0
    requires forall i :: 0 <= i < Size(v.data.entries) ==> IsLeaf(At(v.data.entries, i))
    ensures var n := Size(v.data.entries); OnOneLine(v) <==> n <= 24 && TotalLength(Texts(v, n)) + 2 * n <= 71
  {
    hide Writable, IsLeaf, At, Size, OneLineText, TotalLength, Texts;
    OneLineLength(v);
  }

  lemma OneLineTextHasNoNewline(v: Value)
    requires Writable(v) && v.data.Arr?
    ensures NoNewline(OneLineText(v))
  {
    hide Writable, Row;
    RowHasNoNewline(v, 0);
  }

  lemma LinesBreak(v: Value, indent: string)
    requires Writable(v) && v.data.Arr?
    ensures !NoNewline("[" + ItemLines(v, indent + "   ", 0) + "\n" + indent + "]")
  {
    hide ItemLines, Writable;
    var t := "[" + ItemLines(v, indent + "   ", 0);
    assert (t + "\n" + indent + "]")[|t|] == '\n';
  }
}
