/**
 Writing what was read.  The value a read yields carries spans, which the writers ignore; so
 write-read-write equals write on the objects themselves.
 */
module JsonRewrite {
  import opened JsonValue
  import opened Optional
  import opened JsonText
  import opened JsonWriter
  import opened JsonString
  import opened JsonLayout
  import opened JsonStyledWriter
  import opened JsonReader
  import opened JsonRoundTrip

  // ----- erasing spans, entry by entry -----

  lemma {:induction false} PlainFind(es: seq<Entry>, key: Key)
    ensures Find(PlainEntries(es), key)
            == match Find(es, key) case None => None case Some(v) => Some(Plain(v))
  {
    hide Plain;
    if es != [] {
      PlainFind(es[1..], key);
      assert PlainEntries(es)[1..] == PlainEntries(es[1..]);
    }
  }

  lemma PlainAt(es: seq<Entry>, i: nat)
    ensures At(PlainEntries(es), i) == Plain(At(es, i))
  {
    PlainFind(es, Index(i));
    assert Plain(NULL_VALUE) == NULL_VALUE;
  }

  lemma PlainAscending(es: seq<Entry>)
    requires Ascending(PlainEntries(es))
    ensures Ascending(es) && Size(PlainEntries(es)) == Size(es)
  {
    hide PlainEntries, KeyLess;
    forall k | 0 <= k < |es| ensures PlainEntries(es)[k].key == es[k].key {
      PlainEntryAt(es, k);
    }
  }

  // ----- spans do not matter to the writers -----

  lemma {:induction false} PlainWritable(v: Value)
    requires Writable(Plain(v))
    ensures Writable(v)
    decreases Height(v)
  {
    if v.data.Arr? || v.data.Obj? {
      var es := v.data.entries;
      PlainAscending(es);
      forall e | e in es
        ensures var k := e.key; Writable(e.value) && (if v.data.Arr? then k.Index? && k.i < MAX_INT else k.Name? && NulFree(k.s))
      {
        var k :| 0 <= k < |es| && es[k] == e;
        PlainEntryAt(es, k);
        HeightOfMember(es, e);
        assert PlainEntries(es)[k] in PlainEntries(es);
        PlainWritable(e.value);
      }
    }
  }

  lemma {:induction false} PlainSameTokens(v: Value)
    requires Writable(v) && Writable(Plain(v))
    ensures Tokens(v) == Tokens(Plain(v))
    decreases Height(v)
  {
    var w := Plain(v);
    if v.data.Arr? {
      var es := v.data.entries;
      assert w.data == Arr(PlainEntries(es));
      PlainAscending(es) by { assert Ascending(PlainEntries(es)); }
      hide *;
      forall k | 0 <= k < Size(es) ensures SameItem(v, w, k) {
        WritableAt(v, k);
        WritableAt(w, k);
        PlainAt(es, k);
        PlainSameTokens(At(es, k));
        SameItemWhen(v, w, k);
      }
      SameItemTokens(v, w, 0);
      ArrayTokens(v);
      ArrayTokens(w);
    } else if v.data.Obj? {
      var es := v.data.entries;
      assert w.data == Obj(PlainEntries(es));
      hide *;
      forall k | 0 <= k < |es| ensures SameMember(v, w, k) {
        WritableMember(v, k);
        WritableMember(w, k);
        PlainEntryAt(es, k);
        PlainSameTokens(es[k].value);
        SameMemberWhen(v, w, k);
      }
      SameMemberTokens(v, w, 0);
      ObjectTokens(v);
      ObjectTokens(w);
    }
  }

  /** A value that reads back from `v` is written with the tokens of `v`. */
  lemma RereadSameTokens(v: Value, again: Value)
    requires Writable(v) && Plain(again) == ReadBack(v)
    ensures Writable(again) && Tokens(again) == Tokens(v)
  {
    hide *;
    ReadBackSameTokens(v);
    PlainWritable(again);
    PlainSameTokens(again);
  }

  // ----- the layout depends on what is read back only -----

  /** Both writers write the two values alike. */
  ghost predicate LooksAlike(v: Value, w: Value) {
    && Writable(v) && Writable(w) && Tokens(v) == Tokens(w)
    && forall indent: string :: Layout(v, indent) == Layout(w, indent)
  }

  lemma LooksAlikeWhen(v: Value, w: Value)
    requires Writable(v) && Writable(w) && Tokens(v) == Tokens(w)
    requires forall indent: string :: Layout(v, indent) == Layout(w, indent)
    ensures LooksAlike(v, w)
  {
  }

  lemma Look(v: Value, w: Value, indent: string)
    requires LooksAlike(v, w)
    ensures Writable(v) && Writable(w) && Tokens(v) == Tokens(w) && Layout(v, indent) == Layout(w, indent)
    ensures Compact(v) == Compact(w) && IsLeaf(v) == IsLeaf(w)
  {
    hide Layout, Writable, Rendered;
    LeafByTokens(v);
    LeafByTokens(w);
  }

  lemma LeafByTokens(v: Value)
    requires Writable(v)
    ensures IsLeaf(v) <==> |Tokens(v)| <= 2
  {
    if v.data.Arr? && Size(v.data.entries) > 0 {
      ItemTokensFrom(v, 0);
      assert |ItemTokens(v, 0)| > 0;
    } else if v.data.Obj? && |v.data.entries| > 0 {
      MemberTokensFrom(v, 0);
      assert |MemberTokens(v, 0)| > 0;
    }
  }

  ghost predicate ItemsAlike(v: Value, w: Value) {
    && Writable(v) && Writable(w) && v.data.Arr? && w.data.Arr? && Size(v.data.entries) == Size(w.data.entries)
    && forall k :: 0 <= k < Size(v.data.entries) ==> LooksAlike(At(v.data.entries, k), At(w.data.entries, k))
  }

  lemma ItemAlike(v: Value, w: Value, k: nat)
    requires ItemsAlike(v, w) && k < Size(v.data.entries)
    ensures Writable(v) && Writable(w) && v.data.Arr? && w.data.Arr? && Size(v.data.entries) == Size(w.data.entries)
    ensures LooksAlike(At(v.data.entries, k), At(w.data.entries, k))
  {
    hide LooksAlike, Writable;
  }

  lemma {:induction false} SameRow(v: Value, w: Value, i: nat)
    requires ItemsAlike(v, w) && i <= Size(v.data.entries)
    ensures Row(v, i) == Row(w, i)
    decreases Size(v.data.entries) - i
  {
    hide LooksAlike, Writable, Row, At, Size;
    if i < Size(v.data.entries) {
      ItemAlike(v, w, i);
      Look(At(v.data.entries, i), At(w.data.entries, i), "");
      RowFrom(v, i);
      RowFrom(w, i);
      SameRow(v, w, i + 1);
    } else {
      RowEnds(v);
      RowEnds(w);
    }
  }

  lemma SameDecision(v: Value, w: Value)
    requires ItemsAlike(v, w)
    ensures OnOneLine(v) == OnOneLine(w) && OneLineText(v) == OneLineText(w)
  {
    hide LooksAlike, Writable, Row, At, Size, IsLeaf;
    SameRow(v, w, 0);
    forall k | 0 <= k < Size(v.data.entries) ensures IsLeaf(At(v.data.entries, k)) == IsLeaf(At(w.data.entries, k)) {
      Look(At(v.data.entries, k), At(w.data.entries, k), "");
    }
  }

  lemma {:induction false} SameItemLines(v: Value, w: Value, indent: string, i: nat)
    requires ItemsAlike(v, w) && i <= Size(v.data.entries)
    ensures ItemLines(v, indent, i) == ItemLines(w, indent, i)
    decreases Size(v.data.entries) - i
  {
    hide LooksAlike, Writable, At, Size, Layout, CommaBefore;
    if i < Size(v.data.entries) {
      ItemAlike(v, w, i);
      Look(At(v.data.entries, i), At(w.data.entries, i), indent);
      ItemLinesFrom(v, indent, i);
      ItemLinesFrom(w, indent, i);
      SameItemLines(v, w, indent, i + 1);
    }
  }

  lemma ArraysLookAlike(v: Value, w: Value)
    requires ItemsAlike(v, w) && Tokens(v) == Tokens(w)
    ensures LooksAlike(v, w)
  {
    assert Writable(v) && Writable(w) && v.data.Arr? && w.data.Arr? && Size(v.data.entries) == Size(w.data.entries);
    assert IsLeaf(v) <==> Size(v.data.entries) == 0;
    assert IsLeaf(w) <==> Size(w.data.entries) == 0;
    hide *;
    forall indent: string ensures Layout(v, indent) == Layout(w, indent) {
      if Size(v.data.entries) == 0 {
        LeavesLookAlike(v, w, indent);
      } else {
        ArrayLayout(v, indent);
        ArrayLayout(w, indent);
        SameDecision(v, w);
        SameItemLines(v, w, indent + "   ", 0);
      }
    }
    LooksAlikeWhen(v, w);
  }

  lemma LeavesLookAlike(v: Value, w: Value, indent: string)
    requires Writable(v) && Writable(w) && IsLeaf(v) && IsLeaf(w) && Tokens(v) == Tokens(w)
    ensures Layout(v, indent) == Layout(w, indent)
  {
    hide Tokens, Writable;
  }

  ghost predicate MembersAlike(v: Value, w: Value) {
    && Writable(v) && Writable(w) && v.data.Obj? && w.data.Obj? && |v.data.entries| == |w.data.entries|
    && forall k :: 0 <= k < |v.data.entries| ==>
         v.data.entries[k].key == w.data.entries[k].key && LooksAlike(v.data.entries[k].value, w.data.entries[k].value)
  }

  lemma {:induction false} SameMemberLines(v: Value, w: Value, indent: string, i: nat)
    requires MembersAlike(v, w) && i <= |v.data.entries|
    ensures MemberLines(v, indent, i) == MemberLines(w, indent, i)
    decreases |v.data.entries| - i
  {
    hide LooksAlike, Writable, Layout, CommaBefore, Quoted;
    if i < |v.data.entries| {
      Look(v.data.entries[i].value, w.data.entries[i].value, indent);
      MemberLinesFrom(v, indent, i);
      MemberLinesFrom(w, indent, i);
      SameMemberLines(v, w, indent, i + 1);
    }
  }

  lemma ObjectsLookAlike(v: Value, w: Value)
    requires MembersAlike(v, w) && Tokens(v) == Tokens(w)
    ensures LooksAlike(v, w)
  {
    assert Writable(v) && Writable(w) && v.data.Obj? && w.data.Obj? && |v.data.entries| == |w.data.entries|;
    assert IsLeaf(v) <==> |v.data.entries| == 0;
    assert IsLeaf(w) <==> |w.data.entries| == 0;
    hide *;
    forall indent: string ensures Layout(v, indent) == Layout(w, indent) {
      if |v.data.entries| == 0 {
        LeavesLookAlike(v, w, indent);
      } else {
        ObjectLayout(v, indent);
        ObjectLayout(w, indent);
        SameMemberLines(v, w, indent + "   ", 0);
      }
    }
    LooksAlikeWhen(v, w);
  }

  lemma ScalarsLookAlike(v: Value, w: Value)
    requires Writable(v) && Writable(w) && Tokens(v) == Tokens(w) && IsLeaf(v) && IsLeaf(w)
    ensures LooksAlike(v, w)
  {
    hide *;
    forall indent: string ensures Layout(v, indent) == Layout(w, indent) {
      LeavesLookAlike(v, w, indent);
    }
    LooksAlikeWhen(v, w);
  }

  lemma {:induction false} ReadBackLooksAlike(v: Value)
    requires Writable(v)
    ensures LooksAlike(v, ReadBack(v))
    decreases Height(v)
  {
    var w := ReadBack(v);
    ReadBackSameTokens(v);
    if v.data.Arr? {
      var n := Size(v.data.entries);
      assert w == Value(Arr(ReadBackItems(v, n)), 0, 0);
      assert Size(w.data.entries) == n;
      hide *;
      forall k | 0 <= k < n ensures LooksAlike(At(v.data.entries, k), At(w.data.entries, k)) {
        ItemReadBack(v, n, k);
        ReadBackLooksAlike(At(v.data.entries, k));
      }
      ItemsAlikeWhen(v, w);
      ArraysLookAlike(v, w);
    } else if v.data.Obj? {
      var n := |v.data.entries|;
      assert w == Value(Obj(ReadBackMembers(v, n)), 0, 0);
      hide *;
      forall k | 0 <= k < n
        ensures v.data.entries[k].key == w.data.entries[k].key && LooksAlike(v.data.entries[k].value, w.data.entries[k].value)
      {
        MemberReadBack(v, n, k);
        ReadBackLooksAlike(v.data.entries[k].value);
      }
      MembersAlikeWhen(v, w);
      ObjectsLookAlike(v, w);
    } else {
      assert IsLeaf(w);
      ScalarsLookAlike(v, w);
    }
  }

  lemma ItemsAlikeWhen(v: Value, w: Value)
    requires Writable(v) && Writable(w) && v.data.Arr? && w.data.Arr? && Size(v.data.entries) == Size(w.data.entries)
    requires forall k :: 0 <= k < Size(v.data.entries) ==> LooksAlike(At(v.data.entries, k), At(w.data.entries, k))
    ensures ItemsAlike(v, w)
  {
  }

  lemma MembersAlikeWhen(v: Value, w: Value)
    requires Writable(v) && Writable(w) && v.data.Obj? && w.data.Obj? && |v.data.entries| == |w.data.entries|
    requires forall k :: 0 <= k < |v.data.entries| ==>
               v.data.entries[k].key == w.data.entries[k].key && LooksAlike(v.data.entries[k].value, w.data.entries[k].value)
    ensures MembersAlike(v, w)
  {
  }

  lemma {:induction false} PlainLooksAlike(v: Value)
    requires Writable(v) && Writable(Plain(v))
    ensures LooksAlike(v, Plain(v))
    decreases Height(v)
  {
    var w := Plain(v);
    PlainSameTokens(v);
    if v.data.Arr? {
      var es := v.data.entries;
      assert w.data == Arr(PlainEntries(es));
      PlainAscending(es) by { assert Ascending(PlainEntries(es)); }
      hide *;
      forall k | 0 <= k < Size(es) ensures LooksAlike(At(es, k), At(w.data.entries, k)) {
        WritableAt(v, k);
        WritableAt(w, k);
        PlainAt(es, k);
        PlainLooksAlike(At(es, k));
      }
      ItemsAlikeWhen(v, w);
      ArraysLookAlike(v, w);
    } else if v.data.Obj? {
      var es := v.data.entries;
      assert w.data == Obj(PlainEntries(es));
      hide *;
      forall k | 0 <= k < |es|
        ensures es[k].key == w.data.entries[k].key && LooksAlike(es[k].value, w.data.entries[k].value)
      {
        WritableMember(v, k);
        WritableMember(w, k);
        PlainEntryAt(es, k);
        PlainLooksAlike(es[k].value);
      }
      MembersAlikeWhen(v, w);
      ObjectsLookAlike(v, w);
    } else {
      assert IsLeaf(w);
      ScalarsLookAlike(v, w);
    }
  }

  /** A value that reads back from `v` is written by both writers as `v` is. */
  lemma RereadLooksAlike(v: Value, again: Value)
    requires Writable(v) && Plain(again) == ReadBack(v)
    ensures Writable(again) && Tokens(again) == Tokens(v) && StyledText(again) == StyledText(v)
  {
    RereadSameTokens(v, again);
    hide Tokens, Layout, Writable, Plain, ReadBack;
    ReadBackSameTokens(v);
    ReadBackLooksAlike(v);
    PlainLooksAlike(again);
  }

  // ----- the objects at work -----

  /** Both writers write the value, the reader reads either text, and the results are written again. */
  method WriteReadWrite(v: Value, scan: string -> Option<real>)
    returns (fast: string, styled: string, fromFast: Value, fromStyled: Value, fast2: string, styled2: string)
    requires Writable(v)
    ensures fast == FastText(v, false, true) && styled == StyledText(v)
    ensures Plain(fromFast) == ReadBack(v) && Plain(fromStyled) == ReadBack(v)
    ensures fast2 == fast && styled2 == styled
  {
    hide *;
    var fastWriter := new FastWriter(false, false);
    var styledWriter := new StyledWriter();
    var reader := new Reader(scan);
    FastTextIs(v);
    WritersAgree(v, false, true, scan);
    fast := fastWriter.Write(v);
    styled := styledWriter.Write(v);
    var ok;
    ok, fromFast := reader.Parse(fast);
    ok, fromStyled := reader.Parse(styled);
    RereadLooksAlike(v, fromFast);
    RereadLooksAlike(v, fromStyled);
    fast2 := fastWriter.Write(fromStyled);
    styled2 := styledWriter.Write(fromFast);
  }

  lemma FastTextIs(v: Value)
    requires Writable(v)
    ensures FastText(v, false, true) == Rendered(Tokens(v), false) + "\n"
  {
  }
}
