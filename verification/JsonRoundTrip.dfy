/**
 Reading what was written.  `ValueReads` needs only that the tokens of the value are found in
 the document, so it covers every layout; the theorems at the end instantiate it for the two
 writers.
 */
module JsonRoundTrip {
  import opened JsonValue
  import opened Optional
  import opened JsonLexer
  import opened JsonNumber
  import opened JsonString
  import opened JsonText
  import opened JsonWriter
  import opened JsonLayout
  import opened JsonReader

  /** What a value reads back as: integers retagged by magnitude, array holes filled with null. */
  function ReadBack(v: Value): Value
    requires Writable(v)
    decreases Height(v), 1, 0
  {
    match v.data
    case Int(i) => Value(Retagged(i), 0, 0)
    case UInt(u) => Value(Retagged(u), 0, 0)
    case Arr(es) => Value(Arr(ReadBackItems(v, Size(es))), 0, 0)
    case Obj(es) => Value(Obj(ReadBackMembers(v, |es|)), 0, 0)
    case d => Value(d, 0, 0)
  }

  function ReadBackItems(v: Value, n: nat): (r: seq<Entry>)
    requires Writable(v) && v.data.Arr?
    ensures |r| == n && forall k :: 0 <= k < n ==> r[k].key == Index(k)
    decreases Height(v), 0, n
  {
    if n == 0 then []
    else
      WritableAt(v, n - 1);
      ReadBackItems(v, n - 1) + [Entry(Index(n - 1), ReadBack(At(v.data.entries, n - 1)))]
  }

  function ReadBackMembers(v: Value, n: nat): (r: seq<Entry>)
    requires Writable(v) && v.data.Obj? && n <= |v.data.entries|
    ensures |r| == n && forall k :: 0 <= k < n ==> r[k].key == v.data.entries[k].key
    decreases Height(v), 0, n
  {
    if n == 0 then []
    else
      WritableMember(v, n - 1);
      ReadBackMembers(v, n - 1) + [Entry(v.data.entries[n - 1].key, ReadBack(v.data.entries[n - 1].value))]
  }

  // ----- one token at a time -----

  /** The facts about the next token when the document is known to lex as `[tok] + rest`. */
  lemma FirstToken(s: string, p: nat, tok: Tok, rest: seq<Tok>) returns (t: Token)
    requires p <= |s| && Lexes(s, p, [tok] + rest)
    ensures t == ReadToken(s, p) == NextToken(s, p) && t == TokenAt(s, t.start)
    ensures t.kind == KindOf(tok) && s[t.start..t.end] == Spelling(tok)
    ensures Lexes(s, t.end, rest) && LexEnd(s, p, 1 + |rest|) == LexEnd(s, t.end, |rest|)
  {
    hide Spelling, TokenAt;
    t := ReadToken(s, p);
    assert ([tok] + rest)[1..] == rest;
  }

  /** Spaces before a token do not matter. */
  lemma LexesAfterSpaces(s: string, p: nat, toks: seq<Tok>)
    requires p <= |s| && toks != []
    ensures Lexes(s, SkipSpaces(s, p), toks) == Lexes(s, p, toks)
    ensures LexEnd(s, SkipSpaces(s, p), |toks|) == LexEnd(s, p, |toks|)
  {
    hide Spelling, TokenAt, Words;
    var q := SkipSpaces(s, p);
    assert SkipSpaces(s, q) == q;
    assert ReadToken(s, q) == ReadToken(s, p);
  }

  /** The payload a scalar token is read as. */
  function Meaning(tok: Tok): Data
    requires IsWord(tok)
  {
    match tok
    case NullTok => Null
    case BoolTok(b) => Bool(b)
    case NumTok(i) => Retagged(i)
    case StrTok(s) => Str(Some(s))
  }

  lemma NumberReads(d: Source, p: nat, t: Token, i: int)
    requires p <= |d.text| && t == NextToken(d.text, p) && t.kind == NumberToken
    requires d.text[t.start..t.end] == IntText(i) && MIN_LARGEST_INT <= i <= MAX_LARGEST_UINT
    ensures d.ReadValue(p) == Ok(Value(Retagged(i), t.start, t.end), t.end)
  {
    hide TokenAt, NextToken, DecodeNumber, Retagged, IntText;
    NumberRoundTrip(i, d.scan);
  }

  lemma StringReads(d: Source, p: nat, t: Token, text: string)
    requires p <= |d.text| && t == NextToken(d.text, p) && t.kind == StringToken
    requires d.text[t.start..t.end] == Quoted(text) && NulFree(text)
    ensures d.ReadValue(p) == Ok(Value(Str(Some(text)), t.start, t.end), t.end)
  {
    hide TokenAt, NextToken, DecodeString, Quoted;
    var w := Quoted(text);
    forall i | 0 <= i < |w| ensures d.text[t.start + i] == w[i] {
      assert d.text[t.start..t.end][i] == d.text[t.start + i];
    }
    QuoteRoundTrip(d.text, t.start, text);
  }

  predicate InRange64(tok: Tok) {
    && (tok.NumTok? ==> MIN_LARGEST_INT <= tok.i <= MAX_LARGEST_UINT)
    && (tok.StrTok? ==> NulFree(tok.s))
  }

  lemma WordReads(d: Source, p: nat, tok: Tok)
    requires p <= |d.text| && IsWord(tok) && InRange64(tok) && Lexes(d.text, p, [tok])
    ensures d.ReadValue(p).Ok? && d.ReadValue(p).pos == LexEnd(d.text, p, 1)
    ensures d.ReadValue(p).value.data == Meaning(tok)
  {
    hide TokenAt, NextToken, Lexes, Retagged, IntText, Quoted;
    assert [tok] == [tok] + [];
    var t := FirstToken(d.text, p, tok, []);
    match tok {
      case NumTok(i) => NumberReads(d, p, t, i);
      case StrTok(text) => StringReads(d, p, t, text);
      case _ =>
    }
  }

  lemma ScalarReads(d: Source, p: nat, v: Value)
    requires Writable(v) && !v.data.Arr? && !v.data.Obj?
    requires p <= |d.text| && Lexes(d.text, p, Tokens(v))
    ensures d.ReadValue(p).Ok? && d.ReadValue(p).pos == LexEnd(d.text, p, |Tokens(v)|)
    ensures Plain(d.ReadValue(p).value) == ReadBack(v)
  {
    hide Lexes, Source.ReadValue, LexEnd;
    var tok := Tokens(v)[0];
    assert Tokens(v) == [tok];
    WordReads(d, p, tok);
  }

  // ----- arrays -----

  /** One turn of the element loop. */
  lemma ItemsUnfold(d: Source, p: nat, entries: seq<Entry>, i: nat, start: nat, v: Value, q: nat, t: Token)
    requires p <= |d.text| && d.ReadValue(p) == Ok(v, q) && t == NextToken(d.text, q)
    ensures t.kind == ArrayEnd ==>
              d.ReadItems(p, entries, i, start) == Ok(Value(Arr(Put(entries, Index(i), v)), start, t.end), t.end)
    ensures t.kind == ArraySeparator ==>
              d.ReadItems(p, entries, i, start) == d.ReadItems(t.end, Put(entries, Index(i), v), i + 1, start)
  {
  }

  /** Storing the next element extends the entries read so far. */
  lemma ItemStored(v: Value, i: nat, entries: seq<Entry>, item: Value)
    requires Writable(v) && v.data.Arr? && Writable(At(v.data.entries, i))
    requires PlainEntries(entries) == ReadBackItems(v, i) && Plain(item) == ReadBack(At(v.data.entries, i))
    ensures PlainEntries(Put(entries, Index(i), item)) == ReadBackItems(v, i + 1)
  {
    hide Plain, ReadBack, Writable, At;
    forall e | e in entries ensures KeyLess(e.key, Index(i)) {
      var k :| 0 <= k < |entries| && entries[k] == e;
      PlainEntryAt(entries, k);
    }
    PutAtEnd(entries, Index(i), item);
    PlainEntriesAppend(entries, Entry(Index(i), item));
  }

  lemma ArrayReadBack(v: Value, w: Value)
    requires Writable(v) && v.data.Arr? && w.data.Arr?
    requires PlainEntries(w.data.entries) == ReadBackItems(v, Size(v.data.entries))
    ensures Plain(w) == ReadBack(v)
  {
  }

  /** The rest of an array, when the entries read so far are those of its first `i` elements. */
  lemma {:induction false} ItemsRead(d: Source, p: nat, v: Value, i: nat, entries: seq<Entry>, start: nat)
    requires Writable(v) && v.data.Arr? && i < Size(v.data.entries) && p <= |d.text|
    requires Writable(At(v.data.entries, i))
    requires Lexes(d.text, p, Tokens(At(v.data.entries, i)) + (ItemTokens(v, i + 1) + [RBracket]))
    requires PlainEntries(entries) == ReadBackItems(v, i)
    ensures var r := d.ReadItems(p, entries, i, start);
            && r.Ok? && Plain(r.value) == ReadBack(v)
            && r.pos == LexEnd(d.text, p, |Tokens(At(v.data.entries, i)) + (ItemTokens(v, i + 1) + [RBracket])|)
    decreases Height(v), 0, Size(v.data.entries) - i
  {
    hide *;
    var item := At(v.data.entries, i);
    var rest := ItemTokens(v, i + 1) + [RBracket];
    LexesInTwo(d.text, p, Tokens(item), rest);
    WritableAt(v, i);
    ValueReads(d, p, item);
    var Ok(w, q) := d.ReadValue(p);
    ItemStored(v, i, entries, w);
    var entries' := Put(entries, Index(i), w);
    if i + 1 == Size(v.data.entries) {
      ArrayTokens(v);
      assert rest == [RBracket] + [];
      var t := FirstToken(d.text, q, RBracket, []);
      assert t.kind == ArrayEnd by { KindsOfPunctuation(); }
      ItemsUnfold(d, p, entries, i, start, w, q, t);
      ArrayReadBack(v, Value(Arr(entries'), start, t.end));
      LexEndZero(d.text, t.end);
    } else {
      ItemTokensFrom(v, i + 1);
      var tail := Tokens(At(v.data.entries, i + 1)) + (ItemTokens(v, i + 2) + [RBracket]);
      SeparatorIsComma(i + 1);
      assert rest == [Comma] + tail;
      var t := FirstToken(d.text, q, Comma, tail);
      assert t.kind == ArraySeparator by { KindsOfPunctuation(); }
      ItemsUnfold(d, p, entries, i, start, w, q, t);
      ItemsRead(d, t.end, v, i + 1, entries', start);
    }
  }

  lemma KindsOfPunctuation()
    ensures KindOf(LBracket) == ArrayBegin && KindOf(RBracket) == ArrayEnd && KindOf(Comma) == ArraySeparator
    ensures KindOf(LBrace) == ObjectBegin && KindOf(RBrace) == ObjectEnd && KindOf(Colon) == MemberSeparator
    ensures forall s :: KindOf(StrTok(s)) == StringToken
  {
  }

  lemma SeparatorIsComma(i: nat)
    requires i > 0
    ensures Separator(i) == [Comma]
  {
  }

  lemma LexEndZero(s: string, p: nat)
    requires p <= |s|
    ensures LexEnd(s, p, 0) == p
  {
  }

  /** Whether an array is empty shows in its first token. */
  lemma ArrayUnfold(d: Source, p: nat, t: Token, next: Token)
    requires p <= |d.text| && t == NextToken(d.text, p) && t.kind == ArrayBegin && next == ReadToken(d.text, t.end)
    ensures next.kind == ArrayEnd ==> d.ReadValue(p) == Ok(Value(Arr([]), t.start, next.end), next.end)
    ensures next.kind != ArrayEnd ==>
              d.ReadValue(p) == d.ReadItems(SkipSpaces(d.text, t.end), [], 0, t.start)
  {
    hide TokenAt, NextToken, Source.ReadItems, Source.ReadMembers;
    var q := SkipSpaces(d.text, t.end);
    assert SkipSpaces(d.text, q) == q;
    assert next == TokenAt(d.text, q);
    ClosingBracket(d.text, q);
  }

  lemma ClosingBracket(s: string, q: nat)
    requires q <= |s|
    ensures TokenAt(s, q).kind == ArrayEnd <==> CharAt(s, q) == ']'
  {
    hide ScanString, ScanComment, ScanNumber, ScanWord;
  }

  // ----- objects -----

  lemma MembersUnfold(d: Source, p: nat, entries: seq<Entry>, last: string, start: nat, t: Token, name: string,
                      colon: Token, v: Value, q: nat, after: Token)
    requires p <= |d.text| && t == NextToken(d.text, p) && t.kind == StringToken && DecodeString(d.text, t) == Text(name)
    requires colon == ReadToken(d.text, t.end) && colon.kind == MemberSeparator && d.ReadValue(colon.end) == Ok(v, q)
    requires after == ReadToken(d.text, q) == NextToken(d.text, q)
    ensures after.kind == ObjectEnd ==>
              d.ReadMembers(p, entries, last, start)
              == Ok(Value(Obj(Put(entries, Name(CStr(name)), v)), start, after.end), after.end)
    ensures after.kind == ArraySeparator ==>
              d.ReadMembers(p, entries, last, start)
              == d.ReadMembers(after.end, Put(entries, Name(CStr(name)), v), name, start)
  {
    hide NextToken, ReadToken, DecodeString, Source.ReadValue, Put;
    assert d.ReadMembers(p, entries, last, start) == d.AfterMember(q, Put(entries, Name(CStr(name)), v), name, start);
  }

  lemma MemberStored(v: Value, i: nat, entries: seq<Entry>, w: Value)
    requires Writable(v) && v.data.Obj? && i < |v.data.entries| && Writable(v.data.entries[i].value)
    requires PlainEntries(entries) == ReadBackMembers(v, i) && Plain(w) == ReadBack(v.data.entries[i].value)
    ensures PlainEntries(Put(entries, v.data.entries[i].key, w)) == ReadBackMembers(v, i + 1)
  {
    hide Plain, ReadBack;
    var key := v.data.entries[i].key;
    forall e | e in entries ensures KeyLess(e.key, key) {
      var k :| 0 <= k < |entries| && entries[k] == e;
      PlainEntryAt(entries, k);
    }
    PutAtEnd(entries, key, w);
    PlainEntriesAppend(entries, Entry(key, w));
  }

  lemma ObjectReadBack(v: Value, w: Value)
    requires Writable(v) && v.data.Obj? && w.data.Obj?
    requires PlainEntries(w.data.entries) == ReadBackMembers(v, |v.data.entries|)
    ensures Plain(w) == ReadBack(v)
  {
  }

  /** The tokens from the name of member `i` to the closing brace. */
  function FromMember(v: Value, i: nat): (r: seq<Tok>)
    requires Writable(v) && v.data.Obj? && i < |v.data.entries|
  {
    WritableMember(v, i);
    var e := v.data.entries[i];
    [StrTok(e.key.s)] + ([Colon] + (Tokens(e.value) + (MemberTokens(v, i + 1) + [RBrace])))
  }

  lemma FromMemberIs(v: Value, i: nat)
    requires Writable(v) && v.data.Obj? && i < |v.data.entries|
    ensures var e := v.data.entries[i];
            && e.key.Name? && NulFree(e.key.s) && Writable(e.value) && Height(e.value) < Height(v)
            && FromMember(v, i) == [StrTok(e.key.s)] + ([Colon] + (Tokens(e.value) + (MemberTokens(v, i + 1) + [RBrace])))
            && MemberTokens(v, i) + [RBrace] == Separator(i) + FromMember(v, i)
  {
    hide Tokens, Writable;
    MemberTokensFrom(v, i);
  }

  lemma NameDecodes(d: Source, t: Token, name: string)
    requires t.start <= t.end <= |d.text| && t == TokenAt(d.text, t.start) && t.kind == StringToken
    requires d.text[t.start..t.end] == Quoted(name) && NulFree(name)
    ensures DecodeString(d.text, t) == Text(name) && CStr(name) == name
  {
    hide TokenAt, DecodeString, Quoted;
    var w := Quoted(name);
    forall i | 0 <= i < |w| ensures d.text[t.start + i] == w[i] {
      assert d.text[t.start..t.end][i] == d.text[t.start + i];
    }
    QuoteRoundTrip(d.text, t.start, name);
  }

  /** The name of a member and the colon behind it. */
  lemma NameRead(d: Source, p: nat, name: string, rest: seq<Tok>) returns (t: Token, colon: Token)
    requires p <= |d.text| && NulFree(name) && Lexes(d.text, p, [StrTok(name)] + ([Colon] + rest))
    ensures t == NextToken(d.text, p) && t.kind == StringToken && t == TokenAt(d.text, t.start)
    ensures DecodeString(d.text, t) == Text(name) && CStr(name) == name
    ensures colon == ReadToken(d.text, t.end) && colon.kind == MemberSeparator
    ensures Lexes(d.text, colon.end, rest)
    ensures LexEnd(d.text, p, |[StrTok(name)] + ([Colon] + rest)|) == LexEnd(d.text, colon.end, |rest|)
  {
    hide *;
    KindsOfPunctuation();
    t := FirstToken(d.text, p, StrTok(name), [Colon] + rest);
    NameSpelling(name);
    NameDecodes(d, t, name);
    colon := FirstToken(d.text, t.end, Colon, rest);
  }

  lemma {:induction false} MembersRead(d: Source, p: nat, v: Value, i: nat, entries: seq<Entry>, last: string, start: nat)
    requires Writable(v) && v.data.Obj? && i < |v.data.entries| && p <= |d.text|
    requires Lexes(d.text, p, FromMember(v, i))
    requires PlainEntries(entries) == ReadBackMembers(v, i)
    ensures var r := d.ReadMembers(p, entries, last, start);
            && r.Ok? && Plain(r.value) == ReadBack(v)
            && r.pos == LexEnd(d.text, p, |FromMember(v, i)|)
    decreases Height(v), 0, |v.data.entries| - i
  {
    hide *;
    FromMemberIs(v, i);
    KindsOfPunctuation();
    var e := v.data.entries[i];
    var rest := MemberTokens(v, i + 1) + [RBrace];
    var t, colon := NameRead(d, p, e.key.s, Tokens(e.value) + rest);
    LexesInTwo(d.text, colon.end, Tokens(e.value), rest);
    ValueReads(d, colon.end, e.value);
    var Ok(w, q) := d.ReadValue(colon.end);
    MemberStored(v, i, entries, w);
    var entries' := Put(entries, e.key, w);
    if i + 1 == |v.data.entries| {
      ObjectTokens(v);
      assert rest == [RBrace] + [];
      var after := FirstToken(d.text, q, RBrace, []);
      MembersUnfold(d, p, entries, last, start, t, e.key.s, colon, w, q, after);
      ObjectReadBack(v, Value(Obj(entries'), start, after.end));
      LexEndZero(d.text, after.end);
    } else {
      FromMemberIs(v, i + 1);
      SeparatorIsComma(i + 1);
      var after := FirstToken(d.text, q, Comma, FromMember(v, i + 1));
      MembersUnfold(d, p, entries, last, start, t, e.key.s, colon, w, q, after);
      MembersRead(d, after.end, v, i + 1, entries', e.key.s, start);
    }
  }

  lemma NameSpelling(name: string)
    ensures Spelling(StrTok(name)) == Quoted(name)
  {
  }

  lemma ObjectUnfold(d: Source, p: nat, t: Token, next: Token)
    requires p <= |d.text| && t == NextToken(d.text, p) && t.kind == ObjectBegin && next == NextToken(d.text, t.end)
    ensures d.ReadValue(p) == d.ReadMembers(t.end, [], "", t.start)
    ensures next.kind == ObjectEnd ==> d.ReadValue(p) == Ok(Value(Obj([]), t.start, next.end), next.end)
  {
    hide NextToken;
  }

  // ----- the whole tree -----

  /** Wherever the tokens of a value are found, reading yields the value and stops behind them. */
  lemma {:induction false} ValueReads(d: Source, p: nat, v: Value)
    requires Writable(v) && p <= |d.text| && Lexes(d.text, p, Tokens(v))
    ensures d.ReadValue(p).Ok? && d.ReadValue(p).pos == LexEnd(d.text, p, |Tokens(v)|)
    ensures Plain(d.ReadValue(p).value) == ReadBack(v)
    decreases Height(v), 1, 0
  {
    if v.data.Arr? {
      ArrayReads(d, p, v);
    } else if v.data.Obj? {
      ObjectReads(d, p, v);
    } else {
      ScalarReads(d, p, v);
    }
  }

  lemma {:induction false} ArrayReads(d: Source, p: nat, v: Value)
    requires Writable(v) && v.data.Arr? && p <= |d.text| && Lexes(d.text, p, Tokens(v))
    ensures d.ReadValue(p).Ok? && d.ReadValue(p).pos == LexEnd(d.text, p, |Tokens(v)|)
    ensures Plain(d.ReadValue(p).value) == ReadBack(v)
    decreases Height(v), 0, Size(v.data.entries) + 1
  {
    hide *;
    NothingReadBack(v);
    KindsOfPunctuation();
    ArrayTokens(v);
    var rest := ItemTokens(v, 0) + [RBracket];
    assert Tokens(v) == [LBracket] + rest;
    var t := FirstToken(d.text, p, LBracket, rest);
    if Size(v.data.entries) == 0 {
      assert rest == [RBracket] + [];
      var next := FirstToken(d.text, t.end, RBracket, []);
      ArrayUnfold(d, p, t, next);
      ArrayReadBack(v, Value(Arr([]), t.start, next.end));
      LexEndZero(d.text, next.end);
    } else {
      ItemTokensFrom(v, 0);
      SeparatorIsEmpty();
      var item := Tokens(At(v.data.entries, 0));
      var tail := item + (ItemTokens(v, 1) + [RBracket]);
      assert rest == tail;
      FirstIsNotClosing(d, t.end, At(v.data.entries, 0), ItemTokens(v, 1) + [RBracket]);
      ArrayUnfold(d, p, t, ReadToken(d.text, t.end));
      LexesAfterSpaces(d.text, t.end, tail);
      ItemsRead(d, SkipSpaces(d.text, t.end), v, 0, [], t.start);
    }
  }

  lemma SeparatorIsEmpty()
    ensures Separator(0) == []
  {
  }

  lemma NothingReadBack(v: Value)
    requires Writable(v)
    ensures v.data.Arr? ==> PlainEntries([]) == ReadBackItems(v, 0)
    ensures v.data.Obj? ==> PlainEntries([]) == ReadBackMembers(v, 0)
  {
  }

  /** No value starts with a closing bracket. */
  lemma FirstIsNotClosing(d: Source, p: nat, v: Value, rest: seq<Tok>)
    requires Writable(v) && p <= |d.text| && Lexes(d.text, p, Tokens(v) + rest)
    ensures ReadToken(d.text, p).kind != ArrayEnd && Tokens(v) != []
  {
    hide *;
    FirstTokenOpens(v);
    var toks := Tokens(v) + rest;
    assert toks[0] == Tokens(v)[0];
    LexesHead(d.text, p, toks);
  }

  lemma LexesHead(s: string, p: nat, toks: seq<Tok>)
    requires p <= |s| && toks != [] && Lexes(s, p, toks)
    ensures ReadToken(s, p).kind == ArrayEnd <==> toks[0].RBracket?
  {
    hide ReadToken, Spelling;
  }

  lemma FirstTokenOpens(v: Value)
    requires Writable(v)
    ensures Tokens(v) != [] && !Tokens(v)[0].RBracket?
  {
    hide Writable, ItemTokens, MemberTokens;
  }

  lemma {:induction false} ObjectReads(d: Source, p: nat, v: Value)
    requires Writable(v) && v.data.Obj? && p <= |d.text| && Lexes(d.text, p, Tokens(v))
    ensures d.ReadValue(p).Ok? && d.ReadValue(p).pos == LexEnd(d.text, p, |Tokens(v)|)
    ensures Plain(d.ReadValue(p).value) == ReadBack(v)
    decreases Height(v), 0, |v.data.entries| + 1
  {
    hide *;
    NothingReadBack(v);
    KindsOfPunctuation();
    ObjectTokens(v);
    var rest := MemberTokens(v, 0) + [RBrace];
    assert Tokens(v) == [LBrace] + rest;
    var t := FirstToken(d.text, p, LBrace, rest);
    if |v.data.entries| == 0 {
      assert rest == [RBrace] + [];
      var next := FirstToken(d.text, t.end, RBrace, []);
      ObjectUnfold(d, p, t, next);
      ObjectReadBack(v, Value(Obj([]), t.start, next.end));
      LexEndZero(d.text, next.end);
    } else {
      FromMemberIs(v, 0);
      SeparatorIsEmpty();
      assert rest == FromMember(v, 0);
      ObjectUnfold(d, p, t, NextToken(d.text, t.end));
      MembersRead(d, t.end, v, 0, [], "", t.start);
    }
  }

  // ----- theorems -----

  /** Any text that spells the tokens of a value, however laid out, parses to that value. */
  lemma SpelledTextParses(text: string, v: Value, scan: string -> Option<real>)
    requires Writable(v) && Spells(text, Tokens(v))
    ensures var r := Source(text, scan).ReadValue(0); r.Ok? && Plain(r.value) == ReadBack(v)
  {
    hide *;
    TokensProper(v);
    assert text[0..] == text;
    SpelledTokensLex(text, 0, Tokens(v));
    ValueReads(Source(text, scan), 0, v);
  }

  // ----- writing again -----

  lemma {:induction false} FindAt(es: seq<Entry>, k: nat)
    requires k < |es| && forall j :: 0 <= j < k ==> es[j].key != es[k].key
    ensures Find(es, es[k].key) == Some(es[k].value)
  {
    if k > 0 {
      FindAt(es[1..], k - 1);
    }
  }

  lemma {:induction false} ItemReadBack(v: Value, n: nat, k: nat)
    requires Writable(v) && v.data.Arr? && k < n
    ensures Writable(At(v.data.entries, k)) && Height(At(v.data.entries, k)) < Height(v)
    ensures ReadBackItems(v, n)[k] == Entry(Index(k), ReadBack(At(v.data.entries, k)))
    ensures At(ReadBackItems(v, n), k) == ReadBack(At(v.data.entries, k))
    decreases n
  {
    hide ReadBack, Writable, At;
    WritableAt(v, k);
    if k + 1 < n {
      ItemReadBack(v, n - 1, k);
    }
    assert ReadBackItems(v, n)[k] == Entry(Index(k), ReadBack(At(v.data.entries, k)));
    FindAt(ReadBackItems(v, n), k);
    AtFound(ReadBackItems(v, n), k, ReadBack(At(v.data.entries, k)));
  }

  lemma AtFound(es: seq<Entry>, k: nat, v: Value)
    requires Find(es, Index(k)) == Some(v)
    ensures At(es, k) == v
  {
  }

  lemma {:induction false} MemberReadBack(v: Value, n: nat, k: nat)
    requires Writable(v) && v.data.Obj? && k < n <= |v.data.entries|
    ensures var e := v.data.entries[k];
            && Writable(e.value) && Height(e.value) < Height(v)
            && ReadBackMembers(v, n)[k] == Entry(e.key, ReadBack(e.value))
    decreases n
  {
    hide ReadBack;
    WritableMember(v, k);
    if k + 1 < n {
      MemberReadBack(v, n - 1, k);
    }
  }

  lemma ArrayIsWritable(es: seq<Entry>)
    requires forall k :: 0 <= k < |es| ==> es[k].key == Index(k) && Writable(es[k].value)
    requires |es| <= MAX_INT
    ensures Writable(Value(Arr(es), 0, 0)) && Size(es) == |es|
  {
    forall e | e in es ensures e.key.Index? && e.key.i < MAX_INT && Writable(e.value) {
      var k :| 0 <= k < |es| && es[k] == e;
    }
  }

  lemma ObjectIsWritable(v: Value, es: seq<Entry>)
    requires Writable(v) && v.data.Obj? && |es| == |v.data.entries|
    requires forall k :: 0 <= k < |es| ==> es[k].key == v.data.entries[k].key && Writable(es[k].value)
    ensures Writable(Value(Obj(es), 0, 0))
  {
    forall e | e in es ensures e.key.Name? && NulFree(e.key.s) && Writable(e.value) {
      var k :| 0 <= k < |es| && es[k] == e;
      WritableMember(v, k);
    }
  }

  lemma {:induction false} SameItemTokens(v: Value, w: Value, i: nat)
    requires Writable(v) && Writable(w) && v.data.Arr? && w.data.Arr?
    requires Size(v.data.entries) == Size(w.data.entries) && i <= Size(v.data.entries)
    requires forall k :: 0 <= k < Size(v.data.entries) ==> SameItem(v, w, k)
    ensures ItemTokens(v, i) == ItemTokens(w, i)
    decreases Size(v.data.entries) - i
  {
    hide Tokens, Writable, At, Size;
    if i < Size(v.data.entries) {
      assert SameItem(v, w, i);
      SameItemTokens(v, w, i + 1);
    }
  }

  ghost predicate SameItem(v: Value, w: Value, k: nat)
    requires Writable(v) && Writable(w) && v.data.Arr? && w.data.Arr?
  {
    WritableAt(v, k);
    WritableAt(w, k);
    Tokens(At(v.data.entries, k)) == Tokens(At(w.data.entries, k))
  }

  lemma {:induction false} SameMemberTokens(v: Value, w: Value, i: nat)
    requires Writable(v) && Writable(w) && v.data.Obj? && w.data.Obj?
    requires |v.data.entries| == |w.data.entries| && i <= |v.data.entries|
    requires forall k :: 0 <= k < |v.data.entries| ==> SameMember(v, w, k)
    ensures MemberTokens(v, i) == MemberTokens(w, i)
    decreases |v.data.entries| - i
  {
    hide Tokens, Writable;
    if i < |v.data.entries| {
      assert SameMember(v, w, i);
      SameMemberTokens(v, w, i + 1);
    }
  }

  ghost predicate SameMember(v: Value, w: Value, k: nat)
    requires Writable(v) && Writable(w) && v.data.Obj? && w.data.Obj?
    requires k < |v.data.entries| == |w.data.entries|
  {
    WritableMember(v, k);
    WritableMember(w, k);
    && v.data.entries[k].key == w.data.entries[k].key
    && Tokens(v.data.entries[k].value) == Tokens(w.data.entries[k].value)
  }

  /** What is read back is writable again and is written with the same tokens. */
  lemma {:induction false} ReadBackSameTokens(v: Value)
    requires Writable(v)
    ensures Writable(ReadBack(v)) && Tokens(ReadBack(v)) == Tokens(v)
    decreases Height(v)
  {
    if v.data.Arr? {
      var n := Size(v.data.entries);
      var es := ReadBackItems(v, n);
      var w := Value(Arr(es), 0, 0);
      assert w == ReadBack(v);
      SizeFits(v);
      hide *;
      forall k | 0 <= k < n ensures es[k].key == Index(k) && Writable(es[k].value) {
        ItemReadBack(v, n, k);
        ReadBackSameTokens(At(v.data.entries, k));
      }
      ArrayIsWritable(es);
      forall k | 0 <= k < n ensures SameItem(v, w, k) {
        ItemReadBack(v, n, k);
        ReadBackSameTokens(At(v.data.entries, k));
        SameItemWhen(v, w, k);
      }
      SameItemTokens(v, w, 0);
      ArrayTokens(v);
      ArrayTokens(w);
    } else if v.data.Obj? {
      var n := |v.data.entries|;
      var es := ReadBackMembers(v, n);
      var w := Value(Obj(es), 0, 0);
      assert w == ReadBack(v);
      hide *;
      forall k | 0 <= k < n ensures es[k].key == v.data.entries[k].key && Writable(es[k].value) {
        MemberReadBack(v, n, k);
        ReadBackSameTokens(v.data.entries[k].value);
      }
      ObjectIsWritable(v, es);
      forall k | 0 <= k < n ensures SameMember(v, w, k) {
        MemberReadBack(v, n, k);
        ReadBackSameTokens(v.data.entries[k].value);
        SameMemberWhen(v, w, k);
      }
      SameMemberTokens(v, w, 0);
      ObjectTokens(v);
      ObjectTokens(w);
    }
  }

  lemma SizeFits(v: Value)
    requires Writable(v) && v.data.Arr?
    ensures Size(v.data.entries) <= MAX_INT
  {
    if v.data.entries != [] {
      assert v.data.entries[|v.data.entries| - 1] in v.data.entries;
    }
  }

  lemma SameItemWhen(v: Value, w: Value, k: nat)
    requires Writable(v) && Writable(w) && v.data.Arr? && w.data.Arr?
    requires Writable(At(v.data.entries, k)) && Writable(At(w.data.entries, k))
    requires Tokens(At(v.data.entries, k)) == Tokens(At(w.data.entries, k))
    ensures SameItem(v, w, k)
  {
  }

  lemma SameMemberWhen(v: Value, w: Value, k: nat)
    requires Writable(v) && Writable(w) && v.data.Obj? && w.data.Obj?
    requires k < |v.data.entries| == |w.data.entries|
    requires Writable(v.data.entries[k].value) && Writable(w.data.entries[k].value)
    requires v.data.entries[k].key == w.data.entries[k].key
    requires Tokens(v.data.entries[k].value) == Tokens(w.data.entries[k].value)
    ensures SameMember(v, w, k)
  {
  }

  /** The compact text of a value, as `FastWriter` writes it. */
  function FastText(v: Value, yaml: bool, newline: bool): string
    requires Writable(v)
  {
    Rendered(Tokens(v), yaml) + if newline then "\n" else ""
  }

  /** Reading FastWriter's output yields the value, and writing that again yields the same text. */
  lemma FastWriterRoundTrip(v: Value, yaml: bool, newline: bool, scan: string -> Option<real>)
    requires Writable(v)
    ensures var r := Source(FastText(v, yaml, newline), scan).ReadValue(0);
            && r.Ok? && Plain(r.value) == ReadBack(v)
            && Writable(ReadBack(v)) && FastText(ReadBack(v), yaml, newline) == FastText(v, yaml, newline)
  {
    var text := FastText(v, yaml, newline);
    FastTextSpells(v, yaml, newline);
    hide *;
    SpelledTextParses(text, v, scan);
    ReadBackSameTokens(v);
    assert FastText(ReadBack(v), yaml, newline) == text by { FastTextOfTokens(ReadBack(v), v, yaml, newline); }
  }

  lemma FastTextOfTokens(v: Value, w: Value, yaml: bool, newline: bool)
    requires Writable(v) && Writable(w) && Tokens(v) == Tokens(w)
    ensures FastText(v, yaml, newline) == FastText(w, yaml, newline)
  {
  }

  lemma FastTextSpells(v: Value, yaml: bool, newline: bool)
    requires Writable(v)
    ensures Spells(FastText(v, yaml, newline), Tokens(v))
  {
    hide Spells, Rendered, Tokens, Writable;
    var toks := Tokens(v);
    var tail := if newline then "\n" else "";
    RenderedSpells(toks, yaml);
    SpaceSpellsNothing(tail);
    SpellsAppend(Rendered(toks, yaml), toks, tail, []);
    assert toks + [] == toks;
  }

  /**
   The two writers emit the same token sequence: in either text the reader finds the tokens of
   the value and then the end, so the texts differ only in white space between tokens.
   */
  lemma WritersAgree(v: Value, yaml: bool, newline: bool, scan: string -> Option<real>)
    requires Writable(v)
    ensures Lexes(StyledText(v), 0, Tokens(v)) && Lexes(FastText(v, yaml, newline), 0, Tokens(v))
    ensures ReadToken(StyledText(v), LexEnd(StyledText(v), 0, |Tokens(v)|)).kind == EndOfStream
    ensures var fast := FastText(v, yaml, newline);
            ReadToken(fast, LexEnd(fast, 0, |Tokens(v)|)).kind == EndOfStream
    ensures var a, b := Source(StyledText(v), scan).ReadValue(0), Source(FastText(v, yaml, newline), scan).ReadValue(0);
            a.Ok? && b.Ok? && Plain(a.value) == ReadBack(v) && Plain(b.value) == ReadBack(v)
  {
    hide *;
    var styled, fast := StyledText(v), FastText(v, yaml, newline);
    StyledTextSpells(v);
    FastTextSpells(v, yaml, newline);
    TokensProper(v);
    assert styled[0..] == styled && fast[0..] == fast;
    SpelledTokensLex(styled, 0, Tokens(v));
    SpelledTokensLex(fast, 0, Tokens(v));
    SpelledTextParses(styled, v, scan);
    SpelledTextParses(fast, v, scan);
  }
}
