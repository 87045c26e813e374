/**
 The spans the reader records.  After a successful read every value's `[start, limit)` lies
 strictly inside its parent's, siblings' spans are disjoint, and reading just the bytes of a
 span gives the value again.
 */
module JsonSpans {
  import opened JsonValue
  import opened JsonLexer
  import opened JsonNumber
  import opened JsonString
  import opened JsonReader
  import opened JsonWindow

  // ----- moving a tree -----

  /** The tree with every span moved by `a`. */
  function MovedValue(a: nat, v: Value): Value
    decreases Height(v), 0
  {
    match v.data
    case Arr(es) => Value(Arr(MovedEntries(a, es)), a + v.start, a + v.limit)
    case Obj(es) => Value(Obj(MovedEntries(a, es)), a + v.start, a + v.limit)
    case d => Value(d, a + v.start, a + v.limit)
  }

  function MovedEntries(a: nat, es: seq<Entry>): (r: seq<Entry>)
    ensures |r| == |es|
    decreases HeightOfEntries(es), 1 + |es|
  {
    if es == [] then []
    else
      HeightOfMember(es, es[0]);
      [Entry(es[0].key, MovedValue(a, es[0].value))] + MovedEntries(a, es[1..])
  }

  lemma {:induction false} MovedPut(a: nat, es: seq<Entry>, key: Key, v: Value)
    ensures MovedEntries(a, Put(es, key, v)) == Put(MovedEntries(a, es), key, MovedValue(a, v))
  {
    hide MovedValue;
    if es != [] {
      var e, rest := es[0], es[1..];
      var me := [Entry(e.key, MovedValue(a, e.value))];
      assert MovedEntries(a, es) == me + MovedEntries(a, rest);
      assert MovedEntries(a, es)[1..] == MovedEntries(a, rest);
      if e.key == key {
        assert ([Entry(key, v)] + rest)[1..] == rest;
      } else if KeyLess(key, e.key) {
        assert ([Entry(key, v)] + es)[1..] == es;
      } else {
        MovedPut(a, rest, key, v);
        assert ([e] + Put(rest, key, v))[1..] == Put(rest, key, v);
      }
    } else {
      assert [Entry(key, v)][1..] == [];
    }
  }

  /** A successful outcome in a window, seen from the document. */
  ghost predicate Same(a: nat, r: Outcome, w: Outcome) {
    r.Ok? && w.Ok? && r.value == MovedValue(a, w.value) && r.pos == a + w.pos
  }

  ghost predicate Window(s: Source, w: Source, a: nat) {
    s.scan == w.scan && Occurs(s.text, a, w.text)
  }

  /** The premise of locality: the read succeeds and ends inside the window. */
  ghost predicate Inside(s: Source, w: Source, a: nat, r: Outcome) {
    Window(s, w, a) && r.Ok? && r.pos <= a + |w.text|
  }

  // ----- locality of values -----

  lemma {:induction false} ValueInWindow(s: Source, w: Source, a: nat, p: nat)
    requires p <= |w.text| && a + p <= |s.text| && Inside(s, w, a, s.ReadValue(a + p))
    ensures Same(a, s.ReadValue(a + p), w.ReadValue(p))
    decreases |w.text| - p, 1
  {
    hide NextToken, TokenAt, Occurs, Source.ReadValue, Source.ReadMembers, Source.ReadArray, Same, MovedValue, MovedEntries;
    TokenBeforeEnd(s, a + p);
    NextTokenInWindow(s.text, w.text, a, p);
    var t := NextToken(w.text, p);
    if t.kind == ObjectBegin {
      ContainerUnfold(s, a + p);
      ContainerUnfold(w, p);
      NothingMoved(a);
      MembersInWindow(s, w, a, t.end, [], "", t.start);
    } else if t.kind == ArrayBegin {
      ContainerUnfold(s, a + p);
      ContainerUnfold(w, p);
      ArrayInWindow(s, w, a, t.end, t.start);
    } else {
      ScalarInWindow(s, w, a, p, t);
    }
  }

  lemma NothingMoved(a: nat)
    ensures MovedEntries(a, []) == []
  {
  }

  lemma ContainerUnfold(s: Source, p: nat)
    requires p <= |s.text|
    ensures var t := NextToken(s.text, p);
            && (t.kind == ObjectBegin ==> s.ReadValue(p) == s.ReadMembers(t.end, [], "", t.start))
            && (t.kind == ArrayBegin ==> s.ReadValue(p) == s.ReadArray(t.end, t.start))
  {
    hide NextToken;
  }

  lemma ArrayConsumes(s: Source, p: nat, start: nat)
    requires p <= |s.text| && s.ReadArray(p, start).Ok?
    ensures SkipSpaces(s.text, p) < s.ReadArray(p, start).pos
  {
    hide Source.ReadItems;
    var q := SkipSpaces(s.text, p);
    assert SkipSpaces(s.text, q) == q;
  }

  /** A read consumes at least its first token. */
  lemma TokenBeforeEnd(s: Source, p: nat)
    requires p <= |s.text| && s.ReadValue(p).Ok?
    ensures NextToken(s.text, p).end <= s.ReadValue(p).pos
  {
  }

  lemma ScalarInWindow(s: Source, w: Source, a: nat, p: nat, t: Token)
    requires p <= |w.text| && a + p <= |s.text| && Inside(s, w, a, s.ReadValue(a + p))
    requires t == NextToken(w.text, p) && NextToken(s.text, a + p) == MovedToken(a, t)
    requires t.kind != ObjectBegin && t.kind != ArrayBegin
    ensures Same(a, s.ReadValue(a + p), w.ReadValue(p))
  {
    hide NextToken, DecodeNumber, DecodeBody, Occurs, CStr, Source.ReadMembers, Source.ReadArray, Source.InRange, MovedEntries;
    if t.kind == NumberToken {
      TextInWindow(s.text, w.text, a, t.start, t.end);
    } else if t.kind == StringToken {
      LiteralInWindow(s.text, w.text, a, t);
    }
  }

  /** The parts of a member are found: its name, the colon and its value. */
  ghost predicate MemberFound(s: Source, p: nat)
    requires p <= |s.text|
  {
    var t := NextToken(s.text, p);
    && t.kind == StringToken && DecodeString(s.text, t).Text?
    && ReadToken(s.text, t.end).kind == MemberSeparator && s.ReadValue(ReadToken(s.text, t.end).end).Ok?
  }

  /** The read goes on behind the member, and it succeeds only if there is one or the object ends. */
  lemma MembersSplit(s: Source, p: nat, es: seq<Entry>, last: string, start: nat)
    requires p <= |s.text| && !(NextToken(s.text, p).kind == ObjectEnd && last == "")
    ensures s.ReadMembers(p, es, last, start).Ok? ==> MemberFound(s, p)
    ensures MemberFound(s, p) ==>
              var t := NextToken(s.text, p);
              var name, colon := DecodeString(s.text, t).text, ReadToken(s.text, t.end).end;
              var Ok(v, q) := s.ReadValue(colon);
              && t.end <= colon <= q <= s.ReadMembers(p, es, last, start).pos
              && s.ReadMembers(p, es, last, start) == s.AfterMember(q, Put(es, Name(CStr(name)), v), name, start)
  {
    hide NextToken, ReadToken, DecodeString, Put, CStr, Recover, Source.ReadValue, Source.AfterMember;
  }

  lemma LiteralInWindow(s: string, w: string, a: nat, t: Token)
    requires Occurs(s, a, w) && t.start + 2 <= t.end <= |w| && a + t.end <= |s|
    ensures DecodeString(s, MovedToken(a, t)) == MovedText(a, DecodeString(w, t))
  {
    hide Occurs, DecodeBody;
    BodyInWindow(s, w, a, t.start + 1, t.end - 1);
  }

  /** The name, the colon and the value of a member are found in the window, too. */
  lemma MemberHead(s: Source, w: Source, a: nat, p: nat, es: seq<Entry>, fs: seq<Entry>, last: string, start: nat)
    returns (name: string, colon: nat)
    requires p <= |w.text| && a + p <= |s.text| && Inside(s, w, a, s.ReadMembers(a + p, es, last, a + start))
    requires !(NextToken(s.text, a + p).kind == ObjectEnd && last == "")
    ensures p < colon <= |w.text| && a + colon <= |s.text| && Inside(s, w, a, s.ReadValue(a + colon))
    ensures var Ok(v, q) := s.ReadValue(a + colon);
            s.ReadMembers(a + p, es, last, a + start) == s.AfterMember(q, Put(es, Name(CStr(name)), v), name, a + start)
    ensures w.ReadValue(colon).Ok? ==>
              var Ok(v, q) := w.ReadValue(colon);
              w.ReadMembers(p, fs, last, start) == w.AfterMember(q, Put(fs, Name(CStr(name)), v), name, start)
  {
    hide NextToken, ReadToken, DecodeString, Put, CStr, Occurs, Source.ReadValue, Source.ReadMembers, Source.AfterMember;
    MembersSplit(s, a + p, es, last, a + start);
    NameInWindow(s.text, w.text, a, p);
    var t := NextToken(w.text, p);
    name := DecodeString(w.text, t).text;
    colon := ReadToken(w.text, t.end).end;
    MembersSplit(w, p, fs, last, start);
  }

  lemma NameInWindow(s: string, w: string, a: nat, p: nat)
    requires Occurs(s, a, w) && p <= |w| && a + p <= |s| && NextToken(s, a + p).kind == StringToken
    requires ReadToken(s, NextToken(s, a + p).end).end <= a + |w|
    ensures var t := NextToken(w, p);
            var t' := NextToken(s, a + p);
            && t.kind == t'.kind && t'.end == a + t.end
            && DecodeString(s, t').Text? == DecodeString(w, t).Text?
            && (DecodeString(s, t').Text? ==> DecodeString(s, t').text == DecodeString(w, t).text)
            && ReadToken(s, t'.end).kind == ReadToken(w, t.end).kind && ReadToken(s, t'.end).end == a + ReadToken(w, t.end).end
  {
    hide NextToken, ReadToken, DecodeString, Occurs;
    NextTokenInWindow(s, w, a, p);
    var t := NextToken(w, p);
    LiteralInWindow(s, w, a, t);
    ReadTokenInWindow(s, w, a, t.end);
  }

  lemma ObjectEndsInWindow(s: Source, w: Source, a: nat, p: nat, es: seq<Entry>, start: nat)
    requires p <= |w.text| && a + p <= |s.text| && NextToken(s.text, a + p).kind == ObjectEnd
    requires Inside(s, w, a, s.ReadMembers(a + p, MovedEntries(a, es), "", a + start))
    ensures Same(a, s.ReadMembers(a + p, MovedEntries(a, es), "", a + start), w.ReadMembers(p, es, "", start))
  {
    hide NextToken, Occurs, Source.ReadMembers, MovedEntries, MovedValue;
    ObjectEnds(s, a + p, MovedEntries(a, es), a + start);
    NextTokenInWindow(s.text, w.text, a, p);
    ObjectEnds(w, p, es, start);
    MovedObject(a, es, start, NextToken(w.text, p).end);
  }

  lemma ObjectEnds(s: Source, p: nat, es: seq<Entry>, start: nat)
    requires p <= |s.text| && NextToken(s.text, p).kind == ObjectEnd
    ensures s.ReadMembers(p, es, "", start) == Ok(Value(Obj(es), start, NextToken(s.text, p).end), NextToken(s.text, p).end)
  {
    hide NextToken, ReadToken, DecodeString, Recover, Source.ReadValue, Source.AfterMember;
  }

  lemma {:induction false} MembersInWindow(s: Source, w: Source, a: nat, p: nat, es: seq<Entry>, last: string, start: nat)
    requires p <= |w.text| && a + p <= |s.text|
    requires Inside(s, w, a, s.ReadMembers(a + p, MovedEntries(a, es), last, a + start))
    ensures Same(a, s.ReadMembers(a + p, MovedEntries(a, es), last, a + start), w.ReadMembers(p, es, last, start))
    decreases |w.text| - p, 2
  {
    hide NextToken, Put, CStr, Occurs, Source.ReadValue, Source.ReadMembers, Source.AfterMember, MovedEntries, MovedValue;
    var t := NextToken(s.text, a + p);
    if t.kind == ObjectEnd && last == "" {
      ObjectEndsInWindow(s, w, a, p, es, start);
    } else {
      var name, colon := MemberHead(s, w, a, p, MovedEntries(a, es), es, last, start);
      ValueInWindow(s, w, a, colon);
      var Ok(v, q) := w.ReadValue(colon);
      MovedPut(a, es, Name(CStr(name)), v);
      AfterMemberInWindow(s, w, a, q, Put(es, Name(CStr(name)), v), name, start);
    }
  }

  lemma MovedObject(a: nat, es: seq<Entry>, start: nat, limit: nat)
    ensures MovedValue(a, Value(Obj(es), start, limit)) == Value(Obj(MovedEntries(a, es)), a + start, a + limit)
    ensures MovedValue(a, Value(Arr(es), start, limit)) == Value(Arr(MovedEntries(a, es)), a + start, a + limit)
  {
  }

  /** What follows a member, as far as a successful read goes. */
  lemma AfterMemberSplit(s: Source, p: nat, es: seq<Entry>, last: string, start: nat)
    requires p <= |s.text|
    ensures var r, comma, t := s.AfterMember(p, es, last, start), ReadToken(s.text, p), NextToken(s.text, p);
            && comma.end <= t.end
            && (comma.kind == ObjectEnd || comma.kind == ArraySeparator || comma.kind == Comment ==>
                  && p < t.end <= r.pos
                  && r == if t.kind == ObjectEnd then Ok(Value(Obj(es), start, t.end), t.end)
                          else s.ReadMembers(t.end, es, last, start))
            && (r.Ok? ==> comma.kind == ObjectEnd || comma.kind == ArraySeparator || comma.kind == Comment)
  {
    hide NextToken, ReadToken, Recover, Source.ReadMembers;
    CommaConsumed(s.text, p);
  }

  lemma {:induction false} AfterMemberInWindow(s: Source, w: Source, a: nat, p: nat, es: seq<Entry>, last: string, start: nat)
    requires p <= |w.text| && a + p <= |s.text|
    requires Inside(s, w, a, s.AfterMember(a + p, MovedEntries(a, es), last, a + start))
    ensures Same(a, s.AfterMember(a + p, MovedEntries(a, es), last, a + start), w.AfterMember(p, es, last, start))
    decreases |w.text| - p, 2
  {
    hide NextToken, ReadToken, Occurs, Source.ReadMembers, Source.AfterMember, MovedEntries, MovedValue;
    AfterMemberSplit(s, a + p, MovedEntries(a, es), last, a + start);
    AfterMemberSplit(w, p, es, last, start);
    NextTokenInWindow(s.text, w.text, a, p);
    ReadTokenInWindow(s.text, w.text, a, p);
    var t := NextToken(w.text, p);
    MovedObject(a, es, start, t.end);
    if t.kind != ObjectEnd {
      MembersInWindow(s, w, a, t.end, es, last, start);
    }
  }

  lemma CommaConsumed(s: string, p: nat)
    requires p <= |s|
    ensures ReadToken(s, p).end <= NextToken(s, p).end
    ensures ReadToken(s, p).kind != EndOfStream ==> p < NextToken(s, p).end
  {
  }

  lemma {:induction false} ArrayInWindow(s: Source, w: Source, a: nat, p: nat, start: nat)
    requires p <= |w.text| && a + p <= |s.text|
    requires Inside(s, w, a, s.ReadArray(a + p, a + start))
    ensures Same(a, s.ReadArray(a + p, a + start), w.ReadArray(p, start))
    decreases |w.text| - p, 3
  {
    hide ReadToken, SkipSpaces, Source.ReadItems, MovedValue;
    var r := s.ReadArray(a + p, a + start);
    ArrayConsumes(s, a + p, a + start);
    SpacesInWindow(s.text, w.text, a, p);
    var q := SkipSpaces(w.text, p);
    assert s.text[a + q] == w.text[q];
    assert MovedEntries(a, []) == [];
    if CharAt(w.text, q) == ']' {
      ReadTokenInWindow(s.text, w.text, a, q);
      MovedObject(a, [], start, ReadToken(w.text, q).end);
    } else {
      ItemsInWindow(s, w, a, q, [], 0, start);
    }
  }

  /** One element of an array, as far as a successful read goes. */
  lemma ItemsSplit(s: Source, p: nat, es: seq<Entry>, index: nat, start: nat)
    requires p <= |s.text|
    ensures var r := s.ReadItems(p, es, index, start);
            match s.ReadValue(p)
            case Fail(_, _) => r.Fail?
            case Ok(v, q) =>
              var t := NextToken(s.text, q);
              && s.ReadValue(p).pos <= t.end <= r.pos
              && (t.kind == ArrayEnd ==> r == Ok(Value(Arr(Put(es, Index(index), v)), start, t.end), t.end))
              && (t.kind == ArraySeparator ==> r == s.ReadItems(t.end, Put(es, Index(index), v), index + 1, start))
              && (t.kind != ArrayEnd && t.kind != ArraySeparator ==> r.Fail?)
  {
    hide NextToken, Put, Recover, Source.ReadValue;
  }

  lemma {:induction false} ItemsInWindow(s: Source, w: Source, a: nat, p: nat, es: seq<Entry>, index: nat, start: nat)
    requires p <= |w.text| && a + p <= |s.text|
    requires Inside(s, w, a, s.ReadItems(a + p, MovedEntries(a, es), index, a + start))
    ensures Same(a, s.ReadItems(a + p, MovedEntries(a, es), index, a + start), w.ReadItems(p, es, index, start))
    decreases |w.text| - p, 2
  {
    hide NextToken, Put, Occurs, Source.ReadValue, Source.ReadItems, MovedEntries, MovedValue;
    ItemsSplit(s, a + p, MovedEntries(a, es), index, a + start);
    ItemsSplit(w, p, es, index, start);
    ValueInWindow(s, w, a, p);
    var Ok(v, q) := w.ReadValue(p);
    NextTokenInWindow(s.text, w.text, a, q);
    var t := NextToken(w.text, q);
    MovedPut(a, es, Index(index), v);
    if t.kind == ArrayEnd {
      MovedObject(a, Put(es, Index(index), v), start, t.end);
    } else {
      hide Same;
      ItemsInWindow(s, w, a, t.end, Put(es, Index(index), v), index + 1, start);
    }
  }

  // ----- well-spanned trees -----

  /** Reading just the bytes of the span consumes them all and gives the value again. */
  ghost predicate Reparses(s: Source, v: Value) {
    && v.start <= v.limit <= |s.text|
    && Same(v.start, Ok(v, v.limit), Source(s.text[v.start..v.limit], s.scan).ReadValue(0))
  }

  predicate Disjoint(v: Value, w: Value) {
    v.limit <= w.start || w.limit <= v.start
  }

  /** The entries lie between `lo` and `hi`, apart from each other, and are well spanned. */
  ghost predicate Collected(s: Source, es: seq<Entry>, lo: nat, hi: nat)
    decreases HeightOfEntries(es), 1
  {
    && Ascending(es)
    && (forall e | e in es :: lo < e.value.start && e.value.limit <= hi && (HeightOfMember(es, e); WellSpanned(s, e.value)))
    && (forall e, f | e in es && f in es && e != f :: Disjoint(e.value, f.value))
  }

  ghost predicate WellSpanned(s: Source, v: Value)
    decreases Height(v), 0
  {
    && v.start < v.limit
    && Reparses(s, v)
    && match v.data
       case Arr(es) => Collected(s, es, v.start, v.limit - 1)
       case Obj(es) => Collected(s, es, v.start, v.limit - 1)
       case _ => true
  }

  lemma CollectedPut(s: Source, es: seq<Entry>, key: Key, v: Value, lo: nat, mid: nat, hi: nat)
    requires Collected(s, es, lo, mid) && lo <= mid <= v.start && v.limit <= hi && lo < v.start && WellSpanned(s, v)
    ensures Collected(s, Put(es, key, v), lo, hi)
  {
    hide Reparses, Put;
    PutIsMapUpdate(es, key, v);
    assert v.start < v.limit;
  }

  lemma CollectedWider(s: Source, es: seq<Entry>, lo: nat, mid: nat, hi: nat)
    requires Collected(s, es, lo, mid) && mid <= hi
    ensures Collected(s, es, lo, hi)
  {
    hide Reparses;
  }

  /** A read depends only on where its first token starts. */
  lemma ReadFromStart(s: Source, p: nat)
    requires p <= |s.text| && s.ReadValue(p).Ok?
    ensures s.ReadValue(NextToken(s.text, p).start) == s.ReadValue(p)
  {
    hide TokenAt, Source.ReadMembers, Source.ReadArray, DecodeNumber, DecodeString;
    var t := NextToken(s.text, p);
    TokenStartsItself(s.text, t.start);
    assert NextToken(s.text, t.start) == t;
  }

  lemma TokenStartsItself(s: string, p: nat)
    requires p <= |s| && TokenAt(s, p).kind != ErrorToken && TokenAt(s, p).kind != EndOfStream
    ensures SkipSpaces(s, p) == p
  {
    hide ScanString, ScanComment, ScanNumber, ScanWord;
  }

  /** From the outcome of a read to the outcome of reading its own bytes. */
  lemma SpanReparses(s: Source, p: nat, v: Value)
    requires p <= |s.text| && s.ReadValue(p) == Ok(v, v.limit) && v.start == NextToken(s.text, p).start
    ensures v.start < v.limit && Reparses(s, v)
  {
    hide NextToken, Source.ReadValue, Same;
    ReadFromStart(s, p);
    assert v.start < v.limit <= |s.text|;
    var w := s.text[v.start..v.limit];
    assert Occurs(s.text, v.start, w);
    ValueInWindow(s, Source(w, s.scan), v.start, 0);
  }

  // ----- every read yields a well-spanned tree -----

  /** After any successful read, at any position of any document. */
  lemma {:induction false} ReadIsWellSpanned(s: Source, p: nat)
    requires p <= |s.text| && s.ReadValue(p).Ok?
    ensures var Ok(v, q) := s.ReadValue(p);
            WellSpanned(s, v) && p <= v.start && v.limit == q
    decreases |s.text| - p, 1
  {
    hide NextToken, Reparses, DecodeNumber, DecodeString, Source.ReadMembers, Source.ReadArray;
    var t := NextToken(s.text, p);
    var Ok(v, q) := s.ReadValue(p);
    if t.kind == ObjectBegin {
      NothingCollected(s, t.start, t.end);
      MembersWellSpanned(s, t.end, [], "", t.start);
    } else if t.kind == ArrayBegin {
      ArrayWellSpanned(s, t.end, t.start);
    }
    SpanReparses(s, p, v);
  }

  lemma NothingCollected(s: Source, lo: nat, hi: nat)
    ensures Collected(s, [], lo, hi)
  {
  }

  /** The container part of being well spanned. */
  ghost predicate Holds(s: Source, r: Outcome, start: nat) {
    && r.Ok? && r.value.start == start && r.value.limit == r.pos > 0
    && match r.value.data
       case Arr(es) => Collected(s, es, start, r.pos - 1)
       case Obj(es) => Collected(s, es, start, r.pos - 1)
       case _ => false
  }

  lemma {:induction false} MembersWellSpanned(s: Source, p: nat, es: seq<Entry>, last: string, start: nat)
    requires start < p <= |s.text| && s.ReadMembers(p, es, last, start).Ok? && Collected(s, es, start, p)
    ensures Holds(s, s.ReadMembers(p, es, last, start), start)
    decreases |s.text| - p, 2
  {
    hide NextToken, ReadToken, DecodeString, Put, CStr, Source.ReadValue, Source.AfterMember, Collected, WellSpanned;
    var t := NextToken(s.text, p);
    if t.kind == ObjectEnd && last == "" {
      CollectedWider(s, es, start, p, t.end - 1);
    } else {
      var name := DecodeString(s.text, t).text;
      var colon := ReadToken(s.text, t.end);
      ReadIsWellSpanned(s, colon.end);
      var Ok(v, q) := s.ReadValue(colon.end);
      CollectedPut(s, es, Name(CStr(name)), v, start, p, q);
      AfterMemberWellSpanned(s, q, Put(es, Name(CStr(name)), v), name, start);
    }
  }

  lemma {:induction false} AfterMemberWellSpanned(s: Source, p: nat, es: seq<Entry>, last: string, start: nat)
    requires start < p <= |s.text| && s.AfterMember(p, es, last, start).Ok? && Collected(s, es, start, p)
    ensures Holds(s, s.AfterMember(p, es, last, start), start)
    decreases |s.text| - p, 2
  {
    hide NextToken, ReadToken, Source.ReadMembers, Collected;
    CommaConsumed(s.text, p);
    var t := NextToken(s.text, p);
    if t.kind == ObjectEnd {
      CollectedWider(s, es, start, p, t.end - 1);
    } else {
      CollectedWider(s, es, start, p, t.end);
      MembersWellSpanned(s, t.end, es, last, start);
    }
  }

  lemma {:induction false} ArrayWellSpanned(s: Source, p: nat, start: nat)
    requires start < p <= |s.text| && s.ReadArray(p, start).Ok?
    ensures Holds(s, s.ReadArray(p, start), start)
    decreases |s.text| - p, 3
  {
    hide ReadToken, SkipSpaces, Source.ReadItems, Collected;
    ArrayConsumes(s, p, start);
    var q := SkipSpaces(s.text, p);
    if CharAt(s.text, q) == ']' {
      NothingCollected(s, start, ReadToken(s.text, q).end - 1);
    } else {
      NothingCollected(s, start, q);
      ItemsWellSpanned(s, q, [], 0, start);
    }
  }

  lemma {:induction false} ItemsWellSpanned(s: Source, p: nat, es: seq<Entry>, index: nat, start: nat)
    requires start < p <= |s.text| && s.ReadItems(p, es, index, start).Ok? && Collected(s, es, start, p)
    ensures Holds(s, s.ReadItems(p, es, index, start), start)
    decreases |s.text| - p, 2
  {
    hide NextToken, Put, Source.ReadValue, Collected, WellSpanned;
    ReadIsWellSpanned(s, p);
    var Ok(v, q) := s.ReadValue(p);
    var t := NextToken(s.text, q);
    CollectedPut(s, es, Index(index), v, start, p, q);
    var es' := Put(es, Index(index), v);
    if t.kind == ArrayEnd {
      CollectedWider(s, es', start, q, t.end - 1);
    } else {
      CollectedWider(s, es', start, q, t.end);
      ItemsWellSpanned(s, t.end, es', index + 1, start);
    }
  }
}
