/**
 `Value::operator<`, `operator==` and `compare`.  On trees without reals the order is strict
 and total, and the equality it induces is `operator==`, which holds exactly when the two
 trees agree up to their spans.
 */
module JsonOrder {
  import opened JsonValue

  function TypeRank(d: Data): nat {
    match d
    case Null => 0
    case Int(_) => 1
    case UInt(_) => 2
    case Real(_) => 3
    case Str(_) => 4
    case Bool(_) => 5
    case Arr(_) => 6
    case Obj(_) => 7
  }

  /** `operator<` */
  predicate Less(v: Value, w: Value)
    decreases Height(v) + Height(w), 0
  {
    if TypeRank(v.data) != TypeRank(w.data) then TypeRank(v.data) < TypeRank(w.data)
    else
      match v.data
      case Null => false
      case Int(i) => i < w.data.i
      case UInt(u) => u < w.data.u
      case Real(r) => r < w.data.r
      case Str(t) => w.data.text.Some? && (t.None? || TextLess(t.value, w.data.text.value))
      case Bool(b) => !b && w.data.b
      case Arr(es) => MapLess(es, w.data.entries)
      case Obj(es) => MapLess(es, w.data.entries)
  }

  /** First by number of entries, then by the lexicographic order of `std::map`. */
  predicate MapLess(es: seq<Entry>, fs: seq<Entry>)
    decreases HeightOfEntries(es) + HeightOfEntries(fs), |es| + 2
  {
    if |es| != |fs| then |es| < |fs| else Lexicographic(es, fs)
  }

  predicate Lexicographic(es: seq<Entry>, fs: seq<Entry>)
    decreases HeightOfEntries(es) + HeightOfEntries(fs), |es| + 1
  {
    if es == [] || fs == [] then es == [] && fs != []
    else
      HeightOfMember(es, es[0]);
      HeightOfMember(fs, fs[0]);
      || KeyLess(es[0].key, fs[0].key)
      || (!KeyLess(fs[0].key, es[0].key) && Less(es[0].value, fs[0].value))
      || (!KeyLess(fs[0].key, es[0].key) && !KeyLess(es[0].key, fs[0].key)
          && !Less(fs[0].value, es[0].value) && Lexicographic(es[1..], fs[1..]))
  }

  /** `operator==` */
  predicate Equal(v: Value, w: Value)
    decreases Height(v) + Height(w), 0
  {
    TypeRank(v.data) == TypeRank(w.data) &&
    match v.data
    case Null => true
    case Int(i) => i == w.data.i
    case UInt(u) => u == w.data.u
    case Real(r) => r == w.data.r
    case Str(t) => t == w.data.text
    case Bool(b) => b == w.data.b
    case Arr(es) => MapEqual(es, w.data.entries)
    case Obj(es) => MapEqual(es, w.data.entries)
  }

  predicate MapEqual(es: seq<Entry>, fs: seq<Entry>)
    decreases HeightOfEntries(es) + HeightOfEntries(fs), |es| + 1
  {
    if es == [] || fs == [] then es == [] && fs == []
    else
      HeightOfMember(es, es[0]);
      HeightOfMember(fs, fs[0]);
      es[0].key == fs[0].key && Equal(es[0].value, fs[0].value) && MapEqual(es[1..], fs[1..])
  }

  /** `compare` */
  function Compare(v: Value, w: Value): int {
    if Less(v, w) then -1 else if Less(w, v) then 1 else 0
  }

  predicate RealFree(v: Value)
    decreases Height(v)
  {
    match v.data
    case Real(_) => false
    case Arr(es) => forall e | e in es :: (HeightOfMember(es, e); RealFree(e.value))
    case Obj(es) => forall e | e in es :: (HeightOfMember(es, e); RealFree(e.value))
    case _ => true
  }

  ghost predicate RealFreeEntries(es: seq<Entry>) {
    forall e | e in es :: RealFree(e.value)
  }

  // ----- equality -----

  /** `operator==` is equality of trees up to spans. */
  lemma {:induction false} EqualIsSameTree(v: Value, w: Value)
    ensures Equal(v, w) <==> Plain(v) == Plain(w)
    decreases Height(v) + Height(w), 0
  {
    if v.data.Arr? && w.data.Arr? {
      MapEqualIsSameEntries(v.data.entries, w.data.entries);
    } else if v.data.Obj? && w.data.Obj? {
      MapEqualIsSameEntries(v.data.entries, w.data.entries);
    }
  }

  lemma {:induction false} MapEqualIsSameEntries(es: seq<Entry>, fs: seq<Entry>)
    ensures MapEqual(es, fs) <==> PlainEntries(es) == PlainEntries(fs)
    decreases HeightOfEntries(es) + HeightOfEntries(fs), |es| + 1
  {
    hide Plain, Equal;
    if es != [] && fs != [] {
      HeightOfMember(es, es[0]);
      HeightOfMember(fs, fs[0]);
      EqualIsSameTree(es[0].value, fs[0].value);
      MapEqualIsSameEntries(es[1..], fs[1..]);
      assert PlainEntries(es)[0] == Entry(es[0].key, Plain(es[0].value));
      assert PlainEntries(fs)[0] == Entry(fs[0].key, Plain(fs[0].value));
      assert PlainEntries(es)[1..] == PlainEntries(es[1..]);
      assert PlainEntries(fs)[1..] == PlainEntries(fs[1..]);
      assert PlainEntries(es) == [PlainEntries(es)[0]] + PlainEntries(es)[1..];
      assert PlainEntries(fs) == [PlainEntries(fs)[0]] + PlainEntries(fs)[1..];
    }
  }

  // ----- trichotomy -----

  predicate ExactlyOne(a: bool, b: bool, c: bool) {
    (a && !b && !c) || (!a && b && !c) || (!a && !b && c)
  }

  lemma {:induction false} Trichotomy(v: Value, w: Value)
    requires RealFree(v) && RealFree(w)
    ensures ExactlyOne(Less(v, w), Equal(v, w), Less(w, v))
    decreases Height(v) + Height(w), 0
  {
    if v.data.Str? && w.data.Str? && v.data.text.Some? && w.data.text.Some? {
      TextLessIsStrictTotalOrder(v.data.text.value, w.data.text.value, v.data.text.value);
    } else if v.data.Arr? && w.data.Arr? {
      MapTrichotomy(v.data.entries, w.data.entries);
    } else if v.data.Obj? && w.data.Obj? {
      MapTrichotomy(v.data.entries, w.data.entries);
    }
  }

  lemma {:induction false} MapTrichotomy(es: seq<Entry>, fs: seq<Entry>)
    requires RealFreeEntries(es) && RealFreeEntries(fs)
    ensures ExactlyOne(MapLess(es, fs), MapEqual(es, fs), MapLess(fs, es))
    decreases HeightOfEntries(es) + HeightOfEntries(fs), |es| + 2
  {
    hide Lexicographic, MapEqual;
    if |es| == |fs| {
      LexicographicTrichotomy(es, fs);
    } else {
      MapEqualLength(es, fs);
    }
  }

  lemma {:induction false} MapEqualLength(es: seq<Entry>, fs: seq<Entry>)
    ensures MapEqual(es, fs) ==> |es| == |fs|
  {
    if es != [] && fs != [] {
      MapEqualLength(es[1..], fs[1..]);
    }
  }

  lemma {:induction false} LexicographicTrichotomy(es: seq<Entry>, fs: seq<Entry>)
    requires |es| == |fs| && RealFreeEntries(es) && RealFreeEntries(fs)
    ensures ExactlyOne(Lexicographic(es, fs), MapEqual(es, fs), Lexicographic(fs, es))
    decreases HeightOfEntries(es) + HeightOfEntries(fs), |es| + 1
  {
    hide Less, Equal, KeyLess;
    if es != [] {
      var e, f := es[0], fs[0];
      HeightOfMember(es, e);
      HeightOfMember(fs, f);
      Trichotomy(e.value, f.value);
      KeyLessIsStrictTotalOrder(e.key, f.key, e.key);
      LexicographicTrichotomy(es[1..], fs[1..]);
    }
  }

  // ----- transitivity -----

  lemma {:induction false} Transitive(u: Value, v: Value, w: Value)
    requires RealFree(u) && RealFree(v) && RealFree(w) && Less(u, v) && Less(v, w)
    ensures Less(u, w)
    decreases Height(u) + Height(v) + Height(w), 0
  {
    if u.data.Str? && v.data.Str? && w.data.Str? {
      if u.data.text.Some? && v.data.text.Some? {
        TextLessIsStrictTotalOrder(u.data.text.value, v.data.text.value, w.data.text.value);
      }
    } else if u.data.Arr? && v.data.Arr? && w.data.Arr? {
      MapTransitive(u.data.entries, v.data.entries, w.data.entries);
    } else if u.data.Obj? && v.data.Obj? && w.data.Obj? {
      MapTransitive(u.data.entries, v.data.entries, w.data.entries);
    }
  }

  lemma {:induction false} MapTransitive(es: seq<Entry>, fs: seq<Entry>, gs: seq<Entry>)
    requires RealFreeEntries(es) && RealFreeEntries(fs) && RealFreeEntries(gs) && MapLess(es, fs) && MapLess(fs, gs)
    ensures MapLess(es, gs)
    decreases HeightOfEntries(es) + HeightOfEntries(fs) + HeightOfEntries(gs), |es| + 2
  {
    hide Lexicographic;
    if |es| == |fs| == |gs| {
      LexicographicTransitive(es, fs, gs);
    }
  }

  lemma {:induction false} LexicographicTransitive(es: seq<Entry>, fs: seq<Entry>, gs: seq<Entry>)
    requires RealFreeEntries(es) && RealFreeEntries(fs) && RealFreeEntries(gs)
    requires |es| == |fs| == |gs| && Lexicographic(es, fs) && Lexicographic(fs, gs)
    ensures Lexicographic(es, gs)
    decreases HeightOfEntries(es) + HeightOfEntries(fs) + HeightOfEntries(gs), |es| + 1
  {
    hide Less, Equal, KeyLess;
    var e, f, g := es[0], fs[0], gs[0];
    HeightOfMember(es, e);
    HeightOfMember(fs, f);
    HeightOfMember(gs, g);
    KeyLessIsStrictTotalOrder(e.key, f.key, g.key);
    KeyLessIsStrictTotalOrder(f.key, g.key, e.key);
    KeyLessIsStrictTotalOrder(g.key, e.key, f.key);
    Trichotomy(e.value, f.value);
    Trichotomy(f.value, g.value);
    if e.key == f.key == g.key {
      ValuesTransitive(e.value, f.value, g.value);
      if !Less(e.value, f.value) && !Less(f.value, g.value) {
        LexicographicTransitive(es[1..], fs[1..], gs[1..]);
      }
    }
  }

  /** Transitivity of "not greater" on the values of the first entries. */
  lemma {:induction false} ValuesTransitive(u: Value, v: Value, w: Value)
    requires RealFree(u) && RealFree(v) && RealFree(w)
    requires !Less(v, u) && !Less(w, v)
    ensures !Less(w, u) && (Less(u, v) || Less(v, w) ==> Less(u, w))
    decreases Height(u) + Height(v) + Height(w), 1
  {
    hide Less, Equal;
    Trichotomy(u, v);
    Trichotomy(v, w);
    Trichotomy(u, w);
    if Less(u, v) && Less(v, w) {
      Transitive(u, v, w);
    } else if Equal(u, v) {
      EqualValuesCompareAlike(u, v, w);
    } else {
      EqualValuesCompareAlike(v, w, u);
    }
  }

  /** The order does not look at spans, so equal values compare alike with any third. */
  lemma {:induction false} EqualValuesCompareAlike(u: Value, v: Value, w: Value)
    requires Equal(u, v)
    ensures Less(u, w) == Less(v, w) && Less(w, u) == Less(w, v)
  {
    hide Less, Equal;
    EqualIsSameTree(u, v);
    LessIgnoresSpans(u, w);
    LessIgnoresSpans(v, w);
    LessIgnoresSpans(w, u);
    LessIgnoresSpans(w, v);
  }

  lemma {:induction false} LessIgnoresSpans(v: Value, w: Value)
    ensures Less(v, w) == Less(Plain(v), Plain(w))
    decreases Height(v) + Height(w), 0
  {
    if v.data.Arr? && w.data.Arr? {
      LexicographicIgnoresSpans(v.data.entries, w.data.entries);
    } else if v.data.Obj? && w.data.Obj? {
      LexicographicIgnoresSpans(v.data.entries, w.data.entries);
    }
  }

  lemma {:induction false} LexicographicIgnoresSpans(es: seq<Entry>, fs: seq<Entry>)
    ensures Lexicographic(es, fs) == Lexicographic(PlainEntries(es), PlainEntries(fs))
    decreases HeightOfEntries(es) + HeightOfEntries(fs), |es| + 1
  {
    hide Less, Plain, KeyLess;
    if es != [] && fs != [] {
      HeightOfMember(es, es[0]);
      HeightOfMember(fs, fs[0]);
      LessIgnoresSpans(es[0].value, fs[0].value);
      LessIgnoresSpans(fs[0].value, es[0].value);
      LexicographicIgnoresSpans(es[1..], fs[1..]);
      assert PlainEntries(es)[1..] == PlainEntries(es[1..]);
      assert PlainEntries(fs)[1..] == PlainEntries(fs[1..]);
    }
  }

  /** `operator<` is a strict total order and `compare` is zero exactly on equal values. */
  lemma OrderIsStrictAndTotal(u: Value, v: Value, w: Value)
    requires RealFree(u) && RealFree(v) && RealFree(w)
    ensures !Less(u, u)
    ensures Less(u, v) && Less(v, w) ==> Less(u, w)
    ensures ExactlyOne(Less(u, v), Equal(u, v), Less(v, u))
    ensures Compare(u, v) == 0 <==> Equal(u, v)
    ensures Compare(u, v) == -Compare(v, u)
    ensures Equal(u, v) <==> Plain(u) == Plain(v)
  {
    hide Less, Equal, RealFree, Plain;
    Trichotomy(u, v);
    Trichotomy(u, u);
    if Less(u, v) && Less(v, w) {
      Transitive(u, v, w);
    }
    EqualIsSameTree(u, v);
  }
}
