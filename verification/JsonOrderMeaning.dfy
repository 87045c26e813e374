/**
 Which order `Value::operator<` is.  `Before` describes it without recursion over positions: by
 type, then by number, truth value or text, and for containers by size and then by the first
 entry that differs.  On trees without reals `Less` is that order.
 */
module JsonOrderMeaning {
  import opened JsonValue
  import opened JsonOrder

  /** The place of a type in the `ValueType` enumeration. */
  predicate HasRank(d: Data, rank: nat) {
    && (d.Null? <==> rank == 0) && (d.Int? <==> rank == 1) && (d.UInt? <==> rank == 2) && (d.Real? <==> rank == 3)
    && (d.Str? <==> rank == 4) && (d.Bool? <==> rank == 5) && (d.Arr? <==> rank == 6) && (d.Obj? <==> rank == 7)
  }

  /** `b` goes on where `a` ends, or has the greater byte where they first differ. */
  ghost predicate TextBefore(a: string, b: string) {
    exists k: nat :: TextBeforeAt(a, b, k)
  }

  predicate TextBeforeAt(a: string, b: string, k: nat) {
    k <= |a| && k < |b| && a[..k] == b[..k] && (k == |a| || a[k] < b[k])
  }

  ghost predicate KeyBefore(a: Key, b: Key) {
    || (a.Index? && b.Index? && a.i < b.i)
    || (a.Name? && b.Name? && TextBefore(a.s, b.s))
    || (a.Index? && b.Name?)
  }

  ghost predicate Before(v: Value, w: Value)
    decreases Height(v) + Height(w), 0
  {
    || (exists j, k :: j < k && HasRank(v.data, j) && HasRank(w.data, k))
    || (v.data.Int? && w.data.Int? && v.data.i < w.data.i)
    || (v.data.UInt? && w.data.UInt? && v.data.u < w.data.u)
    || (v.data.Bool? && w.data.Bool? && v.data.b == false && w.data.b == true)
    || (v.data.Str? && w.data.Str? && v.data.text.None? && w.data.text.Some?)
    || (v.data.Str? && w.data.Str? && v.data.text.Some? && w.data.text.Some? && TextBefore(v.data.text.value, w.data.text.value))
    || (v.data.Arr? && w.data.Arr? && EntriesBefore(v.data.entries, w.data.entries))
    || (v.data.Obj? && w.data.Obj? && EntriesBefore(v.data.entries, w.data.entries))
  }

  ghost predicate EntriesBefore(es: seq<Entry>, fs: seq<Entry>)
    decreases HeightOfEntries(es) + HeightOfEntries(fs), 2
  {
    || |es| < |fs|
    || (&& |es| == |fs|
        && exists k :: && 0 <= k < |es| && (forall j :: 0 <= j < k ==> SameEntry(es[j], fs[j]))
                       && (|| KeyBefore(es[k].key, fs[k].key)
                           || (es[k].key == fs[k].key && (HeightOfMember(es, es[k]); HeightOfMember(fs, fs[k]); Before(es[k].value, fs[k].value)))))
  }

  /** The entries before number `k` are equal, and there the first sequence has the smaller one. */
  ghost predicate DifferAt(es: seq<Entry>, fs: seq<Entry>, k: nat) {
    && k < |es| && k < |fs| && (forall j :: 0 <= j < k ==> SameEntry(es[j], fs[j]))
    && (KeyBefore(es[k].key, fs[k].key) || (es[k].key == fs[k].key && Before(es[k].value, fs[k].value)))
  }

  predicate SameEntry(e: Entry, f: Entry) {
    e.key == f.key && Plain(e.value) == Plain(f.value)
  }

  // ----- texts and keys -----

  /** `strcmp` decides at the first byte that differs. */
  lemma {:induction false} TextLessIsBefore(a: string, b: string)
    ensures TextLess(a, b) <==> TextBefore(a, b)
  {
    if b != [] && a != [] {
      TextLessIsBefore(a[1..], b[1..]);
      if a[0] == b[0] && TextLess(a[1..], b[1..]) {
        var k: nat :| TextBeforeAt(a[1..], b[1..], k);
        Longer(a, b, k);
      }
      if TextBefore(a, b) {
        var k: nat :| TextBeforeAt(a, b, k);
        if k > 0 {
          assert a[..k][0] == b[..k][0];
          Longer(a, b, k - 1);
        }
      }
      if a[0] < b[0] {
        assert TextBeforeAt(a, b, 0);
      }
    } else if b != [] {
      assert TextBeforeAt(a, b, 0);
    }
  }

  lemma Longer(a: string, b: string, k: nat)
    requires a != [] && b != [] && a[0] == b[0]
    ensures TextBeforeAt(a[1..], b[1..], k) <==> TextBeforeAt(a, b, k + 1)
  {
    if k + 1 <= |a| && k + 1 < |b| {
      assert a[..k + 1] == [a[0]] + a[1..][..k] && b[..k + 1] == [b[0]] + b[1..][..k];
      if a[..k + 1] == b[..k + 1] {
        assert a[1..][..k] == a[..k + 1][1..] && b[1..][..k] == b[..k + 1][1..];
      }
    }
  }

  lemma KeyLessIsBefore(a: Key, b: Key)
    ensures KeyLess(a, b) <==> KeyBefore(a, b)
  {
    hide TextLess, TextBefore;
    if a.Name? && b.Name? {
      TextLessIsBefore(a.s, b.s);
    }
  }

  // ----- values -----

  lemma RankIs(d: Data)
    ensures HasRank(d, TypeRank(d)) && forall k: nat :: HasRank(d, k) ==> k == TypeRank(d)
  {
  }

  /** `operator<` on trees without reals. */
  lemma {:induction false} LessIsBefore(v: Value, w: Value)
    requires RealFree(v) && RealFree(w)
    ensures Less(v, w) <==> Before(v, w)
    ensures Compare(v, w) == if Before(v, w) then -1 else if Before(w, v) then 1 else 0
  {
    hide Less, Before;
    LessIff(v, w);
    LessIff(w, v);
  }

  lemma {:induction false} LessIff(v: Value, w: Value)
    requires RealFree(v) && RealFree(w)
    ensures Less(v, w) <==> Before(v, w)
    decreases Height(v) + Height(w), 1
  {
    RankIs(v.data);
    RankIs(w.data);
    hide HasRank, TypeRank, TextLess, TextBefore, MapLess, EntriesBefore;
    if v.data.Str? && w.data.Str? && v.data.text.Some? && w.data.text.Some? {
      TextLessIsBefore(v.data.text.value, w.data.text.value);
    } else if v.data.Arr? && w.data.Arr? {
      EntriesIff(v.data.entries, w.data.entries);
    } else if v.data.Obj? && w.data.Obj? {
      EntriesIff(v.data.entries, w.data.entries);
    }
  }

  lemma EntriesUnfold(es: seq<Entry>, fs: seq<Entry>)
    ensures EntriesBefore(es, fs) <==> |es| < |fs| || (|es| == |fs| && exists k :: 0 <= k < |es| && DifferAt(es, fs, k))
  {
    hide KeyBefore, SameEntry, Plain;
    if EntriesBefore(es, fs) && |es| == |fs| {
      var k :| && 0 <= k < |es| && (forall j :: 0 <= j < k ==> SameEntry(es[j], fs[j]))
               && (KeyBefore(es[k].key, fs[k].key) || (es[k].key == fs[k].key && Before(es[k].value, fs[k].value)));
      assert DifferAt(es, fs, k);
    }
  }

  lemma {:induction false} EntriesIff(es: seq<Entry>, fs: seq<Entry>)
    requires RealFreeEntries(es) && RealFreeEntries(fs)
    ensures MapLess(es, fs) <==> EntriesBefore(es, fs)
    decreases HeightOfEntries(es) + HeightOfEntries(fs), 3, |es| + 1
  {
    hide Lexicographic, EntriesBefore, DifferAt;
    EntriesUnfold(es, fs);
    if |es| == |fs| {
      FirstDifference(es, fs);
    }
  }

  lemma {:induction false} FirstDifference(es: seq<Entry>, fs: seq<Entry>)
    requires |es| == |fs| && RealFreeEntries(es) && RealFreeEntries(fs)
    ensures Lexicographic(es, fs) <==> exists k :: 0 <= k < |es| && DifferAt(es, fs, k)
    decreases HeightOfEntries(es) + HeightOfEntries(fs), 3, |es|
  {
    hide Less, Before, KeyLess, KeyBefore, Plain, Equal;
    if es != [] {
      var e, f := es[0], fs[0];
      HeightOfMember(es, e);
      HeightOfMember(fs, f);
      LessIff(e.value, f.value);
      LessIff(f.value, e.value);
      Trichotomy(e.value, f.value);
      EqualIsSameTree(e.value, f.value);
      KeyLessIsBefore(e.key, f.key);
      KeyLessIsStrictTotalOrder(e.key, f.key, e.key);
      FirstDifference(es[1..], fs[1..]);
      assert DifferAt(es, fs, 0) <==> KeyBefore(e.key, f.key) || (e.key == f.key && Before(e.value, f.value));
      if SameEntry(e, f) {
        forall k: nat ensures DifferAt(es[1..], fs[1..], k) <==> DifferAt(es, fs, k + 1) {
          OneLater(es, fs, k);
        }
        if exists k: nat :: DifferAt(es, fs, k) {
          var k: nat :| DifferAt(es, fs, k);
          if k > 0 {
            assert DifferAt(es[1..], fs[1..], k - 1);
          }
        }
        if exists k: nat :: DifferAt(es[1..], fs[1..], k) {
          var k: nat :| DifferAt(es[1..], fs[1..], k);
          assert DifferAt(es, fs, k + 1);
        }
      } else {
        forall k: nat | DifferAt(es, fs, k) ensures k == 0 {
          assert !SameEntry(es[0], fs[0]);
        }
      }
    }
  }

  lemma OneLater(es: seq<Entry>, fs: seq<Entry>, k: nat)
    requires es != [] && fs != [] && SameEntry(es[0], fs[0])
    ensures DifferAt(es[1..], fs[1..], k) <==> DifferAt(es, fs, k + 1)
  {
    hide KeyBefore, Before, SameEntry;
    if k + 1 < |es| && k + 1 < |fs| {
      assert es[1..][k] == es[k + 1] && fs[1..][k] == fs[k + 1];
      if forall j :: 0 <= j < k ==> SameEntry(es[1..][j], fs[1..][j]) {
        forall j | 0 <= j < k + 1 ensures SameEntry(es[j], fs[j]) {
          if j > 0 {
            assert SameEntry(es[1..][j - 1], fs[1..][j - 1]);
          }
        }
      }
    }
  }
}
