/**
 What reading back a written value keeps, said without the functions the writers use: every
 entry stands under its own key, every hole of an array is null, and the tree is unchanged
 exactly if it has no holes and every integer has the tag the reader gives it.
 */
module JsonFaithful {
  import opened JsonValue
  import opened JsonRoundTrip

  predicate Holds(es: seq<Entry>, key: Key) {
    exists k :: 0 <= k < |es| && es[k].key == key
  }

  /** `w` is `v` with holes of arrays filled and integers tagged by their size. */
  ghost predicate Alike(v: Value, w: Value)
    decreases Height(v), 1
  {
    match v.data
    case Int(i) => w.data == if i <= 2147483647 then Int(i) else UInt(i)
    case UInt(u) => w.data == if u <= 2147483647 then Int(u) else UInt(u)
    case Arr(es) =>
      && w.data.Arr?
      && var fs := w.data.entries;
         && (forall k :: 0 <= k < |fs| ==> fs[k].key == Index(k))
         && (|fs| > 0 ==> Holds(es, Index(|fs| - 1)))
         && (forall k :: 0 <= k < |fs| && !Holds(es, Index(k)) ==> fs[k].value.data == Null)
         && (forall k :: 0 <= k < |es| ==> es[k].key.Index? && es[k].key.i < |fs| && AlikeMember(v, k, fs[es[k].key.i].value))
    case Obj(es) =>
      && w.data.Obj?
      && var fs := w.data.entries;
         |fs| == |es| && forall k :: 0 <= k < |es| ==> fs[k].key == es[k].key && AlikeMember(v, k, fs[k].value)
    case d => w.data == d
  }

  ghost predicate AlikeMember(v: Value, k: nat, w: Value)
    requires (v.data.Arr? || v.data.Obj?) && k < |v.data.entries|
    decreases Height(v), 0
  {
    HeightOfMember(v.data.entries, v.data.entries[k]);
    Alike(v.data.entries[k].value, w)
  }

  // ----- arrays -----

  lemma OwnKey(es: seq<Entry>, k: nat)
    requires Ascending(es) && k < |es|
    ensures forall j :: 0 <= j < k ==> es[j].key != es[k].key
  {
    forall j | 0 <= j < k ensures es[j].key != es[k].key {
      KeyLessIsStrictTotalOrder(es[j].key, es[k].key, es[k].key);
    }
  }

  /** Each entry of an array is what its index yields. */
  lemma ElementAt(v: Value, k: nat)
    requires Writable(v) && v.data.Arr? && k < |v.data.entries|
    ensures var e := v.data.entries[k];
            && e.key.Index? && Writable(e.value) && Height(e.value) < Height(v) && At(v.data.entries, e.key.i) == e.value
  {
    var es := v.data.entries;
    assert es[k] in es;
    HeightOfMember(es, es[k]);
    OwnKey(es, k);
    FindAt(es, k);
  }

  lemma HoleAt(es: seq<Entry>, i: nat)
    requires !Holds(es, Index(i))
    ensures At(es, i) == NULL_VALUE
  {
  }

  /** An array has as many elements as its last index says. */
  lemma SizeIs(v: Value)
    requires Writable(v) && v.data.Arr?
    ensures var es := v.data.entries;
            && (Size(es) > 0 ==> Holds(es, Index(Size(es) - 1)))
            && forall k :: 0 <= k < |es| ==> es[k].key.Index? && es[k].key.i < Size(es)
  {
    var es := v.data.entries;
    forall k | 0 <= k < |es| ensures es[k].key.Index? && es[k].key.i < Size(es) {
      assert es[k] in es && es[|es| - 1] in es;
      assert k < |es| - 1 ==> KeyLess(es[k].key, es[|es| - 1].key);
    }
    if es != [] {
      assert es[|es| - 1].key == Index(Size(es) - 1);
    }
  }

  lemma {:induction false} ArrayAlike(v: Value)
    requires Writable(v) && v.data.Arr?
    ensures Alike(v, ReadBack(v))
    decreases Height(v), 0
  {
    var es := v.data.entries;
    var fs := ReadBackItems(v, Size(es));
    SizeIs(v);
    forall k | 0 <= k < |fs| && !Holds(es, Index(k)) ensures fs[k].value.data == Null {
      ItemReadBack(v, |fs|, k);
      HoleAt(es, k);
    }
    forall k | 0 <= k < |es| ensures AlikeMember(v, k, fs[es[k].key.i].value) {
      ElementAt(v, k);
      ItemReadBack(v, |fs|, es[k].key.i);
      ReadBackIsAlike(es[k].value);
    }
  }

  lemma {:induction false} ObjectAlike(v: Value)
    requires Writable(v) && v.data.Obj?
    ensures Alike(v, ReadBack(v))
    decreases Height(v), 0
  {
    var es := v.data.entries;
    forall k | 0 <= k < |es|
      ensures ReadBackMembers(v, |es|)[k].key == es[k].key && AlikeMember(v, k, ReadBackMembers(v, |es|)[k].value)
    {
      WritableMember(v, k);
      MemberReadBack(v, |es|, k);
      ReadBackIsAlike(es[k].value);
    }
  }

  /** Reading back loses no entry, moves none and invents nothing but null in the holes. */
  lemma {:induction false} ReadBackIsAlike(v: Value)
    requires Writable(v)
    ensures Alike(v, ReadBack(v))
    decreases Height(v), 1
  {
    match v.data
    case Arr(_) => ArrayAlike(v);
    case Obj(_) => ObjectAlike(v);
    case _ =>
  }

  // ----- when nothing changes -----

  /** No array has a hole, and every integer has the tag the reader gives it. */
  predicate Canonical(v: Value)
    decreases Height(v)
  {
    match v.data
    case Int(i) => i <= 2147483647
    case UInt(u) => u > 2147483647
    case Arr(es) => forall k | 0 <= k < |es| :: es[k].key == Index(k) && (HeightOfMember(es, es[k]); Canonical(es[k].value))
    case Obj(es) => forall k | 0 <= k < |es| :: HeightOfMember(es, es[k]); Canonical(es[k].value)
    case _ => true
  }

  lemma {:induction false} ArrayUnchangedIff(v: Value)
    requires Writable(v) && v.data.Arr?
    ensures ReadBack(v) == Plain(v) <==> Canonical(v)
    decreases Height(v), 0
  {
    var es := v.data.entries;
    var fs, gs := ReadBackItems(v, Size(es)), PlainEntries(es);
    SizeIs(v);
    forall k | 0 <= k < |es| && es[k].key == Index(k) && k < |fs|
      ensures gs[k].key == Index(k) && (fs[k] == gs[k] <==> Canonical(es[k].value))
    {
      ElementAt(v, k);
      ItemReadBack(v, |fs|, k);
      PlainEntryAt(es, k);
      UnchangedIff(es[k].value);
    }
    forall k | 0 <= k < |es| ensures gs[k].key == es[k].key {
      PlainEntryAt(es, k);
    }
    if Canonical(v) {
      assert fs == gs;
    } else if fs == gs {
      forall k | 0 <= k < |es| ensures es[k].key == Index(k) {
        assert fs[k].key == gs[k].key;
      }
    }
  }

  lemma {:induction false} ObjectUnchangedIff(v: Value)
    requires Writable(v) && v.data.Obj?
    ensures ReadBack(v) == Plain(v) <==> Canonical(v)
    decreases Height(v), 0
  {
    var es := v.data.entries;
    var fs, gs := ReadBackMembers(v, |es|), PlainEntries(es);
    forall k | 0 <= k < |es| ensures fs[k] == gs[k] <==> Canonical(es[k].value) {
      WritableMember(v, k);
      MemberReadBack(v, |es|, k);
      PlainEntryAt(es, k);
      UnchangedIff(es[k].value);
    }
    if Canonical(v) {
      assert fs == gs;
    }
  }

  /** The round trip is the identity exactly on canonical trees. */
  lemma {:induction false} UnchangedIff(v: Value)
    requires Writable(v)
    ensures ReadBack(v) == Plain(v) <==> Canonical(v)
    decreases Height(v), 1
  {
    match v.data
    case Arr(_) => ArrayUnchangedIff(v);
    case Obj(_) => ObjectUnchangedIff(v);
    case _ =>
  }
}
