/**
 The word-packed bitset of lib/util/cbitset.h refines a set of natural numbers.  Allocation is
 taken to succeed; sizes are unbounded here where the source has `size_t`.
 */
module CBitset {
  import opened BitWord

  // ----- the abstract value -----

  predicate Has(ws: seq<Word>, i: nat) {
    i / 64 < |ws| && ws[i / 64][i % 64]
  }

  /** The numbers whose bit is set. */
  function Members(ws: seq<Word>): set<nat> {
    set i: nat | 0 <= i < 64 * |ws| && Has(ws, i) :: i
  }

  lemma InMembers(ws: seq<Word>, n: nat)
    ensures n in Members(ws) <==> Has(ws, n)
  {
    assert n == 64 * (n / 64) + n % 64;
  }

  lemma MembersByBits(ws: seq<Word>, s: set<nat>)
    requires forall n: nat :: n in s <==> Has(ws, n)
    ensures Members(ws) == s
  {
    forall n: nat ensures n in Members(ws) <==> n in s {
      InMembers(ws, n);
    }
  }

  /** The word and the bit of a number that lies in word `x`. */
  lemma InWord(n: nat, x: nat)
    ensures 64 * x <= n < 64 * x + 64 <==> n / 64 == x
    ensures n / 64 == x ==> n % 64 == n - 64 * x
  {
    assert n == 64 * (n / 64) + n % 64;
  }

  function Shifted(s: seq<nat>, base: nat): (r: seq<nat>)
    ensures |r| == |s| && forall i :: 0 <= i < |s| ==> r[i] == s[i] + base
  {
    seq(|s|, i requires 0 <= i < |s| => s[i] + base)
  }

  /** The members from word `x` on, in ascending order. */
  function ListFrom(ws: seq<Word>, x: nat): seq<nat>
    requires x <= |ws|
    decreases |ws| - x
  {
    if x == |ws| then [] else Shifted(Ones(ws[x], 0), 64 * x) + ListFrom(ws, x + 1)
  }

  lemma MembersBelow(ws: seq<Word>, n: nat)
    ensures n in Members(ws) ==> n < 64 * |ws|
  {
  }

  /** The members in word `x`. */
  lemma InFirstWord(ws: seq<Word>, x: nat, n: nat)
    requires x < |ws|
    ensures n in Shifted(Ones(ws[x], 0), 64 * x) <==> n in Members(ws) && 64 * x <= n < 64 * x + 64
  {
    hide Members, Ones;
    InShiftedFrom(ws[x], 0, 64 * x, n);
    InMembers(ws, n);
    InWord(n, x);
  }

  /** The list from word `x` holds exactly the members from bit `64 * x` on, each once, ascending. */
  lemma {:induction false} ListIsAscendingMembers(ws: seq<Word>, x: nat)
    requires x <= |ws|
    ensures forall n :: n in ListFrom(ws, x) <==> n in Members(ws) && 64 * x <= n
    ensures StrictlyAscending(ListFrom(ws, x))
    decreases |ws| - x
  {
    hide Members, Ones, Has;
    if x == |ws| {
      forall n: nat | n in Members(ws) ensures n < 64 * x {
        MembersBelow(ws, n);
      }
    } else {
      ListIsAscendingMembers(ws, x + 1);
      var first, rest := Shifted(Ones(ws[x], 0), 64 * x), ListFrom(ws, x + 1);
      OnesAscend(ws[x], 0);
      assert StrictlyAscending(first) && ListFrom(ws, x) == first + rest;
      hide *;
      forall n: nat ensures n in first <==> n in Members(ws) && 64 * x <= n < 64 * x + 64 {
        InFirstWord(ws, x, n);
      }
      AscendingAppend(first, rest, 64 * x + 64);
      assert forall n :: n in first + rest <==> n in first || n in rest;
    }
  }

  function ToSet(s: seq<nat>): set<nat> {
    set n | n in s
  }

  lemma {:induction false} AscendingSize(s: seq<nat>)
    requires StrictlyAscending(s)
    ensures |ToSet(s)| == |s|
  {
    if s != [] {
      var init, last := s[..|s| - 1], s[|s| - 1];
      AscendingSize(init);
      assert forall i :: 0 <= i < |init| ==> init[i] < last;
      ToSetAppend(init, last);
      assert s == init + [last];
    }
  }

  lemma ToSetAppend(s: seq<nat>, n: nat)
    ensures ToSet(s + [n]) == ToSet(s) + {n}
  {
    assert forall m :: m in s + [n] <==> m in s || m == n;
  }

  lemma MembersSize(ws: seq<Word>)
    ensures |Members(ws)| == |ListFrom(ws, 0)|
  {
    ListIsAscendingMembers(ws, 0);
    AscendingSize(ListFrom(ws, 0));
    assert ToSet(ListFrom(ws, 0)) == Members(ws);
  }

  // ----- updates of single words -----

  lemma SameBit(n: nat, i: nat)
    ensures n / 64 == i / 64 && n % 64 == i % 64 <==> n == i
  {
    assert n == 64 * (n / 64) + n % 64 && i == 64 * (i / 64) + i % 64;
  }

  lemma SetBit(ws: seq<Word>, i: nat)
    requires i / 64 < |ws|
    ensures Members(ws[i / 64 := Or(ws[i / 64], Single(i % 64))]) == Members(ws) + {i}
  {
    hide Members;
    var vs := ws[i / 64 := Or(ws[i / 64], Single(i % 64))];
    forall n: nat ensures n in Members(ws) + {i} <==> Has(vs, n) {
      SameBit(n, i);
      InMembers(ws, n);
    }
    MembersByBits(vs, Members(ws) + {i});
  }

  lemma ClearBit(ws: seq<Word>, i: nat)
    requires i / 64 < |ws|
    ensures Members(ws[i / 64 := And(ws[i / 64], Not(Single(i % 64)))]) == Members(ws) - {i}
  {
    hide Members;
    var vs := ws[i / 64 := And(ws[i / 64], Not(Single(i % 64)))];
    forall n: nat ensures n in Members(ws) - {i} <==> Has(vs, n) {
      SameBit(n, i);
      InMembers(ws, n);
    }
    MembersByBits(vs, Members(ws) - {i});
  }

  lemma ZeroWordsAddNothing(ws: seq<Word>, vs: seq<Word>)
    requires |ws| <= |vs| && vs[..|ws|] == ws && forall i :: |ws| <= i < |vs| ==> vs[i] == ZERO
    ensures Members(vs) == Members(ws)
  {
    hide Members;
    forall n: nat ensures n in Members(ws) <==> Has(vs, n) {
      InMembers(ws, n);
      if n / 64 < |ws| {
        assert vs[..|ws|][n / 64] == vs[n / 64];
      }
    }
    MembersByBits(vs, Members(ws));
  }

  // ----- intersection -----

  function Min(a: nat, b: nat): nat {
    if a < b then a else b
  }

  function Max(a: nat, b: nat): nat {
    if a < b then b else a
  }

  function Intersected(vs: seq<Word>, ws: seq<Word>, n: nat): seq<Word>
    requires n <= |vs| && n <= |ws|
  {
    seq(n, i requires 0 <= i < n => And(vs[i], ws[i]))
  }

  lemma IntersectedMembers(vs: seq<Word>, ws: seq<Word>)
    ensures Members(Intersected(vs, ws, Min(|vs|, |ws|))) == Members(vs) * Members(ws)
  {
    hide Members;
    var both := Intersected(vs, ws, Min(|vs|, |ws|));
    forall n: nat ensures n in Members(vs) * Members(ws) <==> Has(both, n) {
      InMembers(vs, n);
      InMembers(ws, n);
    }
    MembersByBits(both, Members(vs) * Members(ws));
  }

  lemma {:induction false} ListLengthAppend(ws: seq<Word>, w: Word, x: nat)
    requires x <= |ws|
    ensures |ListFrom(ws + [w], x)| == |ListFrom(ws, x)| + |Ones(w, 0)|
    decreases |ws| - x
  {
    hide Ones, Shifted;
    if x < |ws| {
      ListLengthAppend(ws, w, x + 1);
      assert (ws + [w])[x] == ws[x];
    } else {
      assert (ws + [w])[x] == w;
      assert ListFrom(ws + [w], x + 1) == [];
    }
  }

  // ----- enumeration -----

  /** What a callback sees: the members in order, up to and including the first it refuses. */
  function Visited(list: seq<nat>, accept: nat -> bool): (seq<nat>, bool) {
    if list == [] then ([], true)
    else if !accept(list[0]) then ([list[0]], false)
    else
      var (rest, all) := Visited(list[1..], accept);
      ([list[0]] + rest, all)
  }

  /** A callback that accepts everything sees the whole list. */
  lemma {:induction false} VisitedAll(list: seq<nat>, accept: nat -> bool)
    requires forall n :: n in list ==> accept(n)
    ensures Visited(list, accept) == (list, true)
  {
    if list != [] {
      VisitedAll(list[1..], accept);
      assert list == [list[0]] + list[1..];
    }
  }

  /** What `nextSetBits` writes from `start` on: the first word is shifted, its base is not. */
  function Produced(ws: seq<Word>, start: nat): seq<nat>
    requires start / 64 < |ws|
  {
    Shifted(Ones(ShiftRight(ws[start / 64], start % 64), 0), start / 64 * 64) + ListFrom(ws, start / 64 + 1)
  }

  /** The members from `start` on, in ascending order. */
  function MembersFrom(ws: seq<Word>, start: nat): seq<nat>
    requires start / 64 < |ws|
  {
    Shifted(Ones(ws[start / 64], start % 64), start / 64 * 64) + ListFrom(ws, start / 64 + 1)
  }

  lemma InStartWord(ws: seq<Word>, start: nat, n: nat)
    requires start / 64 < |ws|
    ensures n in Shifted(Ones(ws[start / 64], start % 64), start / 64 * 64)
            <==> n in Members(ws) && start <= n < 64 * (start / 64 + 1)
  {
    hide Members, Ones;
    var x := start / 64;
    InShiftedFrom(ws[x], start % 64, x * 64, n);
    InMembers(ws, n);
    InWord(n, x);
    InWord(start, x);
  }

  lemma AscendingAppend(a: seq<nat>, b: seq<nat>, mid: nat)
    requires StrictlyAscending(a) && StrictlyAscending(b)
    requires (forall n :: n in a ==> n < mid) && (forall n :: n in b ==> mid <= n)
    ensures StrictlyAscending(a + b)
  {
    forall i, j | 0 <= i < |a| && 0 <= j < |b| ensures a[i] < b[j] {
      assert a[i] in a && b[j] in b;
    }
  }

  lemma MembersFromHolds(ws: seq<Word>, start: nat, n: nat)
    requires start / 64 < |ws|
    ensures n in MembersFrom(ws, start) <==> n in Members(ws) && start <= n
  {
    var x := start / 64;
    hide ListFrom, Members, Ones, Has;
    InStartWord(ws, start, n);
    ListIsAscendingMembers(ws, x + 1);
    assert start < 64 * (x + 1);
  }

  /** That list is what its name says. */
  lemma MembersFromIsMembers(ws: seq<Word>, start: nat)
    requires start / 64 < |ws|
    ensures forall n: nat :: n in MembersFrom(ws, start) <==> n in Members(ws) && start <= n
    ensures StrictlyAscending(MembersFrom(ws, start))
    ensures start % 64 == 0 ==> MembersFrom(ws, start) == ListFrom(ws, start / 64)
  {
    var x, off := start / 64, start % 64;
    var first := Shifted(Ones(ws[x], off), x * 64);
    hide ListFrom, Members, Ones, Has;
    OnesAscend(ws[x], off);
    forall n: nat | n in first ensures n < 64 * (x + 1) {
      InStartWord(ws, start, n);
    }
    ListIsAscendingMembers(ws, x + 1);
    AscendingAppend(first, ListFrom(ws, x + 1), 64 * (x + 1));
    UnfoldList(ws, x);
    hide Shifted, StrictlyAscending;
    forall n: nat ensures n in MembersFrom(ws, start) <==> n in Members(ws) && start <= n {
      MembersFromHolds(ws, start, n);
    }
  }

  lemma ListEnds(ws: seq<Word>)
    ensures ListFrom(ws, |ws|) == []
  {
  }

  lemma UnfoldList(ws: seq<Word>, x: nat)
    requires x < |ws|
    ensures ListFrom(ws, x) == Shifted(Ones(ws[x], 0), 64 * x) + ListFrom(ws, x + 1)
  {
  }

  lemma InShiftedFrom(w: Word, from: nat, base: nat, n: nat)
    requires from <= 64
    ensures n in Shifted(Ones(w, from), base) <==> base + from <= n < base + 64 && w[n - base]
  {
    var s, r := Ones(w, from), Shifted(Ones(w, from), base);
    if n in r {
      var i :| 0 <= i < |r| && r[i] == n;
      assert s[i] in s;
    }
    if base + from <= n < base + 64 && w[n - base] {
      assert n - base in s;
      var i :| 0 <= i < |s| && s[i] == n - base;
      assert r[i] == n;
    }
  }

  lemma ShiftedCons(n: nat, s: seq<nat>, base: nat)
    ensures Shifted([n] + s, base) == [n + base] + Shifted(s, base)
    ensures Shifted([] + s, base) == [] + Shifted(s, base)
  {
  }

  lemma {:induction false} OnesShifted(w: Word, off: nat, from: nat)
    requires off <= 64 && from <= 64 - off
    ensures Shifted(Ones(ShiftRight(w, off), from), off) == Ones(w, off + from)
    decreases 64 - from
  {
    hide Shifted;
    var v := ShiftRight(w, off);
    if from < 64 - off {
      OnesShifted(w, off, from + 1);
      assert v[from] == w[off + from];
      ShiftedCons(from, Ones(v, from + 1), off);
    } else {
      OnesSkip(v, from, 64);
      assert Ones(v, from) == [] && Ones(w, off + from) == [];
    }
  }

  /** What is written for the first word is too small by the start's offset in the word. */
  lemma ProducedIsOff(ws: seq<Word>, start: nat)
    requires start / 64 < |ws|
    ensures var n := |Ones(ws[start / 64], start % 64)|;
            && |Produced(ws, start)| == |MembersFrom(ws, start)| >= n
            && (forall i :: 0 <= i < n ==> Produced(ws, start)[i] + start % 64 == MembersFrom(ws, start)[i])
            && (forall i :: n <= i < |Produced(ws, start)| ==> Produced(ws, start)[i] == MembersFrom(ws, start)[i])
  {
    hide Ones;
    OnesShifted(ws[start / 64], start % 64, 0);
  }

  /** The output is the members from `start` on exactly if the start is word-aligned or its word has none left. */
  lemma ProducedRightIff(ws: seq<Word>, start: nat)
    requires start / 64 < |ws|
    ensures Produced(ws, start) == MembersFrom(ws, start)
            <==> start % 64 == 0 || forall j :: start % 64 <= j < 64 ==> !ws[start / 64][j]
  {
    hide Produced, MembersFrom;
    ProducedIsOff(ws, start);
    var ones := Ones(ws[start / 64], start % 64);
    if start % 64 != 0 {
      if ones != [] {
        assert ones[0] in ones;
        assert Produced(ws, start)[0] + start % 64 == MembersFrom(ws, start)[0];
      }
    }
  }

  /** Starting at bit 1 of a word with bits 1 and 2 set, 0 and 1 are written instead of 1 and 2. */
  lemma UnalignedStartIsWrong()
    ensures var w: Word := seq(64, i => i == 1 || i == 2);
            Produced([w], 1) == [0, 1] && MembersFrom([w], 1) == [1, 2]
  {
    var w: Word := seq(64, i => i == 1 || i == 2);
    hide Ones, ListFrom;
    TwoOnes(w);
    ListEnds([w]);
    ProducedIsOff([w], 1);
  }

  lemma TwoOnes(w: Word)
    requires w == seq(64, i => i == 1 || i == 2)
    ensures Ones(w, 2) == [2] && Ones(w, 1) == [1, 2] && Ones(w, 0) == [1, 2]
  {
    OnesSkip(w, 3, 64);
    assert Ones(w, 64) == [];
    assert Ones(w, 2) == [2] + Ones(w, 3);
    assert Ones(w, 1) == [1] + Ones(w, 2);
  }

  // ----- runs of updates on a set -----

  datatype Update = Insert(i: nat) | Delete(i: nat)

  function Updated(s: set<nat>, ops: seq<Update>): set<nat> {
    if ops == [] then s
    else
      var t := Updated(s, ops[..|ops| - 1]);
      match ops[|ops| - 1]
      case Insert(i) => t + {i}
      case Delete(i) => t - {i}
  }

  // ----- the object -----

  class Bitset {
    var words: array<Word>
    var arraySize: nat
    var capacity: nat
    /** The words copied by all reallocations so far. */
    ghost var copied: nat

    ghost predicate Valid()
      reads this, words
    {
      arraySize <= capacity == words.Length && copied <= capacity
    }

    ghost function Used(): seq<Word>
      requires Valid()
      reads this, words
    {
      words[..arraySize]
    }

    ghost function Value(): set<nat>
      requires Valid()
      reads this, words
    {
      Members(Used())
    }

    constructor ()
      ensures Valid() && fresh(words) && Value() == {}
    {
      words := new Word[0];
      arraySize, capacity, copied := 0, 0, 0;
    }

    /** `bitset_grow`, its reallocation succeeding. */
    method Grow(newSize: nat)
      requires Valid() && arraySize <= newSize
      modifies this, words
      ensures Valid() && (words == old(words) || fresh(words))
      ensures arraySize == newSize && Value() == old(Value())
      ensures capacity == if old(capacity) < newSize then newSize * 2 else old(capacity)
      ensures copied == old(copied) + if old(capacity) < newSize then old(capacity) else 0
    {
      ghost var before := Used();
      var target := words;
      if capacity < newSize {
        target := new Word[newSize * 2];
        for i := 0 to words.Length
          modifies target
          invariant forall k :: 0 <= k < i ==> target[k] == words[k]
        {
          target[i] := words[i];
        }
        copied := copied + words.Length;
        words := target;
        capacity := newSize * 2;
      }
      assert target[..arraySize] == before;
      for i := arraySize to newSize
        modifies target
        invariant target[..arraySize] == before
        invariant forall k :: arraySize <= k < i ==> target[k] == ZERO
      {
        target[i] := ZERO;
      }
      ghost var n := arraySize;
      arraySize := newSize;
      assert Used()[..n] == before;
      ZeroWordsAddNothing(before, Used());
    }

    method Set(i: nat)
      requires Valid()
      modifies this, words
      ensures Valid() && (words == old(words) || fresh(words))
      ensures Value() == old(Value()) + {i} && arraySize == Max(old(arraySize), i / 64 + 1)
      ensures copied == old(copied) + if old(capacity) < arraySize then old(capacity) else 0
    {
      var x := i / 64;
      if x >= arraySize {
        Grow(x + 1);
      }
      ghost var before := Used();
      SetBit(before, i);
      words[x] := Or(words[x], Single(i % 64));
      assert Used() == before[x := Or(before[x], Single(i % 64))];
    }

    method Unset(i: nat)
      requires Valid()
      modifies words
      ensures Valid() && Value() == old(Value()) - {i}
    {
      var x := i / 64;
      InMembers(Used(), i);
      if x >= arraySize {
        return;
      }
      ghost var before := Used();
      ClearBit(before, i);
      words[x] := And(words[x], Not(Single(i % 64)));
      assert Used() == before[x := And(before[x], Not(Single(i % 64)))];
    }

    method Get(i: nat) returns (present: bool)
      requires Valid()
      ensures present <==> i in Value()
    {
      InMembers(Used(), i);
      var x := i / 64;
      if x >= arraySize {
        return false;
      }
      SingleBit(words[x], i % 64);
      return And(words[x], Single(i % 64)) != ZERO;
    }

    /** Any run of updates: the value is what the same updates make of a set. */
    method Apply(ops: seq<Update>)
      requires Valid()
      modifies this, words
      ensures Valid() && (words == old(words) || fresh(words))
      ensures Value() == Updated(old(Value()), ops)
    {
      assert ops[..0] == [];
      for k := 0 to |ops|
        invariant Valid() && (words == old(words) || fresh(words))
        invariant Value() == Updated(old(Value()), ops[..k])
      {
        match ops[k] {
          case Insert(i) => Set(i);
          case Delete(i) => Unset(i);
        }
        assert ops[..k + 1][..k] == ops[..k];
      }
      assert ops[..|ops|] == ops;
    }

    /** `nextSetBit`: the least member not below `i`. */
    method NextSetBit(i: nat) returns (found: bool, next: nat)
      requires Valid()
      ensures found ==> next in Value() && i <= next && forall n :: n in Value() && i <= n ==> next <= n
      ensures !found ==> next == i && forall n :: n in Value() ==> n < i
    {
      hide Members;
      forall n: nat ensures n in Value() <==> Has(Used(), n) { InMembers(Used(), n); }
      var x := i / 64;
      if x >= arraySize {
        return false, i;
      }
      var w := ShiftRight(words[x], i % 64);
      ZeroHasNoBits(w);
      if w != ZERO {
        next := i + TrailingZeros(w);
        LeastInFirstWord(Used(), i, w, next);
        return true, next;
      }
      NoneInFirstWord(Used(), i, w);
      x := x + 1;
      while x < arraySize
        invariant i / 64 < x <= arraySize
        invariant forall n: nat :: Has(Used(), n) && i <= n ==> x <= n / 64
      {
        w := words[x];
        ZeroHasNoBits(w);
        if w != ZERO {
          next := x * 64 + TrailingZeros(w);
          LeastInWord(Used(), i, x, w, next);
          return true, next;
        }
        x := x + 1;
      }
      return false, i;
    }

    /** `bitset_print`: `nextSetBit` from zero, resumed behind each member it finds. */
    method EnumerateByNext() returns (list: seq<nat>)
      requires Valid()
      ensures list == ListFrom(Used(), 0)
    {
      hide Members, ListFrom, Has;
      ghost var all := ListFrom(Used(), 0);
      ListIsAscendingMembers(Used(), 0);
      ghost var members := Value();
      assert forall n: nat :: n in all <==> n in members;
      list := [];
      var i := 0;
      var found, next := NextSetBit(i);
      assert Value() == members;
      FoundIffMore(all, 0, i, found);
      while found
        invariant list <= all
        invariant forall k :: 0 <= k < |list| ==> list[k] < i
        invariant forall k :: |list| <= k < |all| ==> i <= all[k]
        invariant found ==> next in all && i <= next && forall n :: n in all && i <= n ==> next <= n
        invariant found <==> |list| < |all|
        decreases |all| - |list|, if found then 1 else 0
      {
        NextInList(all, |list|, i, next);
        list := list + [next];
        i := next + 1;
        found, next := NextSetBit(i);
        assert Value() == members;
        FoundIffMore(all, |list|, i, found);
      }
    }

    /** `bitset_for_each` */
    method ForEach(accept: nat -> bool) returns (seen: seq<nat>, all: bool)
      requires Valid()
      ensures (seen, all) == Visited(ListFrom(Used(), 0), accept)
    {
      hide Ones, Visited, Resumed;
      ghost var ws := Used();
      seen, all := [], true;
      NothingSeen(ListFrom(ws, 0), accept);
      var base := 0;
      for i := 0 to arraySize
        invariant base == 64 * i
        invariant Resumed(seen, ListFrom(ws, i), accept) == Visited(ListFrom(ws, 0), accept)
      {
        assert ws[i] == words[i];
        seen, all := ForEachInWord(accept, words[i], base, seen, ListFrom(ws, i + 1));
        if !all {
          return;
        }
        base := base + 64;
      }
      NothingLeft(seen, accept);
      all := true;
    }

    /** The inner loop of `bitset_for_each`. */
    method ForEachInWord(accept: nat -> bool, word: Word, base: nat, before: seq<nat>, ghost rest: seq<nat>)
      returns (seen: seq<nat>, all: bool)
      ensures var goal := Resumed(before, Shifted(Ones(word, 0), base) + rest, accept);
              if all then Resumed(seen, rest, accept) == goal else (seen, false) == goal
    {
      hide Ones, Resumed, LowestBit, Xor;
      var w := word;
      seen := before;
      while w != ZERO
        invariant Resumed(seen, Shifted(Ones(w, 0), base) + rest, accept)
               == Resumed(before, Shifted(Ones(word, 0), base) + rest, accept)
        decreases |Ones(w, 0)|
      {
        var r := TrailingZeros(w);
        PeelLowest(w);
        ghost var tail := Shifted(Ones(Xor(w, LowestBit(w)), 0), base);
        ShiftedCons(r, Ones(Xor(w, LowestBit(w)), 0), base);
        assert Shifted(Ones(w, 0), base) + rest == [r + base] + (tail + rest);
        ResumedStep(seen, r + base, tail + rest, accept);
        seen := seen + [r + base];
        if !accept(r + base) {
          return seen, false;
        }
        w := Xor(w, LowestBit(w));
      }
      OnesOfZero(0);
      assert Shifted(Ones(w, 0), base) + rest == rest;
      all := true;
    }

    /** `nextSetBits` */
    method NextSetBits(buffer: array<nat>, room: nat, start: nat) returns (howMany: nat, last: nat)
      requires Valid() && room <= buffer.Length
      modifies buffer
      ensures Used() == old(Used())
      ensures room == 0 || start / 64 >= arraySize ==> howMany == 0
      ensures room > 0 && start / 64 < arraySize ==>
                && howMany == Min(room, |Produced(Used(), start)|)
                && buffer[..howMany] == Produced(Used(), start)[..howMany]
      ensures last == if howMany == 0 then start else buffer[howMany - 1]
    {
      howMany, last := 0, start;
      if room == 0 {
        return;
      }
      var x := start / 64;
      if x >= arraySize {
        return;
      }
      howMany := Fill(buffer, room, x, ShiftRight(words[x], start % 64), Used(), Produced(Used(), start));
      if howMany > 0 {
        last := buffer[howMany - 1];
      }
    }

    /** The outer loop of `nextSetBits`. */
    method Fill(buffer: array<nat>, room: nat, from: nat, first: Word, ghost ws: seq<Word>, ghost goal: seq<nat>)
      returns (howMany: nat)
      requires 0 < room <= buffer.Length && from < arraySize <= words.Length && ws == words[..arraySize]
      requires goal == Shifted(Ones(first, 0), from * 64) + ListFrom(ws, from + 1)
      modifies buffer
      ensures howMany <= room && howMany <= |goal| && buffer[..howMany] == goal[..howMany]
      ensures howMany < room ==> howMany == |goal|
    {
      hide *;
      var size := arraySize;
      ListEnds(ws);
      howMany := 0;
      var x, w, base := from, first, from * 64;
      ghost var rest := ListFrom(ws, x + 1);
      NothingYet(buffer[..0], goal);
      while true
        invariant 0 <= howMany < room && x < size == arraySize && base == 64 * x
        invariant words[..size] == ws && rest == ListFrom(ws, x + 1)
        invariant buffer[..howMany] + (Shifted(Ones(w, 0), base) + rest) == goal
        decreases size - x
      {
        howMany, w := DrainWord(buffer, room, howMany, w, base, rest, goal);
        if howMany == room {
          return;
        }
        x := x + 1;
        if x == size {
          NothingMore(buffer[..howMany]);
          return;
        }
        base := base + 64;
        w := words[x];
        assert w == ws[x];
        UnfoldList(ws, x);
        rest := ListFrom(ws, x + 1);
      }
    }

    /** The inner loop of `nextSetBits`: writes out one word until it or the room is exhausted. */
    method DrainWord(buffer: array<nat>, room: nat, from: nat, word: Word, base: nat, ghost rest: seq<nat>, ghost goal: seq<nat>)
      returns (howMany: nat, w: Word)
      requires from < room <= buffer.Length
      requires buffer[..from] + (Shifted(Ones(word, 0), base) + rest) == goal
      modifies buffer
      ensures from <= howMany <= room && howMany <= |goal| && buffer[..howMany] == goal[..howMany]
      ensures howMany < room ==> w == ZERO && goal == buffer[..howMany] + rest
    {
      hide Ones, LowestBit, Xor, TrailingZeros, Shifted;
      howMany, w := from, word;
      while w != ZERO
        invariant from <= howMany < room
        invariant buffer[..howMany] + (Shifted(Ones(w, 0), base) + rest) == goal
        decreases |Ones(w, 0)|
      {
        var r := TrailingZeros(w);
        PeelLowest(w);
        ShiftedCons(r, Ones(Xor(w, LowestBit(w)), 0), base);
        ghost var done := buffer[..howMany];
        buffer[howMany] := r + base;
        howMany := howMany + 1;
        assert buffer[..howMany] == done + [r + base];
        MoveOne(done, r + base, Shifted(Ones(Xor(w, LowestBit(w)), 0), base), rest);
        if howMany == room {
          return;
        }
        w := Xor(w, LowestBit(w));
      }
      OnesOfZero(0);
      assert Shifted([], base) + rest == rest;
    }
  }

  /** The three enumerators list the same: the members, ascending; `nextSetBits` up to its room. */
  method EnumerateThreeWays(b: Bitset, buffer: array<nat>) returns (byNext: seq<nat>, byEach: seq<nat>, howMany: nat)
    requires b.Valid()
    modifies buffer
    ensures b.Valid() && b.Value() == old(b.Value())
    ensures StrictlyAscending(byNext) && forall n :: n in byNext <==> n in b.Value()
    ensures byEach == byNext && howMany == Min(buffer.Length, |byNext|) && buffer[..howMany] == byNext[..howMany]
  {
    hide Members, ListFrom, Visited, StrictlyAscending;
    ghost var ws := b.Used();
    byNext := b.EnumerateByNext();
    ListIsAscendingMembers(ws, 0);
    var all;
    byEach, all := b.ForEach(n => true);
    VisitedAll(byNext, n => true);
    var last;
    howMany, last := b.NextSetBits(buffer, buffer.Length, 0);
    if b.arraySize > 0 {
      MembersFromIsMembers(ws, 0);
      AlignedStart(ws);
    } else {
      ListEnds(ws);
    }
  }

  lemma AlignedStart(ws: seq<Word>)
    requires ws != []
    ensures Produced(ws, 0) == MembersFrom(ws, 0)
  {
    ProducedRightIff(ws, 0);
  }

  lemma NothingMore(s: seq<nat>)
    ensures s + [] == s
  {
  }

  lemma NothingYet(done: seq<nat>, s: seq<nat>)
    requires done == []
    ensures done + s == s
  {
  }

  lemma MoveOne(done: seq<nat>, e: nat, tail: seq<nat>, rest: seq<nat>)
    ensures done + (([e] + tail) + rest) == (done + [e]) + (tail + rest)
  {
  }

  /** `bitset_intersection_count` */
  method IntersectionCount(b: Bitset, c: Bitset) returns (answer: nat)
    requires b.Valid() && c.Valid()
    ensures answer == |b.Value() * c.Value()|
  {
    answer := 0;
    var minLength := if b.arraySize < c.arraySize then b.arraySize else c.arraySize;
    ghost var vs, ws := b.Used(), c.Used();
    for k := 0 to minLength
      invariant answer == |ListFrom(Intersected(vs, ws, k), 0)|
    {
      var w := And(b.words[k], c.words[k]);
      PopCountIsLength(w, 0);
      assert w[0..] == w;
      ListLengthAppend(Intersected(vs, ws, k), w, 0);
      assert Intersected(vs, ws, k + 1) == Intersected(vs, ws, k) + [w];
      answer := answer + PopCount(w);
    }
    IntersectedMembers(vs, ws);
    MembersSize(Intersected(vs, ws, minLength));
  }

  // ----- facts used by the methods -----

  lemma SingleBit(w: Word, k: nat)
    requires k < 64
    ensures And(w, Single(k)) != ZERO <==> w[k]
  {
    ZeroHasNoBits(And(w, Single(k)));
    assert And(w, Single(k))[k] == w[k];
  }

  lemma LeastInFirstWord(ws: seq<Word>, i: nat, w: Word, next: nat)
    requires i / 64 < |ws| && w == ShiftRight(ws[i / 64], i % 64) && w != ZERO && next == i + TrailingZeros(w)
    ensures Has(ws, next) && forall n: nat :: Has(ws, n) && i <= n ==> next <= n
  {
    var x, k := i / 64, TrailingZeros(w);
    InWord(i, x);
    InWord(next, x);
    forall n: nat | Has(ws, n) && i <= n ensures next <= n {
      InWord(n, x);
      if n / 64 == x {
        assert w[n - i];
      }
    }
  }

  lemma NoBitsAbove(v: Word, off: nat)
    requires off < 64 && ShiftRight(v, off) == ZERO
    ensures forall j :: off <= j < 64 ==> !v[j]
  {
    ZeroHasNoBits(ShiftRight(v, off));
    forall j | off <= j < 64 ensures !v[j] {
      assert ShiftRight(v, off)[j - off] == v[j];
    }
  }

  lemma NoneInFirstWord(ws: seq<Word>, i: nat, w: Word)
    requires i / 64 < |ws| && w == ShiftRight(ws[i / 64], i % 64) && w == ZERO
    ensures forall n: nat :: Has(ws, n) && i <= n ==> i / 64 + 1 <= n / 64
  {
    NoBitsAbove(ws[i / 64], i % 64);
    InWord(i, i / 64);
    forall n: nat | Has(ws, n) && i <= n ensures i / 64 + 1 <= n / 64 {
      InWord(n, i / 64);
    }
  }

  lemma LeastInWord(ws: seq<Word>, i: nat, x: nat, w: Word, next: nat)
    requires i / 64 < x < |ws| && w == ws[x] && w != ZERO && next == x * 64 + TrailingZeros(w)
    requires forall n: nat :: Has(ws, n) && i <= n ==> x <= n / 64
    ensures Has(ws, next) && i <= next && forall n: nat :: Has(ws, n) && i <= n ==> next <= n
  {
    InWord(next, x);
    InWord(i, i / 64);
    forall n: nat | Has(ws, n) && i <= n ensures next <= n {
      InWord(n, x);
      InWord(n, n / 64);
    }
  }

  lemma FoundIffMore(all: seq<nat>, k: nat, i: nat, found: bool)
    requires k <= |all| && (forall j :: 0 <= j < k ==> all[j] < i) && (forall j :: k <= j < |all| ==> i <= all[j])
    requires if found then exists n :: n in all && i <= n else forall n :: n in all ==> n < i
    ensures found <==> k < |all|
  {
    if k < |all| {
      assert all[k] in all;
    }
  }

  /** The least element not below `i` is the first one not yet listed. */
  lemma NextInList(all: seq<nat>, k: nat, i: nat, next: nat)
    requires StrictlyAscending(all) && k <= |all| && next in all && i <= next
    requires forall j :: 0 <= j < k ==> all[j] < i
    requires forall j :: k <= j < |all| ==> i <= all[j]
    requires forall n :: n in all && i <= n ==> next <= n
    ensures k < |all| && all[k] == next
  {
    var j :| 0 <= j < |all| && all[j] == next;
    assert all[k] in all;
  }

  /** The enumeration with `seen` already visited and `rest` still to come. */
  function Resumed(seen: seq<nat>, rest: seq<nat>, accept: nat -> bool): (seq<nat>, bool) {
    var (more, all) := Visited(rest, accept);
    (seen + more, all)
  }

  lemma NothingSeen(rest: seq<nat>, accept: nat -> bool)
    ensures Resumed([], rest, accept) == Visited(rest, accept)
  {
    assert [] + Visited(rest, accept).0 == Visited(rest, accept).0;
  }

  lemma NothingLeft(seen: seq<nat>, accept: nat -> bool)
    ensures Resumed(seen, [], accept) == (seen, true)
  {
    assert seen + [] == seen;
  }

  lemma ResumedStep(seen: seq<nat>, n: nat, rest: seq<nat>, accept: nat -> bool)
    ensures Resumed(seen, [n] + rest, accept) == if accept(n) then Resumed(seen + [n], rest, accept) else (seen + [n], false)
  {
    assert ([n] + rest)[1..] == rest;
    var (more, all) := Visited(rest, accept);
    assert seen + ([n] + more) == seen + [n] + more;
  }
}
