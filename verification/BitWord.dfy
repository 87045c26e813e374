/**
 64-bit words by their bits, least significant first, with the operations lib/util/cbitset.h
 uses on them.
 */
module BitWord {

  type Word = w: seq<bool> | |w| == 64 witness seq(64, i => false)

  const ZERO: Word := seq(64, i => false)

  /** `((uint64_t)1) << k` */
  function Single(k: nat): Word
    requires k < 64
  {
    seq(64, i => i == k)
  }

  function Or(a: Word, b: Word): Word {
    seq(64, i requires 0 <= i < 64 => a[i] || b[i])
  }

  function And(a: Word, b: Word): Word {
    seq(64, i requires 0 <= i < 64 => a[i] && b[i])
  }

  function Xor(a: Word, b: Word): Word {
    seq(64, i requires 0 <= i < 64 => a[i] != b[i])
  }

  function Not(a: Word): Word {
    seq(64, i requires 0 <= i < 64 => !a[i])
  }

  function ShiftRight(a: Word, n: nat): Word {
    seq(64, i requires 0 <= i < 64 => i + n < 64 && a[i + n])
  }

  /** Adding one with the carry running upwards; the carry out of the top is lost. */
  function Incremented(bits: seq<bool>): (r: seq<bool>)
    ensures |r| == |bits|
  {
    if bits == [] then []
    else if bits[0] then [false] + Incremented(bits[1..])
    else [true] + bits[1..]
  }

  function PlusOne(a: Word): Word {
    Incremented(a)
  }

  /** `__builtin_ctzll` */
  function TrailingZeros(w: Word): (k: nat)
    requires w != ZERO
    ensures k < 64 && w[k] && forall i :: 0 <= i < k ==> !w[i]
  {
    ZeroHasNoBits(w);
    FirstTrue(w, 0)
  }

  lemma ZeroHasNoBits(w: Word)
    ensures w == ZERO <==> forall i :: 0 <= i < 64 ==> !w[i]
  {
  }

  function FirstTrue(w: seq<bool>, from: nat): (k: nat)
    requires exists i :: from <= i < |w| && w[i]
    ensures from <= k < |w| && w[k] && forall i :: from <= i < k ==> !w[i]
    decreases |w| - from
  {
    if w[from] then from else FirstTrue(w, from + 1)
  }

  /** `__builtin_popcountll` */
  function PopCount(bits: seq<bool>): nat {
    if bits == [] then 0 else (if bits[0] then 1 else 0) + PopCount(bits[1..])
  }

  // ----- isolating the lowest bit -----

  /** The carry stops at the first zero: below it all bits flip, above it none. */
  lemma {:induction false} IncrementedBits(bits: seq<bool>, k: nat, i: nat)
    requires k < |bits| && !bits[k] && (forall j :: 0 <= j < k ==> bits[j]) && i < |bits|
    ensures Incremented(bits)[i] == if i < k then false else if i == k then true else bits[i]
    decreases |bits|
  {
    if k > 0 && i > 0 {
      IncrementedBits(bits[1..], k - 1, i - 1);
    }
  }

  /** The lowest set bit, as the enumerators compute it. */
  function LowestBit(w: Word): Word {
    And(w, PlusOne(Not(w)))
  }

  lemma LowestBitIsSingle(w: Word)
    requires w != ZERO
    ensures LowestBit(w) == Single(TrailingZeros(w))
  {
    var k := TrailingZeros(w);
    forall i | 0 <= i < 64 ensures LowestBit(w)[i] == Single(k)[i] {
      IncrementedBits(Not(w), k, i);
    }
  }

  // ----- the set positions in ascending order -----

  function Ones(w: seq<bool>, from: nat): (r: seq<nat>)
    requires from <= |w|
    ensures forall n :: n in r <==> from <= n < |w| && w[n]
    decreases |w| - from
  {
    if from == |w| then []
    else (if w[from] then [from] else []) + Ones(w, from + 1)
  }

  predicate StrictlyAscending(s: seq<nat>) {
    forall i, j :: 0 <= i < j < |s| ==> s[i] < s[j]
  }

  lemma {:induction false} OnesAscend(w: seq<bool>, from: nat)
    requires from <= |w|
    ensures StrictlyAscending(Ones(w, from))
    decreases |w| - from
  {
    if from < |w| {
      OnesAscend(w, from + 1);
      var rest := Ones(w, from + 1);
      forall i | 0 <= i < |rest| ensures from < rest[i] {
        assert rest[i] in rest;
      }
      hide Ones;
      if w[from] {
        FirstBefore(from, rest);
      }
    }
  }

  lemma FirstBefore(n: nat, rest: seq<nat>)
    requires StrictlyAscending(rest) && forall i :: 0 <= i < |rest| ==> n < rest[i]
    ensures StrictlyAscending([n] + rest)
  {
  }

  lemma {:induction false} OnesOfZero(from: nat)
    requires from <= 64
    ensures Ones(ZERO, from) == []
    decreases 64 - from
  {
    if from < 64 {
      OnesOfZero(from + 1);
    }
  }

  lemma {:induction false} OnesSkip(w: seq<bool>, from: nat, k: nat)
    requires from <= k <= |w| && forall i :: from <= i < k ==> !w[i]
    ensures Ones(w, from) == Ones(w, k)
    decreases k - from
  {
    if from < k {
      assert Ones(w, from) == Ones(w, from + 1);
      hide Ones;
      OnesSkip(w, from + 1, k);
    }
  }

  lemma {:induction false} OnesAgree(v: seq<bool>, w: seq<bool>, from: nat)
    requires |v| == |w| && from <= |w| && forall i :: from <= i < |w| ==> v[i] == w[i]
    ensures Ones(v, from) == Ones(w, from)
    decreases |w| - from
  {
    if from < |w| {
      OnesAgree(v, w, from + 1);
    }
  }

  /** Taking the lowest bit off a word takes the first position off its list. */
  lemma PeelLowest(w: Word)
    requires w != ZERO
    ensures Ones(w, 0) == [TrailingZeros(w)] + Ones(Xor(w, LowestBit(w)), 0)
  {
    var k := TrailingZeros(w);
    LowestBitIsSingle(w);
    var v := Xor(w, LowestBit(w));
    OnesSkip(w, 0, k);
    OnesSkip(v, 0, k + 1);
    OnesAgree(v, w, k + 1);
  }

  lemma {:induction false} PopCountIsLength(w: seq<bool>, from: nat)
    requires from <= |w|
    ensures PopCount(w[from..]) == |Ones(w, from)|
    decreases |w| - from
  {
    if from < |w| {
      assert w[from..][1..] == w[from + 1..];
      PopCountIsLength(w, from + 1);
    }
  }
}
