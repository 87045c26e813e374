/**
 The loop that `nextSetBits` is made for: call it with a small buffer, resume behind the number
 it reports, stop when nothing comes.  A resumed call may start inside a word, where the output
 is wrong, so the loop lists the members only if every full buffer ends with the last of its word.
 */
module BitsetBatches {
  import opened BitWord
  import opened CBitset

  /** What one call writes. */
  function Batch(ws: seq<Word>, start: nat, room: nat): seq<nat> {
    if start / 64 >= |ws| then [] else Produced(ws, start)[..Min(room, |Produced(ws, start)|)]
  }

  /** What `n` calls write, each resumed behind the last number of the one before. */
  function Batches(ws: seq<Word>, start: nat, room: nat, n: nat): seq<nat>
    decreases n
  {
    if n == 0 then []
    else
      var b := Batch(ws, start, room);
      if b == [] then [] else b + Batches(ws, b[|b| - 1] + 1, room, n - 1)
  }

  /** From index `i` on, a buffer filled with members is followed by a member of another word. */
  predicate CleanCuts(all: seq<nat>, i: nat, room: nat)
    requires room > 0
    decreases |all| - i
  {
    i + room < |all| ==> all[i + room - 1] / 64 < all[i + room] / 64 && CleanCuts(all, i + room, room)
  }

  /** Where the loop resumes when the members before index `i` were listed. */
  function StartAt(all: seq<nat>, i: nat): nat
    requires i <= |all|
  {
    if i == 0 then 0 else all[i - 1] + 1
  }

  // ----- one call -----

  lemma {:induction false} AscendingUnique(a: seq<nat>, b: seq<nat>)
    requires StrictlyAscending(a) && StrictlyAscending(b) && forall n :: n in a <==> n in b
    ensures a == b
    decreases |a|
  {
    assert a != [] ==> a[0] in b;
    assert b != [] ==> b[0] in a;
    if a != [] {
      FirstIsLeast(a);
      FirstIsLeast(b);
      RestWithoutFirst(a);
      RestWithoutFirst(b);
      AscendingUnique(a[1..], b[1..]);
      assert a == [a[0]] + a[1..] && b == [b[0]] + b[1..];
    }
  }

  lemma FirstIsLeast(a: seq<nat>)
    requires StrictlyAscending(a) && a != []
    ensures forall n :: n in a ==> a[0] <= n
  {
  }

  lemma RestWithoutFirst(a: seq<nat>)
    requires StrictlyAscending(a) && a != []
    ensures StrictlyAscending(a[1..]) && forall n :: n in a[1..] <==> n in a && n != a[0]
  {
    forall n ensures n in a[1..] <==> n in a && n != a[0] {
      if n in a && n != a[0] {
        var k :| 0 <= k < |a| && a[k] == n;
        assert a[1..][k - 1] == n;
      }
    }
  }

  lemma SuffixHolds(all: seq<nat>, i: nat)
    requires StrictlyAscending(all) && i <= |all|
    ensures StrictlyAscending(all[i..]) && forall n :: n in all[i..] <==> n in all && StartAt(all, i) <= n
  {
    forall n ensures n in all[i..] <==> n in all && StartAt(all, i) <= n {
      if n in all && StartAt(all, i) <= n {
        var k :| 0 <= k < |all| && all[k] == n;
        assert all[i..][k - i] == n;
      }
      if n in all[i..] {
        var k :| 0 <= k < |all[i..]| && all[i..][k] == n;
        assert all[i + k] == n;
      }
    }
  }

  /** The reference list from a resuming point is the members not listed yet. */
  lemma ResumedList(ws: seq<Word>, i: nat)
    requires i <= |ListFrom(ws, 0)|
    ensures var all := ListFrom(ws, 0);
            var start := StartAt(all, i);
            if start / 64 >= |ws| then i == |all| else MembersFrom(ws, start) == all[i..]
  {
    hide ListFrom, Members, MembersFrom, Has, Ones, StrictlyAscending;
    var all := ListFrom(ws, 0);
    var start := StartAt(all, i);
    ListIsAscendingMembers(ws, 0);
    SuffixHolds(all, i);
    if start / 64 < |ws| {
      MembersFromIsMembers(ws, start);
      AscendingUnique(MembersFrom(ws, start), all[i..]);
    } else if i < |all| {
      assert all[i..][0] in all[i..];
      MembersBelow(ws, all[i]);
    }
  }

  /** A call resumed where the next member is in another word writes the next members. */
  lemma CleanBatch(ws: seq<Word>, i: nat, room: nat)
    requires i <= |ListFrom(ws, 0)|
    requires var all := ListFrom(ws, 0); 0 < i < |all| ==> all[i - 1] / 64 < all[i] / 64
    ensures var all := ListFrom(ws, 0); Batch(ws, StartAt(all, i), room) == all[i..][..Min(room, |all| - i)]
  {
    hide ListFrom, Produced, MembersFrom;
    var all := ListFrom(ws, 0);
    var start := StartAt(all, i);
    ResumedList(ws, i);
    if start / 64 < |ws| {
      ProducedRightIff(ws, start);
      if start % 64 != 0 {
        forall j | start % 64 <= j < 64 ensures !ws[start / 64][j] {
          NoneLeft(ws, i, j);
        }
      }
    }
  }

  lemma NoneLeft(ws: seq<Word>, i: nat, j: nat)
    requires i <= |ListFrom(ws, 0)| && StartAt(ListFrom(ws, 0), i) / 64 < |ws| && StartAt(ListFrom(ws, 0), i) % 64 <= j < 64
    requires var all := ListFrom(ws, 0);
             StartAt(all, i) % 64 != 0 && (0 < i < |all| ==> all[i - 1] / 64 < all[i] / 64)
    ensures !ws[StartAt(ListFrom(ws, 0), i) / 64][j]
  {
    hide ListFrom, Members, StrictlyAscending;
    var all := ListFrom(ws, 0);
    var start := StartAt(all, i);
    var n := 64 * (start / 64) + j;
    assert n / 64 == start / 64 && n % 64 == j && start <= n;
    ListIsAscendingMembers(ws, 0);
    SuffixHolds(all, i);
    InMembers(ws, n);
    assert i > 0 && all[i - 1] / 64 == start / 64;
    if n in all[i..] {
      SuffixHasFirst(all, i, n);
      assert false;
    }
  }

  lemma SuffixHasFirst(all: seq<nat>, i: nat, n: nat)
    requires StrictlyAscending(all) && i <= |all| && n in all[i..]
    ensures i < |all| && all[i] <= n
  {
    var k :| 0 <= k < |all[i..]| && all[i..][k] == n;
    assert all[i + k] == n;
  }

  /** A call resumed inside the word of the next member writes a smaller number instead of it. */
  lemma DirtyBatch(ws: seq<Word>, i: nat, room: nat)
    requires 0 < i < |ListFrom(ws, 0)| && room > 0
    requires var all := ListFrom(ws, 0); all[i - 1] / 64 >= all[i] / 64
    ensures var all := ListFrom(ws, 0);
            var b := Batch(ws, StartAt(all, i), room);
            b != [] && b[0] < all[i]
  {
    hide ListFrom, Produced, MembersFrom, Ones, StrictlyAscending;
    var all := ListFrom(ws, 0);
    var start := StartAt(all, i);
    ResumedList(ws, i);
    ListIsAscendingMembers(ws, 0);
    NextIsLarger(all, i);
    assert start / 64 == all[i] / 64 && start % 64 > 0;
    ProducedIsOff(ws, start);
    assert all[i..][0] == all[i] && start <= all[i];
    FirstInWord(ws, start, all[i]);
  }

  lemma NextIsLarger(all: seq<nat>, i: nat)
    requires StrictlyAscending(all) && 0 < i < |all|
    ensures all[i - 1] < all[i]
  {
  }

  /** A member behind the start in the start's word makes the word's list non-empty. */
  lemma FirstInWord(ws: seq<Word>, start: nat, n: nat)
    requires start / 64 < |ws| && start <= n && n / 64 == start / 64
    requires MembersFrom(ws, start) != [] && MembersFrom(ws, start)[0] == n
    ensures |Ones(ws[start / 64], start % 64)| > 0
  {
    hide ListFrom, Ones;
    var ones := Ones(ws[start / 64], start % 64);
    var rest := ListFrom(ws, start / 64 + 1);
    ListIsAscendingMembers(ws, start / 64 + 1);
    assert n !in rest;
    assert n in MembersFrom(ws, start);
  }

  // ----- the whole loop -----

  /** The members before index `i` are listed and the next call starts cleanly, as do all later ones. */
  predicate Clean(ws: seq<Word>, i: nat, room: nat)
    requires room > 0
  {
    var all := ListFrom(ws, 0);
    i <= |all| && CleanCuts(all, i, room) && (0 < i < |all| ==> all[i - 1] / 64 < all[i] / 64)
  }

  /** One turn of the loop from a clean start. */
  lemma CleanTurn(ws: seq<Word>, i: nat, room: nat)
    requires room > 0 && Clean(ws, i, room)
    ensures var all := ListFrom(ws, 0);
            var b := Batch(ws, StartAt(all, i), room);
            var next := i + |b|;
            && (b == [] <==> i == |all|)
            && next <= |all| && b == all[i..next]
            && Clean(ws, next, room) && (b != [] ==> StartAt(all, next) == b[|b| - 1] + 1)
  {
    hide ListFrom, Batch;
    CleanBatch(ws, i, room);
    var all := ListFrom(ws, 0);
    assert all[i..][..Min(room, |all| - i)] == all[i..i + Min(room, |all| - i)];
  }

  /** With clean cuts any number of calls lists members in order, and enough calls list them all. */
  lemma {:induction false} CleanLoop(ws: seq<Word>, i: nat, room: nat, n: nat)
    requires room > 0 && Clean(ws, i, room)
    ensures var all := ListFrom(ws, 0);
            && Batches(ws, StartAt(all, i), room, n) <= all[i..]
            && (n >= |all| - i ==> Batches(ws, StartAt(all, i), room, n) == all[i..])
    decreases n
  {
    hide ListFrom, Batch, CleanCuts, StartAt, Batches;
    var all := ListFrom(ws, 0);
    CleanTurn(ws, i, room);
    var start := StartAt(all, i);
    var b := Batch(ws, start, room);
    OneTurn(ws, start, room, n);
    if n > 0 && i < |all| {
      CleanLoop(ws, i + |b|, room, n - 1);
      SuffixInTwo(all, i, i + |b|);
      PrefixAppend(b, Batches(ws, b[|b| - 1] + 1, room, n - 1), all[i + |b|..]);
    }
  }

  lemma SuffixInTwo(all: seq<nat>, i: nat, j: nat)
    requires i <= j <= |all|
    ensures all[i..] == all[i..j] + all[j..]
  {
  }

  lemma OneTurn(ws: seq<Word>, start: nat, room: nat, n: nat)
    ensures var b := Batch(ws, start, room);
            Batches(ws, start, room, n) == if n == 0 || b == [] then [] else b + Batches(ws, b[|b| - 1] + 1, room, n - 1)
  {
  }

  lemma PrefixAppend(b: seq<nat>, x: seq<nat>, y: seq<nat>)
    requires x <= y
    ensures b + x <= b + y
  {
  }

  /** Behind a dirty cut some number of calls has listed a wrong number. */
  lemma {:induction false} DirtyLoop(ws: seq<Word>, i: nat, room: nat) returns (n: nat)
    requires room > 0 && i <= |ListFrom(ws, 0)|
    requires var all := ListFrom(ws, 0); !CleanCuts(all, i, room) && (0 < i < |all| ==> all[i - 1] / 64 < all[i] / 64)
    ensures var all := ListFrom(ws, 0); !(Batches(ws, StartAt(all, i), room, n) <= all[i..])
    decreases |ListFrom(ws, 0)| - i
  {
    hide ListFrom, Batch;
    var all := ListFrom(ws, 0);
    var next := i + room;
    CleanBatch(ws, i, room);
    var b := Batch(ws, StartAt(all, i), room);
    assert b == all[i..next] && b[|b| - 1] == all[next - 1];
    var m;
    if all[next - 1] / 64 < all[next] / 64 {
      m := DirtyLoop(ws, next, room);
    } else {
      m := 1;
      DirtyBatch(ws, next, room);
      WrongFirst(ws, next, room);
    }
    n := m + 1;
    PrefixBehind(all, i, next, Batches(ws, StartAt(all, next), room, m));
  }

  lemma WrongFirst(ws: seq<Word>, i: nat, room: nat)
    requires i < |ListFrom(ws, 0)|
    requires var b := Batch(ws, StartAt(ListFrom(ws, 0), i), room); b != [] && b[0] != ListFrom(ws, 0)[i]
    ensures !(Batches(ws, StartAt(ListFrom(ws, 0), i), room, 1) <= ListFrom(ws, 0)[i..])
  {
    hide ListFrom, Batch;
    assert ListFrom(ws, 0)[i..][0] == ListFrom(ws, 0)[i];
  }

  lemma PrefixBehind(all: seq<nat>, i: nat, next: nat, rest: seq<nat>)
    requires i <= next <= |all|
    ensures all[i..next] + rest <= all[i..] ==> rest <= all[next..]
  {
    var b := all[i..next];
    assert (b + rest)[|b|..] == rest && all[i..][|b|..] == all[next..];
  }

  /**
   The loop lists members in ascending order for ever and all of them in the end, exactly if
   every buffer it fills is followed by a member of another word.
   */
  lemma LoopRightIff(ws: seq<Word>, room: nat)
    requires room > 0
    ensures (forall n :: Batches(ws, 0, room, n) <= ListFrom(ws, 0)) <==> CleanCuts(ListFrom(ws, 0), 0, room)
    ensures CleanCuts(ListFrom(ws, 0), 0, room) ==> Batches(ws, 0, room, |ListFrom(ws, 0)|) == ListFrom(ws, 0)
  {
    hide ListFrom, Batches, CleanCuts;
    var all := ListFrom(ws, 0);
    assert all[0..] == all;
    if CleanCuts(all, 0, room) {
      forall n ensures Batches(ws, 0, room, n) <= all {
        CleanLoop(ws, 0, room, n);
      }
      CleanLoop(ws, 0, room, |all|);
    } else {
      var n := DirtyLoop(ws, 0, room);
      assert !(Batches(ws, 0, room, n) <= all);
    }
  }

  /** The loop on the object; elsewhere it may not end. */
  method EnumerateInBatches(b: Bitset, buffer: array<nat>) returns (list: seq<nat>)
    requires b.Valid() && buffer.Length > 0 && CleanCuts(ListFrom(b.Used(), 0), 0, buffer.Length)
    modifies buffer
    ensures b.Valid() && b.Used() == old(b.Used()) && list == ListFrom(b.Used(), 0)
  {
    hide ListFrom, Produced, CleanCuts;
    ghost var ws, i := b.Used(), 0;
    ghost var all := ListFrom(ws, 0);
    list := [];
    var start, room := 0, buffer.Length;
    assert Clean(ws, 0, room);
    hide Clean;
    while true
      invariant b.Valid() && b.Used() == ws && 0 <= i <= |all| && list == all[..i] && start == StartAt(all, i)
      invariant Clean(ws, i, room)
      decreases |all| - i
    {
      CleanTurn(ws, i, room);
      var howMany, last := b.NextSetBits(buffer, room, start);
      assert buffer[..howMany] == Batch(ws, start, room);
      if howMany == 0 {
        break;
      }
      list := list + buffer[..howMany];
      i := i + howMany;
      start := last + 1;
    }
    assert all[..|all|] == all;
  }

  /** Members 1 and 2 with a buffer of one: the second call reports 0, and so does every later one. */
  lemma SmallBufferLoops(w: Word, n: nat)
    requires w == seq(64, i => i == 1 || i == 2) && n >= 1
    ensures ListFrom([w], 0) == [1, 2] && !CleanCuts(ListFrom([w], 0), 0, 1)
    ensures |Batches([w], 0, 1, n)| == n && (n >= 2 ==> Batches([w], 0, 1, n)[1] == 0)
  {
    TwoMembers(w);
    var b := Batches([w], 0, 1, n);
    assert Batch([w], 0, 1) == [1];
    ZerosForEver(w, 2, n - 1);
    hide Batch;
    assert b == [1] + Batches([w], 2, 1, n - 1);
  }

  lemma TwoMembers(w: Word)
    requires w == seq(64, i => i == 1 || i == 2)
    ensures ListFrom([w], 0) == [1, 2] && Produced([w], 0) == [1, 2] && Produced([w], 1) == [0, 1] && Produced([w], 2) == [0]
  {
    hide Ones, ListFrom, Produced, Shifted;
    TwoOnes(w);
    UnfoldList([w], 0);
    ListEnds([w]);
    assert Shifted([1, 2], 0) == [1, 2] && Shifted([2], 0) == [2];
    assert ListFrom([w], 0) == [1, 2];
    ProducedIsOff([w], 0);
    ProducedIsOff([w], 1);
    ProducedIsOff([w], 2);
  }

  lemma {:induction false} ZerosForEver(w: Word, start: nat, n: nat)
    requires w == seq(64, i => i == 1 || i == 2) && (start == 1 || start == 2)
    ensures |Batches([w], start, 1, n)| == n && forall k :: 0 <= k < n ==> Batches([w], start, 1, n)[k] == 0
    decreases n
  {
    TwoMembers(w);
    hide Produced;
    if n > 0 {
      assert Batch([w], start, 1) == [0];
      ZerosForEver(w, 1, n - 1);
      hide Batch;
      assert Batches([w], start, 1, n) == [0] + Batches([w], 1, 1, n - 1);
    }
  }
}
