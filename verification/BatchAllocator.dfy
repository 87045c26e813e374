/**
 `BatchAllocator` of lib/json/jsoncpp.cpp: blocks are carved off batches, and released blocks are
 chained through their own first word into a free list that is served first.
 */
module BatchAllocation {
  import opened Optional

  /** The address of an object: a batch, by order of creation, and an offset in its buffer. */
  datatype Ptr = Ptr(batch: nat, offset: nat)

  datatype BatchInfo = BatchInfo(next: Option<nat>, used: nat, end: nat)

  /** The objects `[p, p + n)` and `[q, q + n)` do not overlap. */
  predicate Apart(p: Ptr, q: Ptr, n: nat) {
    p.batch != q.batch || p.offset + n <= q.offset || q.offset + n <= p.offset
  }

  /** Following the links from `head` visits exactly `free`. */
  predicate Chain(head: Option<Ptr>, free: seq<Ptr>, links: map<Ptr, Option<Ptr>>)
    decreases |free|
  {
    if free == [] then head.None?
    else head == Some(free[0]) && free[0] in links && Chain(links[free[0]], free[1..], links)
  }

  lemma {:induction false} ChainKept(head: Option<Ptr>, free: seq<Ptr>, links: map<Ptr, Option<Ptr>>, p: Ptr, link: Option<Ptr>)
    requires Chain(head, free, links) && p !in free
    ensures Chain(head, free, links[p := link])
    decreases |free|
  {
    if free != [] {
      ChainKept(links[free[0]], free[1..], links, p, link);
    }
  }

  /** Rounded up. */
  function CeilDiv(a: nat, b: nat): nat
    requires b > 0
  {
    (a + b - 1) / b
  }

  lemma CeilDivUnique(a: nat, b: nat, n: nat)
    requires b > 0 && a <= n * b && (n == 0 || (n - 1) * b < a)
    ensures CeilDiv(a, b) == n
  {
    var q, r := (a + b - 1) / b, (a + b - 1) % b;
    assert q * b + r == a + b - 1;
    if n > 0 {
      assert (n - 1) * b == n * b - b;
    }
    QuotientUnique(q, n, b, r, a + b - 1 - n * b);
  }

  lemma MulAtLeast(d: int, b: nat)
    requires d != 0 && b > 0
    ensures d * b >= b || d * b + b <= 0
  {
    if d > 0 {
      assert (d - 1) * b >= 0;
    } else {
      assert (-1 - d) * b >= 0;
    }
  }

  lemma QuotientUnique(q: nat, n: nat, b: nat, r: int, s: int)
    requires b > 0 && 0 <= r < b && 0 <= s < b && q * b + r == n * b + s
    ensures q == n
  {
    assert (q - n) * b == q * b - n * b;
    if q != n {
      MulAtLeast(q - n, b);
    }
  }

  lemma MulCancels(m: nat, n: nat, k: nat)
    requires k > 0 && m * k == n * k
    ensures m == n
  {
    QuotientUnique(m, n, k, 0, 0);
  }

  lemma StepWithin(m: nat, n: nat, k: nat)
    requires k > 0 && m <= n && m * k != n * k
    ensures m < n && (m + 1) * k <= n * k && (m + 1) * k == m * k + k
  {
    assert m != n;
    assert (m + 1) * k <= n * k;
  }

  // ----- the list of batches -----

  /** The sizes an allocator is made with: objects per block, and blocks per batch. */
  datatype Sizes = Sizes(perBlock: nat, perBatch: nat) {
    predicate Ok() {
      perBlock > 0 && perBatch > 0
    }

    function PerPage(): nat {
      perBatch * perBlock
    }
  }

  function Current(bs: seq<BatchInfo>): nat
    requires bs != []
  {
    |bs| - 1
  }

  /**
   The batches by order of creation: each links to the one before it, all but the newest are
   used up, and `carved` blocks have been carved off the newest.  The first one is the empty
   batch the constructor allocates.
   */
  predicate BatchesOk(bs: seq<BatchInfo>, z: Sizes, carved: nat) {
    && z.Ok() && bs != [] && bs[0] == BatchInfo(None, 0, 0)
    && (forall k :: 0 < k < |bs| ==> bs[k].next == Some(k - 1) && bs[k].end == z.PerPage() && bs[k].used <= z.PerPage())
    && (forall k :: 0 <= k < Current(bs) ==> bs[k].used == bs[k].end)
    && carved <= z.perBatch
    && (if |bs| == 1 then carved == z.perBatch else bs[Current(bs)].used == carved * z.perBlock)
  }

  /** The block lies in the used part of a real batch. */
  predicate Inside(bs: seq<BatchInfo>, z: Sizes, p: Ptr) {
    0 < p.batch < |bs| && p.offset + z.perBlock <= bs[p.batch].used
  }

  predicate BlocksOk(bs: seq<BatchInfo>, z: Sizes, blocks: set<Ptr>) {
    && (forall p :: p in blocks ==> Inside(bs, z, p))
    && (forall p, q :: p in blocks && q in blocks && p != q ==> Apart(p, q, z.perBlock))
  }

  /** A used-up current batch holds its full number of blocks, and a new batch can follow it. */
  lemma NewBatch(bs: seq<BatchInfo>, z: Sizes, carved: nat, blocks: set<Ptr>)
    requires BatchesOk(bs, z, carved) && bs[Current(bs)].used == bs[Current(bs)].end && BlocksOk(bs, z, blocks)
    ensures carved == z.perBatch
    ensures var bs' := bs + [BatchInfo(Some(Current(bs)), 0, z.PerPage())];
            BatchesOk(bs', z, 0) && BlocksOk(bs', z, blocks)
  {
    if |bs| > 1 {
      MulCancels(carved, z.perBatch, z.perBlock);
    }
  }

  /** Moving the bump pointer of a batch that is not used up yields a block apart from all others. */
  lemma Bumped(bs: seq<BatchInfo>, z: Sizes, carved: nat, blocks: set<Ptr>)
    requires BatchesOk(bs, z, carved) && |bs| > 1 && bs[Current(bs)].used != bs[Current(bs)].end && BlocksOk(bs, z, blocks)
    ensures var c := Current(bs);
            var bs', p := bs[c := bs[c].(used := bs[c].used + z.perBlock)], Ptr(c, bs[c].used);
            && BatchesOk(bs', z, carved + 1) && Current(bs') == c
            && p !in blocks && BlocksOk(bs', z, blocks + {p})
  {
    StepWithin(carved, z.perBatch, z.perBlock);
    var c := Current(bs);
    var bs', p := bs[c := bs[c].(used := bs[c].used + z.perBlock)], Ptr(c, bs[c].used);
    forall q | q in blocks ensures Inside(bs, z, q) && Inside(bs', z, q) && Apart(p, q, z.perBlock) && q != p {
    }
  }

  // ----- the free list -----

  predicate Distinct(s: seq<Ptr>) {
    forall i, j :: 0 <= i < j < |s| ==> s[i] != s[j]
  }

  function ToSet(s: seq<Ptr>): set<Ptr> {
    set p | p in s
  }

  /** The blocks ever carved are the live ones and those in the free list. */
  predicate FreeOk(head: Option<Ptr>, free: seq<Ptr>, links: map<Ptr, Option<Ptr>>, live: set<Ptr>, blocks: set<Ptr>) {
    Distinct(free) && Chain(head, free, links) && live !! ToSet(free) && blocks == live + ToSet(free)
  }

  lemma FreeTaken(head: Option<Ptr>, free: seq<Ptr>, links: map<Ptr, Option<Ptr>>, live: set<Ptr>, blocks: set<Ptr>)
    requires FreeOk(head, free, links, live, blocks) && head.Some?
    ensures free != [] && head.value == free[0] && free[0] in links && free[0] !in live
    ensures FreeOk(links[free[0]], free[1..], links, live + {free[0]}, blocks)
  {
    var rest := free[1..];
    assert free == [free[0]] + rest;
    assert free[0] in ToSet(free);
    assert free[0] !in rest;
    assert ToSet(free) == ToSet(rest) + {free[0]};
  }

  lemma FreeGiven(head: Option<Ptr>, free: seq<Ptr>, links: map<Ptr, Option<Ptr>>, live: set<Ptr>, blocks: set<Ptr>, p: Ptr)
    requires FreeOk(head, free, links, live, blocks) && p in live
    ensures FreeOk(Some(p), [p] + free, links[p := head], live - {p}, blocks)
  {
    assert p !in ToSet(free);
    ChainKept(head, free, links, p, head);
    assert ([p] + free)[1..] == free;
    assert ToSet([p] + free) == ToSet(free) + {p};
  }

  lemma FreeEmpty(head: Option<Ptr>, free: seq<Ptr>, links: map<Ptr, Option<Ptr>>, live: set<Ptr>, blocks: set<Ptr>, p: Ptr)
    requires FreeOk(head, free, links, live, blocks) && head.None? && p !in blocks
    ensures free == [] && live == blocks && FreeOk(head, free, links, live + {p}, blocks + {p})
  {
    assert ToSet([]) == {};
  }

  /** With nothing free, a further block makes one more live block. */
  lemma AllLive(head: Option<Ptr>, free: seq<Ptr>, links: map<Ptr, Option<Ptr>>, live: set<Ptr>, blocks: set<Ptr>, p: Ptr)
    requires FreeOk(head, free, links, live, blocks) && head.None? && p !in blocks
    ensures p !in live && FreeOk(head, free, links, live + {p}, blocks + {p})
    ensures |blocks + {p}| == |live + {p}| == |blocks| + 1
  {
    hide *;
    FreeEmpty(head, free, links, live, blocks, p);
  }

  lemma SubsetSize(a: set<Ptr>, b: set<Ptr>)
    requires a <= b
    ensures |a| <= |b|
  {
    assert b == a + (b - a);
  }

  lemma {:induction false} DistinctSize(s: seq<Ptr>)
    requires Distinct(s)
    ensures |ToSet(s)| == |s|
  {
    if s != [] {
      var init, last := s[..|s| - 1], s[|s| - 1];
      DistinctSize(init);
      assert forall i :: 0 <= i < |init| ==> init[i] != last;
      assert s == init + [last];
      assert ToSet(s) == ToSet(init) + {last};
    }
  }

  // ----- counting -----

  /** With `n` real batches, all full but the last, `peak` blocks have been carved. */
  predicate CountsOk(n: nat, z: Sizes, carved: nat, peak: nat) {
    if n == 0 then peak == 0 else carved > 0 && Carved(n, z, carved, peak)
  }

  predicate Carved(n: nat, z: Sizes, carved: nat, peak: nat) {
    n > 0 && peak == (n - 1) * z.perBatch + carved
  }

  lemma OneMoreCarved(n: nat, z: Sizes, carved: nat, peak: nat)
    requires Carved(n, z, carved, peak)
    ensures CountsOk(n, z, carved + 1, peak + 1)
  {
  }

  class BatchAllocator {
    const sizes: Sizes
    var batches: seq<BatchInfo>
    var head: nat
    var current: nat
    var freeHead: Option<Ptr>
    /** The word at the start of each released block. */
    var links: map<Ptr, Option<Ptr>>

    ghost var live: set<Ptr>
    ghost var free: seq<Ptr>
    /** Every block carved so far, and the number of them carved off the current batch. */
    ghost var blocks: set<Ptr>
    ghost var carved: nat
    /** The largest number of live blocks so far. */
    ghost var peak: nat

    ghost predicate Valid()
      reads this
    {
      && BatchesOk(batches, sizes, carved) && head == current == Current(batches)
      && BlocksOk(batches, sizes, blocks)
      && FreeOk(freeHead, free, links, live, blocks)
      && |blocks| == peak && CountsOk(|batches| - 1, sizes, carved, peak)
    }

    /** The objects of a page are a multiple of those of a block, as the source expects. */
    constructor (sizes: Sizes)
      requires sizes.Ok() && sizes.PerPage() >= 16
      ensures Valid() && this.sizes == sizes && live == {} && free == [] && peak == 0
    {
      this.sizes := sizes;
      batches := [BatchInfo(None, 0, 0)];
      head, current, freeHead, links := 0, 0, None, map[];
      live, free, blocks, carved, peak := {}, [], {}, sizes.perBatch, 0;
    }

    /** Makes the current batch one that is not used up. */
    method FindBatch()
      requires Valid()
      modifies `batches, `head, `current, `carved
      ensures BatchesOk(batches, sizes, carved) && BlocksOk(batches, sizes, blocks) && head == current == Current(batches)
      ensures |batches| > 1 && batches[current].used != batches[current].end
      ensures Carved(|batches| - 1, sizes, carved, peak)
    {
      hide BlocksOk, FreeOk;
      if batches[current].used == batches[current].end {
        var b := batches[current].next;
        while b.Some? && batches[b.value].used == batches[b.value].end
          modifies {}
          invariant b.Some? ==> 0 <= b.value < |batches| - 1
          decreases if b.Some? then b.value + 1 else 0
        {
          b := batches[b.value].next;
        }
        assert b.None?;
        NewBatch(batches, sizes, carved, blocks);
        BatchIsFull(|batches| - 1, sizes, carved, peak);
        batches := batches + [BatchInfo(Some(head), 0, sizes.PerPage())];
        current := |batches| - 1;
        head := current;
        carved := 0;
        PagesArePositive(sizes);
      }
    }

    /** Pops the free list. */
    method TakeFree() returns (p: Ptr)
      requires Valid() && freeHead.Some?
      modifies `freeHead, `free, `live
      ensures Valid() && live == old(live) + {p} && p !in old(live) && |live| <= peak
    {
      hide BatchesOk, BlocksOk, FreeOk;
      FreeTaken(freeHead, free, links, live, blocks);
      p := freeHead.value;
      freeHead := links[p];
      free := free[1..];
      live := live + {p};
      LiveAreBlocks(freeHead, free, links, live, blocks);
    }

    /** Carves a new block; nothing was free, so every block is live and the peak rises. */
    method Carve() returns (p: Ptr)
      requires Valid() && freeHead.None?
      modifies `batches, `head, `current, `carved, `blocks, `live, `peak
      ensures Valid() && live == old(live) + {p} && p !in old(live) && |live| == peak == old(peak) + 1
    {
      hide BatchesOk, BlocksOk, FreeOk, CountsOk, Carved;
      FindBatch();
      OneMoreCarved(|batches| - 1, sizes, carved, peak);
      ghost var before := blocks;
      p := Bump();
      AllLive(freeHead, free, links, live, before, p);
      live, peak := live + {p}, peak + 1;
    }

    /** Takes the next block off a batch that is not used up. */
    method Bump() returns (p: Ptr)
      requires BatchesOk(batches, sizes, carved) && BlocksOk(batches, sizes, blocks) && current == Current(batches)
      requires |batches| > 1 && batches[current].used != batches[current].end
      modifies `batches, `carved, `blocks
      ensures BatchesOk(batches, sizes, carved) && BlocksOk(batches, sizes, blocks) && current == Current(batches)
      ensures |batches| == old(|batches|) && carved == old(carved) + 1
      ensures p !in old(blocks) && blocks == old(blocks) + {p}
    {
      hide BatchesOk, BlocksOk;
      Bumped(batches, sizes, carved, blocks);
      p := Ptr(current, batches[current].used);
      batches := batches[current := batches[current].(used := batches[current].used + sizes.perBlock)];
      carved, blocks := carved + 1, blocks + {p};
    }

    /** `allocate` */
    method Allocate() returns (p: Ptr)
      requires Valid()
      modifies this
      ensures Valid() && live == old(live) + {p} && p !in old(live)
      ensures peak == if |live| > old(peak) then |live| else old(peak)
    {
      if freeHead.Some? {
        p := TakeFree();
      } else {
        p := Carve();
      }
    }

    /** `release`; the block handed back must be live. */
    method Release(p: Ptr)
      requires Valid() && p in live
      modifies `freeHead, `links, `live, `free
      ensures Valid() && live == old(live) - {p} && free == [p] + old(free)
    {
      hide BatchesOk, BlocksOk, FreeOk;
      FreeGiven(freeHead, free, links, live, blocks, p);
      links := links[p := freeHead];
      freeHead := Some(p);
      live := live - {p};
      free := [p] + free;
    }

    /** What holds between any two operations of any run. */
    lemma Guarantees()
      requires Valid()
      ensures forall p, q :: p in live && q in live && p != q ==> Apart(p, q, sizes.perBlock)
      ensures forall p :: p in live ==> 0 < p.batch < |batches| && p.offset + sizes.perBlock <= batches[p.batch].end == sizes.PerPage()
      ensures |blocks| == |live| + |free| == peak
      ensures |batches| - 1 == CeilDiv(peak, sizes.perBatch)
    {
      hide Chain, Apart;
      DistinctSize(free);
      BatchCount(|batches| - 1, sizes, carved, peak);
    }
  }

  lemma LiveAreBlocks(head: Option<Ptr>, free: seq<Ptr>, links: map<Ptr, Option<Ptr>>, live: set<Ptr>, blocks: set<Ptr>)
    requires FreeOk(head, free, links, live, blocks)
    ensures |live| <= |blocks|
  {
    SubsetSize(live, blocks);
  }

  lemma BatchIsFull(n: nat, z: Sizes, carved: nat, peak: nat)
    requires CountsOk(n, z, carved, peak) && carved == z.perBatch
    ensures peak == n * z.perBatch
  {
    if n > 0 {
      assert n * z.perBatch == (n - 1) * z.perBatch + z.perBatch;
    }
  }

  lemma PagesArePositive(z: Sizes)
    requires z.Ok()
    ensures z.PerPage() > 0
  {
  }

  lemma BatchCount(n: nat, z: Sizes, carved: nat, peak: nat)
    requires z.Ok() && carved <= z.perBatch && CountsOk(n, z, carved, peak)
    ensures n == CeilDiv(peak, z.perBatch)
  {
    if n > 0 {
      assert n * z.perBatch == (n - 1) * z.perBatch + z.perBatch;
    }
    CeilDivUnique(peak, z.perBatch, n);
  }
}
