/**
 What the tracker tree looks like after some of the leaf sections of a test have run, and which
 leaf section the next cycle runs.
 */
module TrackerSchedule {
  import opened TrackerTree

  /** A test case or section: its body runs its subsections one after the other. */
  datatype Section = Section(id: NameAndLocation, children: seq<Section>)

  /** Sibling sections have different names or locations. */
  predicate Distinct(s: Section) {
    && (forall i, j :: 0 <= i < j < |s.children| ==> s.children[i].id != s.children[j].id)
    && (forall i :: 0 <= i < |s.children| ==> Distinct(s.children[i]))
  }

  // ----- counting leaves -----

  function Leaves(s: Section): (n: nat)
    ensures n >= 1
    decreases s
  {
    if s.children == [] then 1 else LeavesOf(s.children)
  }

  function LeavesOf(ss: seq<Section>): (n: nat)
    ensures ss != [] ==> n >= 1
    decreases ss
  {
    if ss == [] then 0 else Leaves(ss[0]) + LeavesOf(ss[1..])
  }

  /** The number of leaves in the first `i` sections. */
  function Before(ss: seq<Section>, i: nat): nat
    requires i <= |ss|
  {
    if i == 0 then 0 else Leaves(ss[0]) + Before(ss[1..], i - 1)
  }

  lemma {:induction false} BeforeNext(ss: seq<Section>, i: nat)
    requires i < |ss|
    ensures Before(ss, i + 1) == Before(ss, i) + Leaves(ss[i])
    ensures Before(ss, i + 1) <= LeavesOf(ss) && Before(ss, |ss|) == LeavesOf(ss)
    ensures i + 1 < |ss| ==> Before(ss, i + 1) < LeavesOf(ss)
    decreases |ss|
  {
    if i > 0 {
      BeforeNext(ss[1..], i - 1);
    } else if |ss| > 1 {
      BeforeNext(ss[1..], 0);
    }
  }

  // ----- the tree after k leaves -----

  function Clamp(k: int, n: nat): (r: nat)
    ensures r <= n
  {
    if k <= 0 then 0 else if k >= n then n else k
  }

  /** The tracker of a section of which `k` leaves have been run, between two cycles. */
  function After(s: Section, k: nat): Tracker
    requires k <= Leaves(s)
    decreases s, 1
  {
    if k == 0 then Tracker(s.id, NotStarted, [])
    else if s.children == [] then Tracker(s.id, CompletedSuccessfully, [])
    else Tracker(s.id, if k == Leaves(s) then CompletedSuccessfully else ExecutingChildren, AfterAll(s.children, k))
  }

  function AfterAll(ss: seq<Section>, k: int): (r: seq<Tracker>)
    ensures |r| == |ss|
    decreases ss, 0
  {
    if ss == [] then []
    else [After(ss[0], Clamp(k, Leaves(ss[0])))] + AfterAll(ss[1..], k - Leaves(ss[0]))
  }

  lemma {:induction false} AfterAllAt(ss: seq<Section>, k: int, i: nat)
    requires i < |ss|
    ensures AfterAll(ss, k)[i] == After(ss[i], Clamp(k - Before(ss, i), Leaves(ss[i])))
  {
    if i > 0 {
      AfterAllAt(ss[1..], k - Leaves(ss[0]), i - 1);
    }
  }

  /** The children known to a section's tracker when `k` of its leaves have been run. */
  function Kids(s: Section, k: nat): seq<Tracker> {
    if k == 0 then [] else AfterAll(s.children, k)
  }

  /** Running one more leaf changes exactly the child that contains it. */
  lemma OneMoreLeaf(ss: seq<Section>, k: nat, i: nat)
    requires i < |ss| && Before(ss, i) <= k < Before(ss, i) + Leaves(ss[i])
    ensures AfterAll(ss, k)[i := After(ss[i], k - Before(ss, i) + 1)] == AfterAll(ss, k + 1)
  {
    var a, b := AfterAll(ss, k)[i := After(ss[i], k - Before(ss, i) + 1)], AfterAll(ss, k + 1);
    forall j | 0 <= j < |ss| ensures a[j] == b[j] {
      AfterAllAt(ss, k, j);
      AfterAllAt(ss, k + 1, j);
      BeforeOrder(ss, i, j);
    }
  }

  lemma {:induction false} BeforeOrder(ss: seq<Section>, i: nat, j: nat)
    requires i < |ss| && j < |ss|
    ensures i < j ==> Before(ss, i) + Leaves(ss[i]) <= Before(ss, j)
    ensures j < i ==> Before(ss, j) + Leaves(ss[j]) <= Before(ss, i)
    decreases if i < j then j - i else i - j
  {
    if i + 1 < j {
      BeforeOrder(ss, i, j - 1);
      BeforeNext(ss, j - 1);
    } else if j + 1 < i {
      BeforeOrder(ss, i - 1, j);
      BeforeNext(ss, i - 1);
    } else if i < j {
      BeforeNext(ss, i);
    } else if j < i {
      BeforeNext(ss, j);
    }
  }

  lemma AfterId(s: Section, k: nat)
    requires k <= Leaves(s)
    ensures After(s, k).id == s.id
    ensures After(s, k).IsComplete() <==> k == Leaves(s)
    ensures After(s, k).children == Kids(s, k)
    ensures k == 0 ==> !After(s, k).IsOpen()
    ensures !After(s, k).IsOpen() <==> k == 0 || k == Leaves(s)
  {
  }

  // ----- which leaf comes next -----

  /** The index of the child that contains leaf `k`. */
  function Active(ss: seq<Section>, k: nat): (i: nat)
    requires k < LeavesOf(ss)
    ensures i < |ss|
  {
    if k < Leaves(ss[0]) then 0 else 1 + Active(ss[1..], k - Leaves(ss[0]))
  }

  lemma {:induction false} ActiveContains(ss: seq<Section>, k: nat)
    requires k < LeavesOf(ss)
    ensures Before(ss, Active(ss, k)) <= k < Before(ss, Active(ss, k)) + Leaves(ss[Active(ss, k)])
  {
    if k >= Leaves(ss[0]) {
      ActiveContains(ss[1..], k - Leaves(ss[0]));
    }
  }

  /** It is the only one that does. */
  lemma ActiveUnique(ss: seq<Section>, k: nat, i: nat)
    requires i < |ss| && Before(ss, i) <= k < Before(ss, i) + Leaves(ss[i])
    ensures k < LeavesOf(ss) && Active(ss, k) == i
  {
    BeforeNext(ss, i);
    ActiveContains(ss, k);
    BeforeOrder(ss, i, Active(ss, k));
  }

  /** The address of leaf `k`: the child indices from the section down to it. */
  function Route(s: Section, k: nat): seq<nat>
    requires k < Leaves(s)
    decreases s
  {
    if s.children == [] then []
    else
      var i := Active(s.children, k);
      ActiveContains(s.children, k);
      [i] + Route(s.children[i], k - Before(s.children, i))
  }

  /** The addresses entered on the way from `a` along `route`, outermost first. */
  function Entered(a: seq<nat>, route: seq<nat>): seq<seq<nat>>
    decreases route
  {
    if route == [] then [] else [a + [route[0]]] + Entered(a + [route[0]], route[1..])
  }

  // ----- the routes are the leaves in source order -----

  predicate IsLeafAddress(s: Section, a: seq<nat>) {
    if a == [] then s.children == []
    else a[0] < |s.children| && IsLeafAddress(s.children[a[0]], a[1..])
  }

  /** The order in which addresses appear in the source. */
  predicate Earlier(a: seq<nat>, b: seq<nat>) {
    a != [] && b != [] && (a[0] < b[0] || (a[0] == b[0] && Earlier(a[1..], b[1..])))
  }

  lemma {:induction false} RouteIsLeaf(s: Section, k: nat)
    requires k < Leaves(s)
    ensures IsLeafAddress(s, Route(s, k))
    decreases s
  {
    if s.children != [] {
      var i := Active(s.children, k);
      ActiveContains(s.children, k);
      RouteIsLeaf(s.children[i], k - Before(s.children, i));
      assert Route(s, k)[1..] == Route(s.children[i], k - Before(s.children, i));
    }
  }

  lemma {:induction false} LeafHasRoute(s: Section, a: seq<nat>) returns (k: nat)
    requires IsLeafAddress(s, a)
    ensures k < Leaves(s) && Route(s, k) == a
    decreases s
  {
    if a == [] {
      k := 0;
    } else {
      var i := a[0];
      var j := LeafHasRoute(s.children[i], a[1..]);
      k := Before(s.children, i) + j;
      ActiveUnique(s.children, k, i);
      assert a == [i] + a[1..];
    }
  }

  lemma {:induction false} RoutesAscend(s: Section, k: nat, l: nat)
    requires k < l < Leaves(s)
    ensures Earlier(Route(s, k), Route(s, l))
    decreases s
  {
    var i, j := Active(s.children, k), Active(s.children, l);
    ActiveContains(s.children, k);
    ActiveContains(s.children, l);
    BeforeOrder(s.children, i, j);
    var r, t := Route(s, k), Route(s, l);
    assert r[1..] == Route(s.children[i], k - Before(s.children, i));
    assert t[1..] == Route(s.children[j], l - Before(s.children, j));
    if i == j {
      RoutesAscend(s.children[i], k - Before(s.children, i), l - Before(s.children, i));
    }
  }
}
