/**
 `TrackerContext`, `SectionTracker` and the rerun loop of `RunContext::runTest`, for a test whose
 bodies never throw, without filters, generators or abort.

 The loop reruns the whole test body once per cycle.  The trackers decide which sections a cycle
 enters; the theorem is the contract of `RunTest`.
 */
module TrackerRun {
  import opened TrackerTree
  import opened TrackerSchedule

  // ----- what single operations do to a tree -----

  /** The position of the first child with this name and location, or the number of children. */
  function FindChild(children: seq<Tracker>, id: NameAndLocation): (i: nat)
    ensures i <= |children| && (i < |children| ==> children[i].id == id)
    ensures forall j :: 0 <= j < i ==> children[j].id != id
  {
    if children == [] || children[0].id == id then 0 else 1 + FindChild(children[1..], id)
  }

  /** The children after `acquire` found or added the one asked for. */
  function WithChild(children: seq<Tracker>, id: NameAndLocation): (r: seq<Tracker>)
    ensures FindChild(children, id) < |r|
  {
    if FindChild(children, id) < |children| then children else children + [Tracker(id, NotStarted, [])]
  }

  /** `openChild`: upwards until a tracker that is already executing its children. */
  function Marked(t: Tracker, p: Path): Tracker
    requires IsPath(t, p)
    decreases |p|
  {
    if At(t, p).state == ExecutingChildren then t
    else
      var t' := Set(t, p, At(t, p).(state := ExecutingChildren));
      if p == [] then t'
      else
        AtSet(t, p, At(t, p).(state := ExecutingChildren));
        ParentExecuting(t', p);
        Marked(t', p[..|p| - 1])
  }

  /** With all ancestors marked already, only the tracker itself changes. */
  lemma MarkedOnce(t: Tracker, p: Path)
    requires IsPath(t, p) && AboveExecuting(t, p)
    ensures Marked(t, p) == Set(t, p, At(t, p).(state := ExecutingChildren))
  {
    var u := At(t, p).(state := ExecutingChildren);
    if At(t, p).state == ExecutingChildren {
      SetAt(t, p);
    } else if p != [] {
      AtSet(t, p, u);
      AboveExecutingSet(t, p, u);
      ParentExecuting(Set(t, p, u), p);
    }
  }

  /** The path of the child `acquire` finds or adds, in the tree with that child. */
  lemma ChildIsPath(r: Tracker, cur: Path, id: NameAndLocation)
    requires IsPath(r, cur)
    ensures var t := At(r, cur);
            var kids, i := WithChild(t.children, id), FindChild(t.children, id);
            var u := Set(r, cur, t.(children := kids));
            && IsPath(u, cur) && IsPath(u, cur + [i]) && At(u, cur + [i]) == kids[i]
            && IsPath(Set(u, cur + [i], kids[i].(state := Executing)), cur + [i])
            && At(Set(u, cur + [i], kids[i].(state := Executing)), cur + [i]) == kids[i].(state := Executing)
            && IsPath(Set(u, cur + [i], kids[i].(state := Executing)), cur)
  {
    hide Set, At, WithChild, FindChild;
    var t := At(r, cur);
    var kids, i := WithChild(t.children, id), FindChild(t.children, id);
    AtSet(r, cur, t.(children := kids));
    var u := Set(r, cur, t.(children := kids));
    var running := kids[i].(state := Executing);
    SetChild(u, cur, i, running);
    AtSet(u, cur + [i], running);
    AtSet(u, cur, At(u, cur).(children := kids[i := running]));
  }

  /** The tree after `acquire`: a child that is opened marks its ancestors. */
  function Acquired(r: Tracker, cur: Path, id: NameAndLocation, done: bool): Tracker
    requires IsPath(r, cur)
  {
    ChildIsPath(r, cur, id);
    var t := At(r, cur);
    var kids, i := WithChild(t.children, id), FindChild(t.children, id);
    var u := Set(r, cur, t.(children := kids));
    if done || kids[i].IsComplete() then u else Marked(Set(u, cur + [i], kids[i].(state := Executing)), cur)
  }

  /** Marking ancestors leaves everything below them alone. */
  lemma {:induction false} MarkedBelow(t: Tracker, q: Path, p: Path)
    requires IsPath(t, q) && IsPath(t, p) && q < p
    ensures IsPath(Marked(t, q), p) && At(Marked(t, q), p) == At(t, p)
    decreases |q|
  {
    hide Set, At;
    var u := At(t, q).(state := ExecutingChildren);
    if At(t, q).state != ExecutingChildren {
      StateBelow(t, q, p, ExecutingChildren);
      if q != [] {
        AtSet(t, q, u);
        ParentExecuting(Set(t, q, u), q);
        MarkedBelow(Set(t, q, u), q[..|q| - 1], p);
      }
    }
  }

  lemma AcquiredChild(r: Tracker, cur: Path, id: NameAndLocation, done: bool)
    requires IsPath(r, cur)
    ensures var t, r' := At(r, cur), Acquired(r, cur, id, done);
            var kids, i := WithChild(t.children, id), FindChild(t.children, id);
            && IsPath(r', cur + [i])
            && At(r', cur + [i]) == if done || kids[i].IsComplete() then kids[i] else kids[i].(state := Executing)
  {
    hide Set, At, WithChild, FindChild, Marked;
    ChildIsPath(r, cur, id);
    var t := At(r, cur);
    var kids, i := WithChild(t.children, id), FindChild(t.children, id);
    if !done && !kids[i].IsComplete() {
      MarkedBelow(Set(Set(r, cur, t.(children := kids)), cur + [i], kids[i].(state := Executing)), cur, cur + [i]);
    }
  }

  /** With all ancestors marked already, only the current tracker and its child change. */
  lemma AcquiredSimply(r: Tracker, cur: Path, id: NameAndLocation, done: bool)
    requires IsPath(r, cur) && AboveExecuting(r, cur)
    ensures var t := At(r, cur);
            var kids, i := WithChild(t.children, id), FindChild(t.children, id);
            Acquired(r, cur, id, done) ==
            Set(r, cur, if done || kids[i].IsComplete() then t.(children := kids)
                        else t.(state := ExecutingChildren, children := kids[i := kids[i].(state := Executing)]))
  {
    hide Set, At, WithChild, FindChild, Marked;
    ChildIsPath(r, cur, id);
    var t := At(r, cur);
    var kids, i := WithChild(t.children, id), FindChild(t.children, id);
    if !done && !kids[i].IsComplete() {
      var here := t.(children := kids);
      var running := kids[i].(state := Executing);
      var here' := here.(children := kids[i := running]);
      var u := Set(r, cur, here);
      AtSet(r, cur, here);
      SetChild(u, cur, i, running);
      SetTwice(r, cur, here, here');
      AtSet(r, cur, here');
      AboveExecutingSet(r, cur, here');
      MarkedOnce(Set(r, cur, here'), cur);
      SetTwice(r, cur, here', here'.(state := ExecutingChildren));
    }
  }

  /** From the tracker at `p` down to that at `cur` all trackers are open. */
  predicate OpenBetween(t: Tracker, p: Path, cur: Path)
    decreases |cur|
  {
    p <= cur && IsPath(t, cur) && At(t, cur).IsOpen() && (p == cur || OpenBetween(t, p, cur[..|cur| - 1]))
  }

  lemma {:induction false} OpenAbove(t: Tracker, p: Path, cur: Path, q: Path, u: Tracker)
    requires OpenBetween(t, p, cur) && IsPath(t, q) && cur < q
    ensures OpenBetween(Set(t, q, u), p, cur)
    decreases |cur|
  {
    hide Set, At;
    StateAbove(t, q, cur, u);
    if p != cur {
      OpenAbove(t, p, cur[..|cur| - 1], q, u);
    }
  }

  /** The tree after the trackers from `cur` up to `p` were closed. */
  function ClosedUpTo(t: Tracker, cur: Path, p: Path): Tracker
    requires OpenBetween(t, p, cur)
    decreases |cur|
  {
    var u := Set(t, cur, Closed(At(t, cur)));
    if cur == p then u
    else
      OpenAbove(t, p, cur[..|cur| - 1], cur, Closed(At(t, cur)));
      ClosedUpTo(u, cur[..|cur| - 1], p)
  }

  lemma ClosedOne(t: Tracker, cur: Path, p: Path)
    requires OpenBetween(t, p, cur)
    ensures p <= cur && IsPath(t, cur) && At(t, cur).IsOpen()
    ensures var u := Set(t, cur, Closed(At(t, cur)));
            if cur == p then ClosedUpTo(t, cur, p) == u
            else OpenBetween(u, p, cur[..|cur| - 1]) && ClosedUpTo(t, cur, p) == ClosedUpTo(u, cur[..|cur| - 1], p)
  {
    hide Set, At, Closed;
    if cur != p {
      OpenAbove(t, p, cur[..|cur| - 1], cur, Closed(At(t, cur)));
    }
  }

  /** The state of a tracker after `close`. */
  function Closed(t: Tracker): Tracker {
    match t.state
    case Executing => t.(state := CompletedSuccessfully)
    case ExecutingChildren =>
      if t.children == [] || t.children[|t.children| - 1].IsComplete() then t.(state := CompletedSuccessfully) else t
    case _ => t
  }

  // ----- a body in progress -----

  /** A section's tracker after its body has passed `i` subsections, `k` leaves having run before. */
  function During(s: Section, k: nat, i: nat, done: bool): Tracker
    requires i <= |s.children|
  {
    if !done then Tracker(s.id, Executing, Kids(s, k))
    else Tracker(s.id, ExecutingChildren, if k == 0 then AfterAll(s.children, 1)[..i] else AfterAll(s.children, k + 1))
  }

  /** The body has passed leaf `k` exactly when it has completed the cycle. */
  predicate InStep(s: Section, k: nat, i: nat, done: bool)
    requires i <= |s.children|
  {
    done <==> Before(s.children, i) > k
  }

  /** A section's tracker when its body has ended and it is about to be closed. */
  function BodyDone(s: Section, k: nat): Tracker {
    During(s, k, |s.children|, s.children != [])
  }

  /** Closing it leaves the section with one more leaf done. */
  lemma CloseBody(s: Section, k: nat)
    requires k < Leaves(s)
    ensures BodyDone(s, k).IsOpen() && Closed(BodyDone(s, k)) == After(s, k + 1)
  {
    if s.children != [] {
      LastKid(s, k);
      hide AfterAll, LeavesOf;
      assert Leaves(s) == LeavesOf(s.children);
    }
  }

  /** The last subsection's tracker is complete exactly when all leaves are done. */
  lemma LastKid(s: Section, k: nat)
    requires s.children != [] && k < Leaves(s)
    ensures var kids := BodyDone(s, k).children;
            kids == AfterAll(s.children, k + 1) && kids != [] && (kids[|kids| - 1].IsComplete() <==> k + 1 == Leaves(s))
  {
    hide After, AfterAll;
    var last := |s.children| - 1;
    var all := AfterAll(s.children, k + 1);
    assert all[..last + 1] == all;
    AfterAllAt(s.children, k + 1, last);
    BeforeNext(s.children, last);
    AfterId(s.children[last], Clamp(k + 1 - Before(s.children, last), Leaves(s.children[last])));
  }

  lemma ChildIds(s: Section, k: int, n: nat)
    requires n <= |s.children|
    ensures forall j :: 0 <= j < n ==> AfterAll(s.children, k)[..n][j].id == s.children[j].id
  {
    forall j | 0 <= j < n ensures AfterAll(s.children, k)[..n][j].id == s.children[j].id {
      AfterAllAt(s.children, k, j);
      AfterId(s.children[j], Clamp(k - Before(s.children, j), Leaves(s.children[j])));
    }
  }

  /** The trackers of all subsections, of which `n` are known: number `i` is found or added. */
  lemma FindsOrAdds(s: Section, k: nat, n: nat, i: nat)
    requires Distinct(s) && i <= n <= |s.children| && i < |s.children|
    ensures var kids := AfterAll(s.children, k)[..n];
            && FindChild(kids, s.children[i].id) == i
            && (i < n ==> WithChild(kids, s.children[i].id) == kids)
            && (i == n ==> WithChild(kids, s.children[i].id) == kids + [Tracker(s.children[i].id, NotStarted, [])])
  {
    hide AfterAll;
    var kids, id := AfterAll(s.children, k)[..n], s.children[i].id;
    ChildIds(s, k, n);
    assert forall j :: 0 <= j < i ==> s.children[j].id != id;
    FirstWith(kids, id, i);
  }

  /** The progress of subsection `i` when a body with `k` leaves done meets it. */
  function Local(s: Section, k: nat, i: nat, done: bool): (n: nat)
    requires i < |s.children|
    ensures n <= Leaves(s.children[i])
  {
    Clamp((if done then k + 1 else k) - Before(s.children, i), Leaves(s.children[i]))
  }

  lemma NothingAfterZero(s: Section)
    ensures After(s, 0) == Tracker(s.id, NotStarted, [])
  {
  }

  /** Acquiring subsection `i` after the leaf of this cycle has run. */
  lemma AcquireWhenDone(s: Section, k: nat, i: nat)
    requires Distinct(s) && i < |s.children| && InStep(s, k, i, true)
    ensures var kids := During(s, k, i, true).children;
            && FindChild(kids, s.children[i].id) == i
            && WithChild(kids, s.children[i].id) == During(s, k, i + 1, true).children
            && WithChild(kids, s.children[i].id)[i] == After(s.children[i], 0)
            && Local(s, k, i, true) == 0
  {
    hide After, AfterAll, FindChild, WithChild, Leaves, Before;
    var all := AfterAll(s.children, k + 1);
    AfterAllAt(s.children, k + 1, i);
    NothingAfterZero(s.children[i]);
    if k == 0 {
      FindsOrAdds(s, 1, i, i);
      assert all[..i + 1] == all[..i] + [all[i]];
    } else {
      assert all[..|s.children|] == all;
      FindsOrAdds(s, k + 1, |s.children|, i);
    }
  }

  /** Acquiring subsection `i` while the cycle still has to run its leaf. */
  lemma AcquireBefore(s: Section, k: nat, i: nat)
    requires Distinct(s) && i < |s.children| && InStep(s, k, i, false)
    ensures var kids := WithChild(Kids(s, k), s.children[i].id);
            && FindChild(Kids(s, k), s.children[i].id) == i
            && kids[i] == After(s.children[i], Local(s, k, i, false))
            && (k > 0 ==> kids == AfterAll(s.children, k))
            && (k == 0 ==> i == 0 && kids == [After(s.children[0], 0)])
  {
    hide AfterAll;
    if k == 0 {
      BeforePositive(s.children, i);
      FirstWith([], s.children[0].id, 0);
    } else {
      hide After, FindChild, WithChild, Leaves;
      var all := AfterAll(s.children, k);
      assert all[..|s.children|] == all;
      AfterAllAt(s.children, k, i);
      FindsOrAdds(s, k, |s.children|, i);
    }
  }

  /** Subsection `i` holds leaf `k`, and `kids` are the trackers of its parent before it runs. */
  predicate HoldsLeaf(s: Section, k: nat, i: nat, kids: seq<Tracker>) {
    && i < |s.children| && Before(s.children, i) <= k < Before(s.children, i) + Leaves(s.children[i])
    && (k > 0 ==> kids == AfterAll(s.children, k))
    && (k == 0 ==> i == 0 && kids == [After(s.children[0], 0)])
    && i < |kids| && kids[i] == After(s.children[i], k - Before(s.children, i))
  }

  /** What a running body finds at subsection `i`: nothing to do there, or the leaf's section. */
  predicate Meets(s: Section, k: nat, i: nat, done: bool, kids: seq<Tracker>)
    requires i < |s.children|
  {
    var t, child := During(s, k, i, done), s.children[i];
    && kids == WithChild(t.children, child.id) && FindChild(t.children, child.id) == i < |kids| && t.id == s.id
    && if done || kids[i].IsComplete() then
         !kids[i].IsOpen() && InStep(s, k, i + 1, done) && t.(children := kids) == During(s, k, i + 1, done)
       else
         HoldsLeaf(s, k, i, kids) && InStep(s, k, i + 1, true)
  }

  lemma MeetsWhenDone(s: Section, k: nat, i: nat)
    requires Distinct(s) && i < |s.children| && InStep(s, k, i, true)
    ensures Meets(s, k, i, true, WithChild(During(s, k, i, true).children, s.children[i].id))
  {
    hide After, AfterAll, Leaves, FindChild, WithChild, Before;
    AcquireWhenDone(s, k, i);
    BeforeNext(s.children, i);
    AfterId(s.children[i], 0);
  }

  lemma MeetsBefore(s: Section, k: nat, i: nat)
    requires Distinct(s) && i < |s.children| && InStep(s, k, i, false)
    ensures Meets(s, k, i, false, WithChild(During(s, k, i, false).children, s.children[i].id))
  {
    hide After, AfterAll, Leaves, FindChild, WithChild, Before, Local, Kids, HoldsLeaf;
    AcquireBefore(s, k, i);
    BeforeNext(s.children, i);
    var n := Local(s, k, i, false);
    AfterId(s.children[i], n);
    LocalIs(s, k, i);
    if n != Leaves(s.children[i]) {
      HoldsLeafWhen(s, k, i, WithChild(Kids(s, k), s.children[i].id));
    } else {
      KidsStay(s, k, i, WithChild(Kids(s, k), s.children[i].id));
    }
  }

  lemma LocalIs(s: Section, k: nat, i: nat)
    requires i < |s.children| && InStep(s, k, i, false)
    ensures Local(s, k, i, false)
            == if Before(s.children, i + 1) <= k then Leaves(s.children[i]) else k - Before(s.children, i)
    ensures Before(s.children, i + 1) <= k <==> Local(s, k, i, false) == Leaves(s.children[i])
  {
    hide Before, Leaves;
    BeforeNext(s.children, i);
  }

  lemma HoldsLeafWhen(s: Section, k: nat, i: nat, kids: seq<Tracker>)
    requires i < |s.children| && Before(s.children, i) <= k < Before(s.children, i + 1)
    requires i < |kids| && kids[i] == After(s.children[i], Local(s, k, i, false))
    requires k > 0 ==> kids == AfterAll(s.children, k)
    requires k == 0 ==> i == 0 && kids == [After(s.children[0], 0)]
    ensures HoldsLeaf(s, k, i, kids)
  {
    hide After, AfterAll, Leaves, Before;
    BeforeNext(s.children, i);
  }

  /** A finished subsection has its tracker among those of the section already. */
  lemma KidsStay(s: Section, k: nat, i: nat, kids: seq<Tracker>)
    requires i < |s.children| && Before(s.children, i + 1) <= k && (k > 0 ==> kids == AfterAll(s.children, k))
    ensures kids == Kids(s, k)
  {
    hide After, AfterAll;
    BeforePositive(s.children, i + 1);
  }

  lemma BeforePositive(ss: seq<Section>, i: nat)
    requires i <= |ss|
    ensures i > 0 ==> Before(ss, i) > 0
  {
  }

  lemma {:induction false} FirstWith(kids: seq<Tracker>, id: NameAndLocation, i: nat)
    requires i <= |kids| && (i < |kids| ==> kids[i].id == id)
    requires forall j :: 0 <= j < i ==> kids[j].id != id
    ensures FindChild(kids, id) == i
  {
    if i > 0 {
      FirstWith(kids[1..], id, i - 1);
    }
  }

  /** Replacing the active child by itself with one more leaf done ends the step. */
  lemma ActiveChildDone(s: Section, k: nat, i: nat, kids: seq<Tracker>)
    requires HoldsLeaf(s, k, i, kids)
    ensures kids[i := After(s.children[i], k - Before(s.children, i) + 1)] == During(s, k, i + 1, true).children
  {
    if k > 0 {
      OneMoreLeaf(s.children, k, i);
    } else {
      AfterAllAt(s.children, 1, 0);
      assert AfterAll(s.children, 1)[..1] == [AfterAll(s.children, 1)[0]];
    }
  }

  class RunContext {
    // TrackerContext
    var root: Tracker
    var current: Path
    var completedCycle: bool
    // RunContext
    var activeSections: seq<Path>
    /** The addresses of the sections entered in this cycle, and in the finished cycles. */
    var entered: seq<seq<nat>>
    var cycles: seq<seq<seq<nat>>>

    constructor ()
      ensures activeSections == []
    {
      root := Tracker(ROOT_ID, NotStarted, []);
      current, completedCycle, activeSections, entered, cycles := [], false, [], [], [];
    }

    // ----- trackers -----

    method OpenChild(p: Path)
      requires IsPath(root, p)
      modifies `root
      ensures root == Marked(old(root), p)
      decreases |p|
    {
      if At(root, p).state != ExecutingChildren {
        ghost var u := At(root, p).(state := ExecutingChildren);
        AtSet(root, p, u);
        root := Set(root, p, At(root, p).(state := ExecutingChildren));
        if p != [] {
          ParentExecuting(root, p);
          OpenChild(p[..|p| - 1]);
        }
      }
    }

    method Open(p: Path)
      requires IsPath(root, p) && p != []
      modifies `root, `current
      ensures current == p
      ensures IsPath(old(root), p[..|p| - 1])
      ensures var t := Set(old(root), p, At(old(root), p).(state := Executing));
              IsPath(t, p[..|p| - 1]) && root == Marked(t, p[..|p| - 1])
    {
      ParentExecuting(root, p);
      AtSet(root, p, At(root, p).(state := Executing));
      root := Set(root, p, At(root, p).(state := Executing));
      current := p;
      ParentExecuting(root, p);
      OpenChild(p[..|p| - 1]);
    }

    /** `SectionTracker::acquire` */
    method Acquire(id: NameAndLocation) returns (p: Path)
      requires IsPath(root, current)
      modifies `root, `current
      ensures var t := At(old(root), old(current));
              var kids, i := WithChild(t.children, id), FindChild(t.children, id);
              && p == old(current) + [i] && root == Acquired(old(root), old(current), id, completedCycle)
              && current == if completedCycle || kids[i].IsComplete() then old(current) else p
    {
      hide Set, At, Marked;
      ChildIsPath(root, current, id);
      var kids, i := At(root, current).children, FindChild(At(root, current).children, id);
      if i == |kids| {
        kids := kids + [Tracker(id, NotStarted, [])];
      }
      assert kids == WithChild(At(root, current).children, id);
      hide FindChild, WithChild;
      root := Set(root, current, At(root, current).(children := kids));
      p := current + [i];
      if !completedCycle && !kids[i].IsComplete() {
        assert p[..|p| - 1] == current;
        Open(p);
      }
    }

    /** `close` of the current tracker; it is open, so the "illogical state" errors cannot occur. */
    method CloseCurrent()
      requires IsPath(root, current) && current != [] && At(root, current).IsOpen()
      modifies `root, `current, `completedCycle
      ensures root == Set(old(root), old(current), Closed(At(old(root), old(current))))
      ensures current == old(current)[..|old(current)| - 1] && completedCycle
    {
      var t := At(root, current);
      if t.state == Executing {
        t := t.(state := CompletedSuccessfully);
      } else if t.state == ExecutingChildren {
        if t.children == [] || t.children[|t.children| - 1].IsComplete() {
          t := t.(state := CompletedSuccessfully);
        }
      }
      root := Set(root, current, t);
      current := current[..|current| - 1];
      completedCycle := true;
    }

    /** `close`: first every tracker from the current one up to the child of this one, then this one. */
    method Close(p: Path)
      requires p != [] && OpenBetween(root, p, current)
      modifies `root, `current, `completedCycle
      ensures OpenBetween(old(root), p, old(current)) && root == ClosedUpTo(old(root), old(current), p)
      ensures current == p[..|p| - 1] && completedCycle
    {
      hide At, Set, Closed, ClosedUpTo, IsPath;
      while current != p
        invariant OpenBetween(root, p, current) && ClosedUpTo(root, current, p) == ClosedUpTo(old(root), old(current), p)
        decreases |current|
      {
        ClosedOne(root, current, p);
        CloseCurrent();
      }
      ClosedOne(root, current, p);
      CloseCurrent();
    }

    // ----- sections -----

    method SectionStarted(id: NameAndLocation, address: seq<nat>) returns (included: bool)
      requires IsPath(root, current)
      modifies `root, `current, `activeSections, `entered
      ensures root == Acquired(old(root), old(current), id, completedCycle)
      ensures var t := At(old(root), old(current));
              var kids, i := WithChild(t.children, id), FindChild(t.children, id);
              var opens := !completedCycle && !kids[i].IsComplete();
              && current == (if opens then old(current) + [i] else old(current))
              && included == (opens || kids[i].IsOpen())
              && activeSections == old(activeSections) + (if included then [old(current) + [i]] else [])
              && entered == old(entered) + (if included then [address] else [])
    {
      hide Set, At, Marked, FindChild, WithChild, Acquired;
      AcquiredChild(root, current, id, completedCycle);
      var p := Acquire(id);
      assert old(activeSections) + [] == old(activeSections) && old(entered) + [] == old(entered);
      if !At(root, p).IsOpen() {
        return false;
      }
      activeSections := activeSections + [p];
      entered := entered + [address];
      return true;
    }

    method SectionEnded()
      requires activeSections != [] ==>
                 var p := activeSections[|activeSections| - 1]; p != [] && OpenBetween(root, p, current)
      modifies `root, `current, `completedCycle, `activeSections
      ensures old(activeSections) == [] ==>
                && activeSections == [] && root == old(root) && current == old(current) && completedCycle == old(completedCycle)
      ensures old(activeSections) != [] ==>
                var p := old(activeSections)[|old(activeSections)| - 1];
                && OpenBetween(old(root), p, old(current)) && root == ClosedUpTo(old(root), old(current), p)
                && current == p[..|p| - 1] && completedCycle
                && activeSections == old(activeSections)[..|old(activeSections)| - 1]
    {
      hide OpenBetween, ClosedUpTo;
      if activeSections != [] {
        Close(activeSections[|activeSections| - 1]);
        activeSections := activeSections[..|activeSections| - 1];
      }
    }

    // ----- bodies -----

    /** The active subsection: entered, run and ended. */
    method RunActive(s: Section, i: nat, address: seq<nat>, ghost base: Tracker, ghost k: nat, ghost kids: seq<Tracker>)
      requires Distinct(s) && HoldsLeaf(s, k, i, kids)
      requires current != [] && activeSections != [] && activeSections[|activeSections| - 1] == current && !completedCycle
      requires current[|current| - 1] == i && IsPath(base, current[..|current| - 1]) && current[..|current| - 1] != []
      requires AboveExecuting(base, current[..|current| - 1])
      requires root == Set(base, current[..|current| - 1],
                           Tracker(s.id, ExecutingChildren, kids[i := kids[i].(state := Executing)]))
      modifies `root, `current, `completedCycle, `activeSections, `entered
      ensures current == old(current)[..|old(current)| - 1] && completedCycle
      ensures activeSections == old(activeSections)[..|old(activeSections)| - 1]
      ensures root == Set(base, current, During(s, k, i + 1, true))
      ensures entered == old(entered) + Entered(address + [i], Route(s.children[i], k - Before(s.children, i)))
      decreases s, 0
    {
      hide After, AfterAll, Route, Entered, Leaves, Before, BodyDone, During, Closed;
      var child := s.children[i];
      ghost var p, j := current[..|current| - 1], k - Before(s.children, i);
      ghost var here := Tracker(s.id, ExecutingChildren, kids[i := kids[i].(state := Executing)]);
      assert current == p + [i];
      AfterId(child, j);
      AtSet(base, p, here);
      AboveExecutingSet(base, p, here);
      AboveExecutingChild(root, p, i);
      SetChild(root, p, i, kids[i]);
      RunBody(child, address + [i], j);
      ghost var ended := root;
      CloseBody(child, j);
      ghost var r1 := old(root);
      AtSet(r1, current, BodyDone(child, j));
      ClosedOne(root, current, current);
      SectionEnded();
      SetTwice(r1, old(current), BodyDone(child, j), After(child, j + 1));
      SetChild(r1, p, i, After(child, j + 1));
      ghost var here' := here.(children := kids[i := After(child, j + 1)]);
      assert here.children[i := After(child, j + 1)] == kids[i := After(child, j + 1)];
      SetTwice(base, p, here, here');
      ActiveChildDone(s, k, i, kids);
      assert here' == During(s, k, i + 1, true) by { DuringDone(s, k, i + 1); }
    }

    /** A subsection is met: it is passed over, or its tracker is opened to run the leaf. */
    method StartChild(s: Section, i: nat, address: seq<nat>, ghost base: Tracker, ghost k: nat)
      returns (included: bool, ghost kids: seq<Tracker>)
      requires Distinct(s) && k < Leaves(s) && i < |s.children| && InStep(s, k, i, completedCycle)
      requires IsPath(base, current) && AboveExecuting(base, current)
      requires root == Set(base, current, During(s, k, i, completedCycle))
      modifies `root, `current, `activeSections, `entered
      ensures !included ==>
                && current == old(current) && activeSections == old(activeSections) && entered == old(entered)
                && InStep(s, k, i + 1, completedCycle) && root == Set(base, current, During(s, k, i + 1, completedCycle))
      ensures included ==>
                && !completedCycle && HoldsLeaf(s, k, i, kids) && InStep(s, k, i + 1, true)
                && current == old(current) + [i]
                && activeSections == old(activeSections) + [current] && entered == old(entered) + [address + [i]]
                && root == Set(base, old(current),
                               Tracker(s.id, ExecutingChildren, kids[i := kids[i].(state := Executing)]))
    {
      hide After, AfterAll, Leaves, Before, FindChild, WithChild, Set, At, During, InStep, Acquired;
      ghost var p, t := current, During(s, k, i, completedCycle);
      kids := WithChild(t.children, s.children[i].id);
      if completedCycle {
        MeetsWhenDone(s, k, i);
      } else {
        MeetsBefore(s, k, i);
      }
      AtSet(base, p, t);
      AboveExecutingSet(base, p, t);
      SetTwice(base, p, t, t.(children := kids));
      SetTwice(base, p, t, t.(state := ExecutingChildren, children := kids[i := kids[i].(state := Executing)]));
      AcquiredSimply(root, p, s.children[i].id, completedCycle);
      included := SectionStarted(s.children[i].id, address + [i]);
    }

    /** One subsection met by a running body. */
    method RunChild(s: Section, i: nat, address: seq<nat>, ghost base: Tracker, ghost k: nat)
      requires Distinct(s) && k < Leaves(s) && i < |s.children| && InStep(s, k, i, completedCycle)
      requires current != [] && IsPath(base, current) && AboveExecuting(base, current)
      requires root == Set(base, current, During(s, k, i, completedCycle))
      modifies `root, `current, `completedCycle, `activeSections, `entered
      ensures current == old(current) && activeSections == old(activeSections)
      ensures InStep(s, k, i + 1, completedCycle) && root == Set(base, current, During(s, k, i + 1, completedCycle))
      ensures old(completedCycle) ==> completedCycle
      ensures entered == old(entered) +
                         (if completedCycle && !old(completedCycle) then Entered(address, Route(s, k)) else [])
      decreases s, 1
    {
      hide After, AfterAll, Route, Entered, Leaves, Before, Set, At, During, InStep;
      ghost var p := current;
      var included;
      ghost var kids;
      included, kids := StartChild(s, i, address, base, k);
      if included {
        assert current[..|current| - 1] == p;
        RunActive(s, i, address, base, k, kids);
        RouteThrough(s, k, i, address);
        assert activeSections == old(activeSections);
        assert entered == old(entered) + Entered(address, Route(s, k));
      }
    }

    /** Runs the body of a section whose tracker has just been opened. */
    method RunBody(s: Section, address: seq<nat>, ghost k: nat)
      requires Distinct(s) && k < Leaves(s) && !completedCycle
      requires current != [] && IsPath(root, current) && AboveExecuting(root, current)
      requires At(root, current) == Tracker(s.id, Executing, Kids(s, k))
      modifies `root, `current, `completedCycle, `activeSections, `entered
      ensures current == old(current) && activeSections == old(activeSections)
      ensures completedCycle == (s.children != [])
      ensures root == Set(old(root), current, BodyDone(s, k))
      ensures entered == old(entered) + Entered(address, Route(s, k))
      decreases s, 2
    {
      hide After, AfterAll, Route, Entered, Leaves;
      ghost var base := root;
      SetAt(root, current);
      for i := 0 to |s.children|
        invariant current == old(current) && activeSections == old(activeSections)
        invariant InStep(s, k, i, completedCycle)
        invariant root == Set(base, current, During(s, k, i, completedCycle))
        invariant entered == old(entered) + if completedCycle then Entered(address, Route(s, k)) else []
      {
        ghost var before, done := entered, completedCycle;
        RunChild(s, i, address, base, k);
        assert done ==> entered == before;
        assert !done ==> before == old(entered);
      }
      BodyPassedLeaf(s, k, address);
    }

    // ----- the whole run -----

    /** One cycle of the loop: the test case's tracker is opened, the body run, the tracker closed. */
    method RunCycle(test: Section, ghost k: nat)
      requires Distinct(test) && k < Leaves(test) && root == Between(test, k) && activeSections == []
      modifies this
      ensures root == Between(test, k + 1) && activeSections == []
      ensures cycles == old(cycles) + [Entered([], Route(test, k))]
    {
      hide Leaves, After, AfterAll, Route, Entered, Closed, BodyDone, ClosedUpTo, OpenBetween, Set, At, IsPath, AboveExecuting;
      current := [];
      completedCycle := false;
      entered := [];
      OpenCase(test, k);
      AfterId(test, k);
      ghost var running := root;
      RootChild(running, BodyDone(test, k));
      RunBody(test, [], k);
      CloseBody(test, k);
      RootChild(root, After(test, k + 1));
      OnlyOne(root, [0]);
      ClosedOne(root, [0], [0]);
      Close([0]);
      assert [] + Entered([], Route(test, k)) == Entered([], Route(test, k));
      cycles := cycles + [entered];
    }

    /** The test case's tracker is found or made, and opened. */
    method OpenCase(test: Section, ghost k: nat)
      requires k < Leaves(test) && root == Between(test, k) && current == [] && !completedCycle
      modifies `root, `current
      ensures current == [0] && root == Tracker(ROOT_ID, ExecutingChildren, [After(test, k).(state := Executing)])
    {
      hide Leaves, After, AfterAll, FindChild, WithChild, Acquired;
      CaseFound(test, k);
      AfterId(test, k);
      AcquiredSimply(root, [], test.id, false);
      assert [] + [0] == [0];
      var p := Acquire(test.id);
    }

    /** `runTest`: cycles until the test case's tracker is successfully completed. */
    method RunTest(test: Section)
      requires Distinct(test)
      modifies this
      ensures |cycles| == if LeafSections(test) < 1 then 1 else LeafSections(test)
      ensures forall k :: 0 <= k < |cycles| ==> k < Leaves(test) && cycles[k] == Entered([], Route(test, k))
      ensures RunsEachLeafOnce(test, cycles)
      ensures root == Between(test, Leaves(test)) && activeSections == []
    {
      hide After, AfterAll, Route, Entered, RunsEachLeafOnce;
      root := Tracker(ROOT_ID, NotStarted, []);
      current, completedCycle := [], false;
      activeSections, cycles := [], [];
      while true
        invariant |cycles| < Leaves(test) && root == Between(test, |cycles|) && activeSections == []
        invariant forall k :: 0 <= k < |cycles| ==> cycles[k] == Entered([], Route(test, k))
        decreases Leaves(test) - |cycles|
      {
        RunCycle(test, |cycles|);
        AfterId(test, |cycles|);
        NotFailed(test, |cycles|);
        if root.children[0].state == CompletedSuccessfully {
          break;
        }
      }
      CyclesRunLeaves(test, cycles);
    }
  }

  const ROOT_ID := NameAndLocation("{root}", "", 0)

  /** The root tracker between two cycles, `k` of them finished. */
  function Between(test: Section, k: nat): Tracker
    requires k <= Leaves(test)
  {
    if k == 0 then Tracker(ROOT_ID, NotStarted, []) else Tracker(ROOT_ID, ExecutingChildren, [After(test, k)])
  }

  lemma RootChild(t: Tracker, u: Tracker)
    requires |t.children| == 1
    ensures IsPath(t, [0]) && At(t, [0]) == t.children[0] && Set(t, [0], u) == t.(children := [u])
    ensures AboveExecuting(t, [0]) <==> t.state == ExecutingChildren
  {
    assert [0][1..] == [] && t.children[0 := u] == [u];
    assert Set(t.children[0], [], u) == u && At(t.children[0], []) == t.children[0];
    assert AboveExecuting(t.children[0], []);
  }

  lemma OnlyOne(t: Tracker, p: Path)
    requires IsPath(t, p) && At(t, p).IsOpen()
    ensures OpenBetween(t, p, p)
  {
  }

  lemma CaseFound(test: Section, k: nat)
    requires k <= Leaves(test)
    ensures var kids := Between(test, k).children;
            FindChild(kids, test.id) == 0 && WithChild(kids, test.id) == [After(test, k)]
  {
    AfterId(test, k);
  }

  lemma NotFailed(test: Section, k: nat)
    requires k <= Leaves(test)
    ensures After(test, k).IsComplete() ==> After(test, k).state == CompletedSuccessfully
  {
  }

  /** The number of leaf sections inside a test case. */
  function LeafSections(test: Section): nat {
    LeavesOf(test.children)
  }

  /** The address of the section whose body ran last in a cycle; the test case itself if none was entered. */
  function Ran(cycle: seq<seq<nat>>): seq<nat> {
    if cycle == [] then [] else cycle[|cycle| - 1]
  }

  /** Every cycle runs one leaf, every leaf is run by one cycle, and the order is that of the source. */
  ghost predicate RunsEachLeafOnce(test: Section, cycles: seq<seq<seq<nat>>>) {
    && (forall k :: 0 <= k < |cycles| ==> IsLeafAddress(test, Ran(cycles[k])))
    && (forall k, l :: 0 <= k < l < |cycles| ==> Earlier(Ran(cycles[k]), Ran(cycles[l])))
    && (forall a :: IsLeafAddress(test, a) ==> exists k :: 0 <= k < |cycles| && Ran(cycles[k]) == a)
  }

  lemma {:induction false} RanIsRoute(a: seq<nat>, route: seq<nat>)
    ensures Ran(Entered(a, route)) == if route == [] then [] else a + route
    ensures Entered(a, route) == [] <==> route == []
    decreases route
  {
    if route != [] {
      RanIsRoute(a + [route[0]], route[1..]);
      assert a + route == a + [route[0]] + route[1..];
    }
  }

  lemma CyclesRunLeaves(test: Section, cycles: seq<seq<seq<nat>>>)
    requires |cycles| == Leaves(test)
    requires forall k :: 0 <= k < |cycles| ==> cycles[k] == Entered([], Route(test, k))
    ensures RunsEachLeafOnce(test, cycles)
  {
    hide Route, Entered, Leaves, IsLeafAddress, Earlier, Ran;
    forall k | 0 <= k < |cycles| ensures Ran(cycles[k]) == Route(test, k) && IsLeafAddress(test, Ran(cycles[k])) {
      RanIsRoute([], Route(test, k));
      assert [] + Route(test, k) == Route(test, k);
      RouteIsLeaf(test, k);
    }
    forall k, l | 0 <= k < l < |cycles| ensures Earlier(Ran(cycles[k]), Ran(cycles[l])) {
      RoutesAscend(test, k, l);
    }
    forall a | IsLeafAddress(test, a) ensures exists k :: 0 <= k < |cycles| && Ran(cycles[k]) == a {
      var k := LeafHasRoute(test, a);
      assert Ran(cycles[k]) == a;
    }
  }

  lemma DuringDone(s: Section, k: nat, i: nat)
    requires i <= |s.children|
    ensures During(s, k, i, true) == Tracker(s.id, ExecutingChildren, During(s, k, i, true).children)
  {
  }

  lemma RouteThrough(s: Section, k: nat, i: nat, address: seq<nat>)
    requires i < |s.children| && Before(s.children, i) <= k < Before(s.children, i) + Leaves(s.children[i]) && k < Leaves(s)
    ensures Entered(address, Route(s, k))
            == [address + [i]] + Entered(address + [i], Route(s.children[i], k - Before(s.children, i)))
  {
    ActiveUnique(s.children, k, i);
    assert Route(s, k) == [i] + Route(s.children[i], k - Before(s.children, i));
    assert Route(s, k)[1..] == Route(s.children[i], k - Before(s.children, i));
  }

  /** At the end of a body all its leaves are behind it. */
  lemma BodyPassedLeaf(s: Section, k: nat, address: seq<nat>)
    requires k < Leaves(s)
    ensures s.children != [] ==> Before(s.children, |s.children|) > k
    ensures s.children == [] ==> Entered(address, Route(s, k)) == []
  {
    if s.children != [] {
      BeforeNext(s.children, |s.children| - 1);
    }
  }
}
