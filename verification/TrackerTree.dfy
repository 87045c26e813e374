/**
 The mutable tree of trackers behind Catch's nested sections (lib/catch.hpp).  A tracker pointer
 is modelled by the path of child indices that leads to it from the root tracker.
 */
module TrackerTree {

  datatype NameAndLocation = NameAndLocation(name: string, file: string, line: nat)

  datatype CycleState = NotStarted | Executing | ExecutingChildren | NeedsAnotherRun | CompletedSuccessfully | Failed

  datatype Tracker = Tracker(id: NameAndLocation, state: CycleState, children: seq<Tracker>) {
    predicate IsComplete() {
      state == CompletedSuccessfully || state == Failed
    }

    predicate IsOpen() {
      state != NotStarted && !IsComplete()
    }
  }

  type Path = seq<nat>

  predicate IsPath(t: Tracker, p: Path) {
    p == [] || (p[0] < |t.children| && IsPath(t.children[p[0]], p[1..]))
  }

  /** The tracker a path leads to. */
  function At(t: Tracker, p: Path): Tracker
    requires IsPath(t, p)
  {
    if p == [] then t else At(t.children[p[0]], p[1..])
  }

  /** The tree after the tracker at `p` was changed to `u`. */
  function Set(t: Tracker, p: Path, u: Tracker): Tracker
    requires IsPath(t, p)
  {
    if p == [] then u
    else t.(children := t.children[p[0] := Set(t.children[p[0]], p[1..], u)])
  }

  lemma {:induction false} AtSet(t: Tracker, p: Path, u: Tracker)
    requires IsPath(t, p)
    ensures IsPath(Set(t, p, u), p) && At(Set(t, p, u), p) == u
  {
    if p != [] {
      AtSet(t.children[p[0]], p[1..], u);
    }
  }

  lemma {:induction false} SetAt(t: Tracker, p: Path)
    requires IsPath(t, p)
    ensures Set(t, p, At(t, p)) == t
  {
    if p != [] {
      SetAt(t.children[p[0]], p[1..]);
      assert t.children[p[0] := t.children[p[0]]] == t.children;
    }
  }

  lemma {:induction false} SetTwice(t: Tracker, p: Path, u: Tracker, v: Tracker)
    requires IsPath(t, p)
    ensures IsPath(Set(t, p, u), p) && Set(Set(t, p, u), p, v) == Set(t, p, v)
  {
    if p != [] {
      SetTwice(t.children[p[0]], p[1..], u, v);
      var s := Set(t, p, u);
      var a, b := Set(t.children[p[0]], p[1..], u), Set(t.children[p[0]], p[1..], v);
      assert s.children[p[0] := b] == t.children[p[0] := b];
    }
  }

  /** Changing a child is changing the parent's list of children. */
  lemma {:induction false} SetChild(t: Tracker, p: Path, i: nat, u: Tracker)
    requires IsPath(t, p) && i < |At(t, p).children|
    ensures IsPath(t, p + [i]) && At(t, p + [i]) == At(t, p).children[i]
    ensures Set(t, p + [i], u) == Set(t, p, At(t, p).(children := At(t, p).children[i := u]))
  {
    if p == [] {
      assert [] + [i] == [i] && [i][1..] == [];
      assert Set(t, [i], u) == t.(children := t.children[i := Set(t.children[i], [], u)]);
    } else {
      assert (p + [i])[1..] == p[1..] + [i];
      SetChild(t.children[p[0]], p[1..], i, u);
    }
  }

  /** Changing the state of a tracker leaves everything below it alone. */
  lemma {:induction false} StateBelow(t: Tracker, q: Path, p: Path, state: CycleState)
    requires IsPath(t, q) && IsPath(t, p) && q < p
    ensures var u := Set(t, q, At(t, q).(state := state)); IsPath(u, p) && At(u, p) == At(t, p)
  {
    if q != [] {
      assert q[1..] < p[1..];
      StateBelow(t.children[q[0]], q[1..], p[1..], state);
    }
  }

  /** Changing a tracker leaves the states of those above it alone. */
  lemma {:induction false} StateAbove(t: Tracker, q: Path, p: Path, u: Tracker)
    requires IsPath(t, q) && p < q
    ensures IsPath(t, p) && IsPath(Set(t, q, u), p) && At(Set(t, q, u), p).state == At(t, p).state
  {
    if p != [] {
      assert p[1..] < q[1..];
      StateAbove(t.children[q[0]], q[1..], p[1..], u);
    }
  }

  /** Every tracker strictly above `p` is executing its children. */
  predicate AboveExecuting(t: Tracker, p: Path)
    requires IsPath(t, p)
  {
    p != [] ==> t.state == ExecutingChildren && AboveExecuting(t.children[p[0]], p[1..])
  }

  lemma {:induction false} AboveExecutingSet(t: Tracker, p: Path, u: Tracker)
    requires IsPath(t, p)
    ensures IsPath(Set(t, p, u), p) && AboveExecuting(Set(t, p, u), p) == AboveExecuting(t, p)
  {
    if p != [] {
      AboveExecutingSet(t.children[p[0]], p[1..], u);
    }
  }

  lemma {:induction false} AboveExecutingChild(t: Tracker, p: Path, i: nat)
    requires IsPath(t, p) && i < |At(t, p).children|
    ensures IsPath(t, p + [i])
    ensures AboveExecuting(t, p + [i]) == (AboveExecuting(t, p) && At(t, p).state == ExecutingChildren)
  {
    if p == [] {
      assert [] + [i] == [i] && [i][1..] == [];
      assert AboveExecuting(t.children[i], []);
    } else {
      assert (p + [i])[1..] == p[1..] + [i];
      AboveExecutingChild(t.children[p[0]], p[1..], i);
    }
  }

  /** The parent of a tracker whose ancestors are executing their children is one of them. */
  lemma {:induction false} ParentExecuting(t: Tracker, p: Path)
    requires IsPath(t, p) && p != []
    ensures IsPath(t, p[..|p| - 1])
    ensures AboveExecuting(t, p) ==> At(t, p[..|p| - 1]).state == ExecutingChildren && AboveExecuting(t, p[..|p| - 1])
  {
    if |p| > 1 {
      assert p[1..][..|p| - 2] == p[..|p| - 1][1..];
      ParentExecuting(t.children[p[0]], p[1..]);
    } else {
      assert p[..0] == [];
    }
  }
}
