/**
 `UnorderedEqualsMatcher::match` of lib/catch.hpp, on an element type with a proper equality.
 */
module UnorderedEquals {

  method Count<T(==)>(s: seq<T>, first: nat, last: nat, item: T) returns (cnt: nat)
    requires first <= last <= |s|
    ensures cnt == multiset(s[first..last])[item]
  {
    cnt := 0;
    for i := first to last
      invariant cnt == multiset(s[first..i])[item]
    {
      assert s[first..i + 1] == s[first..i] + [s[i]];
      if s[i] == item {
        cnt := cnt + 1;
      }
    }
  }

  method Contains<T(==)>(s: seq<T>, first: nat, last: nat, item: T) returns (found: bool)
    requires first <= last <= |s|
    ensures found <==> item in s[first..last]
  {
    for i := first to last
      invariant item !in s[first..i]
    {
      if s[i] == item {
        assert s[first..last][i - first] == item;
        return true;
      }
    }
    return false;
  }

  /** Multisets of one size, the first contained in the second, are equal. */
  lemma ContainedOfSameSize<T>(a: multiset<T>, b: multiset<T>)
    requires |a| == |b| && forall x :: x in a ==> a[x] == b[x]
    ensures a == b
  {
    assert a <= b;
    assert b == a + (b - a);
    assert |b - a| == 0;
  }

  lemma Cancels<T>(p: multiset<T>, x: multiset<T>, y: multiset<T>)
    ensures p + x == p + y <==> x == y
  {
    assert p + x - p == x && p + y - p == y;
  }

  /** A common prefix does not matter. */
  lemma SkipPrefix<T>(a: seq<T>, b: seq<T>, k: nat)
    requires k <= |a| && k <= |b| && a[..k] == b[..k]
    ensures multiset(a) == multiset(b) <==> multiset(a[k..]) == multiset(b[k..])
  {
    assert a == a[..k] + a[k..] && b == b[..k] + b[k..];
    Cancels(multiset(a[..k]), multiset(a[k..]), multiset(b[k..]));
  }

  /** The search behind the common prefix, which looks only at first occurrences in the target. */
  method MatchRest<T(==)>(target: seq<T>, vec: seq<T>, first: nat) returns (equal: bool)
    requires |target| == |vec| && first <= |target|
    ensures equal <==> multiset(target[first..]) == multiset(vec[first..])
  {
    ghost var l, r := multiset(target[first..]), multiset(vec[first..]);
    for mid := first to |target|
      invariant forall i :: first <= i < mid ==> l[target[i]] == r[target[i]]
    {
      var before := Contains(target, first, mid, target[mid]);
      if before {
        continue;
      }
      var inVec := Count(vec, first, |vec|, target[mid]);
      var inTarget := Count(target, first, |target|, target[mid]);
      assert target[first..|target|] == target[first..] && vec[first..|vec|] == vec[first..];
      if inVec == 0 || inTarget != inVec {
        assert target[first..][mid - first] == target[mid];
        assert l[target[mid]] != r[target[mid]];
        return false;
      }
    }
    assert forall x :: x in l ==> x in target[first..];
    ContainedOfSameSize(l, r);
    return true;
  }

  /** True exactly when the two vectors have the same elements with the same multiplicities. */
  method Match<T(==)>(target: seq<T>, vec: seq<T>) returns (equal: bool)
    ensures equal <==> multiset(target) == multiset(vec)
  {
    if |target| != |vec| {
      assert |multiset(target)| != |multiset(vec)|;
      return false;
    }
    var first := 0;
    while first != |target| && target[first] == vec[first]
      invariant 0 <= first <= |target| && target[..first] == vec[..first]
      decreases |target| - first
    {
      assert target[..first + 1] == target[..first] + [target[first]];
      assert vec[..first + 1] == vec[..first] + [vec[first]];
      first := first + 1;
    }
    SkipPrefix(target, vec, first);
    if first == |target| {
      assert target[first..] == vec[first..] == [];
      return true;
    }
    equal := MatchRest(target, vec, first);
  }
}
