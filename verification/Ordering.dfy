/** Sequences sorted by a strict order, and the largest elements of a set. */
module Ordering {
  import opened Identifiers

  // A set has one sorted listing (SortedListingIsUnique), which is what a query with
  // `order by` returns; `Listing` is that listing and `InOrder` computes it.
  //
  // `Top(s, k)` is the set of the k largest elements of s. Pruning to the top before an
  // insertion gives the same as pruning once at the end (TopAfterInsert), because an
  // element ranks below k among all exactly when it ranks below k among the top
  // (TopKeepsRanks).

  ghost predicate Sorted<T(!new)>(s: seq<T>, before: (T, T) -> bool) {
    forall i, j :: 0 <= i < j < |s| ==> before(s[i], s[j])
  }

  ghost predicate Asymmetric<T(!new)>(before: (T, T) -> bool) {
    forall x, y :: before(x, y) ==> !before(y, x)
  }

  /** A set has at most one sorted listing. */
  lemma {:induction false} SortedListingIsUnique<T(!new)>(a: seq<T>, b: seq<T>, before: (T, T) -> bool)
    requires Asymmetric(before) && Sorted(a, before) && Sorted(b, before)
    requires forall x :: x in a <==> x in b
    ensures a == b
  {
    assert a != [] ==> a[0] in a;
    assert b != [] ==> b[0] in b;
    if a != [] {
      assert a[0] in b;
      assert b[0] in a;
      var i :| 0 <= i < |b| && b[i] == a[0];
      var j :| 0 <= j < |a| && a[j] == b[0];
      assert i == 0;
      forall x
        ensures x in a[1..] <==> x in b[1..]
      {
        TailMembers(a, before, x);
        TailMembers(b, before, x);
      }
      SortedListingIsUnique(a[1..], b[1..], before);
      assert a == [a[0]] + a[1..] && b == [b[0]] + b[1..];
    }
  }

  lemma TailMembers<T(!new)>(s: seq<T>, before: (T, T) -> bool, x: T)
    requires s != [] && Asymmetric(before) && Sorted(s, before)
    ensures x in s[1..] <==> x in s && x != s[0]
  {
    if x in s[1..] {
      var i :| 0 <= i < |s| - 1 && s[1..][i] == x;
      assert before(s[0], s[i + 1]);
      assert !before(s[0], s[0]);
    }
    if x in s && x != s[0] {
      var i :| 0 <= i < |s| && s[i] == x;
      assert s[1..][i - 1] == x;
    }
  }

  ghost predicate StrictTotal<T(!new)>(before: (T, T) -> bool) {
    && Asymmetric(before)
    && (forall x, y :: before(x, y) || x == y || before(y, x))
    && (forall x, y, z :: before(x, y) && before(y, z) ==> before(x, z))
  }

  /** `order by`: the elements of a set, least first. */
  ghost function Listing<T(!new)>(s: set<T>, before: (T, T) -> bool): seq<T>
    requires StrictTotal(before)
    decreases |s|
  {
    if s == {} then []
    else
      var x := First(s, before);
      [x] + Listing(s - {x}, before)
  }

  lemma {:induction false} ListingIsSorted<T(!new)>(s: set<T>, before: (T, T) -> bool)
    requires StrictTotal(before)
    ensures Sorted(Listing(s, before), before) && Elements(Listing(s, before)) == s
    decreases |s|
  {
    if s != {} {
      var x := First(s, before);
      var rest := Listing(s - {x}, before);
      ListingIsSorted(s - {x}, before);
      PrependLeast(x, rest, s - {x}, before);
      assert s == {x} + (s - {x});
    }
  }

  lemma PrependLeast<T(!new)>(x: T, rest: seq<T>, s: set<T>, before: (T, T) -> bool)
    requires Sorted(rest, before) && Elements(rest) == s && forall y :: y in s ==> before(x, y)
    ensures Sorted([x] + rest, before) && Elements([x] + rest) == {x} + s
  {
    assert forall y :: y in rest <==> y in Elements(rest);
    assert forall y :: y in [x] + rest <==> y == x || y in rest;
  }

  ghost function First<T(!new)>(s: set<T>, before: (T, T) -> bool): (r: T)
    requires s != {} && StrictTotal(before)
    ensures r in s && forall x :: x in s && x != r ==> before(r, x)
    decreases |s|
  {
    var x :| x in s;
    if s == {x} then x
    else
      var r := First(s - {x}, before);
      if before(r, x) then r else x
  }

  method InOrder<T(==,!new)>(s: set<T>, before: (T, T) -> bool) returns (r: seq<T>)
    requires StrictTotal(before)
    ensures r == Listing(s, before)
  {
    r := [];
    var rest := s;
    while rest != {}
      invariant r + Listing(rest, before) == Listing(s, before)
    {
      ghost var first := First(rest, before);
      var next :| next in rest && forall other :: other in rest && other != next ==> before(next, other);
      LeastComesFirst(r, rest, before, next);
      r := r + [next];
      rest := rest - {next};
    }
  }

  lemma LeastComesFirst<T(!new)>(r: seq<T>, rest: set<T>, before: (T, T) -> bool, least: T)
    requires StrictTotal(before) && least in rest
    requires forall other :: other in rest && other != least ==> before(least, other)
    ensures (r + [least]) + Listing(rest - {least}, before) == r + Listing(rest, before)
  {
    assert First(rest, before) == least;
    assert Listing(rest, before) == [least] + Listing(rest - {least}, before);
  }

  // ---------------------------------------------------------------- the k largest

  ghost function Above(s: set<nat>, t: nat): set<nat> {
    set u | u in s && u > t
  }

  /** The `k` largest elements of `s`, or all of them. */
  ghost function Top(s: set<nat>, k: nat): set<nat> {
    set t | t in s && |Above(s, t)| < k
  }

  lemma {:induction false} SubsetSize<T>(a: set<T>, b: set<T>)
    requires a <= b
    ensures |a| <= |b|
  {
    if a != {} {
      var x :| x in a;
      SubsetSize(a - {x}, b - {x});
    }
  }

  lemma SameSize<T>(a: set<T>, b: set<T>)
    requires a <= b && |a| >= |b|
    ensures a == b
  {
    if a != b {
      var x :| x in b && x !in a;
      SubsetSize(a, b - {x});
    }
  }

  /** `Top` is the top: it holds min(k, |s|) elements, each above everything left out. */
  lemma TopIsLargest(s: set<nat>, k: nat)
    ensures Top(s, k) <= s
    ensures forall t, u :: t in Top(s, k) && u in s - Top(s, k) ==> u < t
    ensures |Top(s, k)| == if |s| < k then |s| else k
  {
    forall t, u | t in Top(s, k) && u in s - Top(s, k)
      ensures u < t
    {
      if t < u {
        SubsetSize(Above(s, u), Above(s, t));
      }
    }
    TopSize(s, k);
  }

  lemma {:induction false} TopSize(s: set<nat>, k: nat)
    ensures |Top(s, k)| == if |s| < k then |s| else k
    decreases |s|
  {
    if s == {} {
      assert Top(s, k) == {};
    } else {
      var m := Minimum(s);
      var rest := s - {m};
      TopSize(rest, k);
      assert Above(s, m) == rest;
      forall t | t in rest
        ensures Above(s, t) == Above(rest, t)
      {
      }
      if |rest| < k {
        assert Top(s, k) == Top(rest, k) + {m};
      } else {
        assert Top(s, k) == Top(rest, k);
      }
    }
  }

  ghost function Minimum(s: set<nat>): (m: nat)
    requires s != {}
    ensures m in s && forall x :: x in s ==> m <= x
  {
    var x :| x in s;
    if forall y :: y in s ==> x <= y then x
    else
      var y :| y in s && y < x;
      assert y in s - {x};
      assert forall z :: z in s ==> z == x || z in s - {x};
      Minimum(s - {x})
  }

  /** Keeping only the top never changes which elements rank below k. */
  lemma {:induction false} TopKeepsRanks(s: set<nat>, k: nat, t: nat)
    ensures |Above(Top(s, k), t)| < k <==> |Above(s, t)| < k
    ensures |Above(s, t)| < k ==> Above(Top(s, k), t) == Above(s, t)
    decreases |Above(s, t)|
  {
    var above := Above(s, t);
    SubsetSize(Above(Top(s, k), t), above);
    if |above| <= k {
      forall u | u in above
        ensures u in Top(s, k)
      {
        assert Above(s, u) <= above - {u};
        SubsetSize(Above(s, u), above - {u});
      }
      assert Above(Top(s, k), t) == above;
    } else {
      var m := Minimum(above);
      assert Above(s, m) == above - {m};
      TopKeepsRanks(s, k, m);
      assert Above(Top(s, k), m) <= Above(Top(s, k), t);
      SubsetSize(Above(Top(s, k), m), Above(Top(s, k), t));
    }
  }

  /** Pruning before an insertion is as good as never pruning. */
  lemma TopAfterInsert(s: set<nat>, k: nat, x: nat)
    ensures Top(Top(s, k) + {x}, k) == Top(s + {x}, k)
  {
    var top := Top(s, k);
    forall t
      ensures t in Top(top + {x}, k) <==> t in Top(s + {x}, k)
    {
      InsertKeepsRanks(s, k, x, t);
      TopKeepsRanks(s, k, t);
      if t in s && t !in top {
        assert Above(s, t) <= Above(s + {x}, t);
        SubsetSize(Above(s, t), Above(s + {x}, t));
      }
    }
  }

  lemma InsertKeepsRanks(s: set<nat>, k: nat, x: nat, t: nat)
    ensures |Above(Top(s, k) + {x}, t)| < k <==> |Above(s + {x}, t)| < k
  {
    var top := Top(s, k);
    TopKeepsRanks(s, k, t);
    if x <= t {
      assert Above(top + {x}, t) == Above(top, t);
      assert Above(s + {x}, t) == Above(s, t);
    } else if x in top {
      assert top + {x} == top && s + {x} == s;
    } else if x in s {
      PrunedBelow(s, k, x, t);
      assert s + {x} == s;
      SubsetSize(Above(top, t), Above(top + {x}, t));
    } else {
      AboveGrows(s, x, t);
      AboveGrows(top, x, t);
    }
  }

  lemma AboveGrows(s: set<nat>, x: nat, t: nat)
    requires x !in s && t < x
    ensures |Above(s + {x}, t)| == |Above(s, t)| + 1
  {
    assert Above(s + {x}, t) == Above(s, t) + {x};
  }

  /** Below a pruned element, nothing ranks below k. */
  lemma PrunedBelow(s: set<nat>, k: nat, x: nat, t: nat)
    requires x in s && x !in Top(s, k) && t < x
    ensures |Above(s, t)| >= k && |Above(Top(s, k), t)| >= k
  {
    TopKeepsRanks(s, k, x);
    SubsetSize(Above(Top(s, k), x), Above(Top(s, k), t));
    SubsetSize(Above(s, x), Above(s, t));
  }
}
