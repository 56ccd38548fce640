/** What a stable sort by a comparator promises: the one arrangement that is sorted and
    keeps elements that compare equal in their order. */
module StableSort {

  // Two elements tie when neither is less than the other. A stable sort keeps, for every
  // element, the sequence of those that tie with it; together with being sorted this
  // leaves one arrangement (StableSortIsUnique), which `Sort` computes (SortIsStable).
  // Comparators are built from three-way comparisons, combined lexicographically and
  // turned around for a descending order.

  /** The comparator contract of `sort.Slice` and `sort.SliceStable`. */
  ghost predicate StrictWeak<T(!new)>(less: (T, T) -> bool) {
    && (forall x :: !less(x, x))
    && (forall x, y, z :: less(x, y) && less(y, z) ==> less(x, z))
    && (forall x, y, z :: less(x, z) ==> less(x, y) || less(y, z))
  }

  predicate Tied<T>(x: T, y: T, less: (T, T) -> bool) {
    !less(x, y) && !less(y, x)
  }

  /** The elements that compare equal to `x`, in order. */
  function Ties<T>(s: seq<T>, x: T, less: (T, T) -> bool): seq<T> {
    if s == [] then []
    else (if Tied(s[0], x, less) then [s[0]] else []) + Ties(s[1..], x, less)
  }

  ghost predicate Ascending<T(!new)>(s: seq<T>, less: (T, T) -> bool) {
    forall i, j :: 0 <= i < j < |s| ==> !less(s[j], s[i])
  }

  ghost predicate SameTies<T(!new)>(a: seq<T>, b: seq<T>, less: (T, T) -> bool) {
    forall x :: Ties(a, x, less) == Ties(b, x, less)
  }

  ghost predicate IsStableSort<T(!new)>(sorted: seq<T>, s: seq<T>, less: (T, T) -> bool) {
    Ascending(sorted, less) && SameTies(sorted, s, less) && multiset(sorted) == multiset(s)
  }

  function Insert<T>(x: T, s: seq<T>, less: (T, T) -> bool): seq<T> {
    if s == [] || !less(s[0], x) then [x] + s else [s[0]] + Insert(x, s[1..], less)
  }

  function Sort<T>(s: seq<T>, less: (T, T) -> bool): seq<T> {
    if s == [] then [] else Insert(s[0], Sort(s[1..], less), less)
  }

  lemma TiesOfCons<T>(x: T, s: seq<T>, y: T, less: (T, T) -> bool)
    ensures Ties([x] + s, y, less) == (if Tied(x, y, less) then [x] else []) + Ties(s, y, less)
  {
    assert ([x] + s)[1..] == s;
  }

  lemma {:induction false} InsertKeepsTies<T(!new)>(x: T, s: seq<T>, y: T, less: (T, T) -> bool)
    requires StrictWeak(less)
    ensures Ties(Insert(x, s, less), y, less) == (if Tied(x, y, less) then [x] else []) + Ties(s, y, less)
  {
    if s != [] && less(s[0], x) {
      InsertKeepsTies(x, s[1..], y, less);
      TiesOfCons(s[0], Insert(x, s[1..], less), y, less);
    } else {
      TiesOfCons(x, s, y, less);
    }
  }

  lemma {:induction false} InsertKeepsElements<T(!new)>(x: T, s: seq<T>, less: (T, T) -> bool)
    ensures multiset(Insert(x, s, less)) == multiset{x} + multiset(s)
    ensures forall y :: y in Insert(x, s, less) <==> y == x || y in s
  {
    if s != [] && less(s[0], x) {
      InsertKeepsElements(x, s[1..], less);
      assert s == [s[0]] + s[1..];
    }
  }

  lemma {:induction false} InsertAscends<T(!new)>(x: T, s: seq<T>, less: (T, T) -> bool)
    requires StrictWeak(less) && Ascending(s, less)
    ensures Ascending(Insert(x, s, less), less)
  {
    if s != [] && less(s[0], x) {
      InsertAscends(x, s[1..], less);
      InsertKeepsElements(x, s[1..], less);
      AscendingCons(s[0], Insert(x, s[1..], less), less);
    } else if s != [] {
      forall y | y in s
        ensures !less(y, x)
      {
        var j :| 0 <= j < |s| && s[j] == y;
        assert !less(s[0], x) && (j == 0 || !less(y, s[0]));
      }
      AscendingCons(x, s, less);
    }
  }

  lemma AscendingCons<T(!new)>(x: T, s: seq<T>, less: (T, T) -> bool)
    requires Ascending(s, less) && forall y :: y in s ==> !less(y, x)
    ensures Ascending([x] + s, less)
  {
  }

  lemma {:induction false} SortIsStable<T(!new)>(s: seq<T>, less: (T, T) -> bool)
    requires StrictWeak(less)
    ensures IsStableSort(Sort(s, less), s, less)
  {
    if s != [] {
      var rest := Sort(s[1..], less);
      SortIsStable(s[1..], less);
      InsertAscends(s[0], rest, less);
      forall y
        ensures Ties(Sort(s, less), y, less) == Ties(s, y, less)
      {
        InsertKeepsTies(s[0], rest, y, less);
      }
      InsertKeepsElements(s[0], rest, less);
      assert s == [s[0]] + s[1..];
    }
  }

  /** Nothing else is sorted and keeps ties in order. */
  lemma {:induction false} StableSortIsUnique<T(!new)>(a: seq<T>, b: seq<T>, less: (T, T) -> bool)
    requires StrictWeak(less) && Ascending(a, less) && Ascending(b, less) && SameTies(a, b, less)
    ensures a == b
  {
    if a != [] {
      assert Ties(a, a[0], less)[0] == a[0];
      FirstTie(b, a[0], less);
      assert b != [];
      assert Ties(b, b[0], less)[0] == b[0];
      FirstTie(a, b[0], less);
      assert Tied(a[0], b[0], less);
      assert a == [a[0]] + a[1..] && b == [b[0]] + b[1..];
      assert a[0] == b[0];
      forall x
        ensures Ties(a[1..], x, less) == Ties(b[1..], x, less)
      {
        assert Ties(a, x, less) == Ties(b, x, less);
        TiesOfCons(a[0], a[1..], x, less);
        TiesOfCons(b[0], b[1..], x, less);
        var head := if Tied(a[0], x, less) then [a[0]] else [];
        assert (head + Ties(a[1..], x, less))[|head|..] == Ties(a[1..], x, less);
        assert (head + Ties(b[1..], x, less))[|head|..] == Ties(b[1..], x, less);
      }
      StableSortIsUnique(a[1..], b[1..], less);
    }
  }

  /** In a sorted sequence nothing that ties with a member comes before the head. */
  lemma {:induction false} FirstTie<T(!new)>(s: seq<T>, x: T, less: (T, T) -> bool)
    requires StrictWeak(less) && Ascending(s, less) && Ties(s, x, less) != []
    ensures s != [] && !less(x, s[0])
  {
    if !Tied(s[0], x, less) {
      FirstTie(s[1..], x, less);
      assert !less(s[1], s[0]);
    }
  }

  /** Two elements that tie stand where one stood before the other. */
  lemma TiesKeepTheirTurn<T(!new)>(sorted: seq<T>, s: seq<T>, less: (T, T) -> bool, i: nat, j: nat) returns (a: nat, b: nat)
    requires IsStableSort(sorted, s, less) && StrictWeak(less) && i < j < |sorted| && Tied(sorted[i], sorted[j], less)
    ensures a < b < |s| && s[a] == sorted[i] && s[b] == sorted[j]
  {
    var x := sorted[i];
    var p, q := TurnsOf(sorted, x, less, i, j);
    assert Ties(sorted, x, less) == Ties(s, x, less);
    a, b := PlacesOf(s, x, less, p, q);
  }

  lemma {:induction false} TurnOf<T(!new)>(s: seq<T>, x: T, less: (T, T) -> bool, i: nat) returns (p: nat)
    requires i < |s| && Tied(s[i], x, less)
    ensures p < |Ties(s, x, less)| && Ties(s, x, less)[p] == s[i]
  {
    if i == 0 {
      p := 0;
    } else {
      p := TurnOf(s[1..], x, less, i - 1);
      if Tied(s[0], x, less) {
        p := p + 1;
      }
    }
  }

  lemma {:induction false} TurnsOf<T(!new)>(s: seq<T>, x: T, less: (T, T) -> bool, i: nat, j: nat) returns (p: nat, q: nat)
    requires i < j < |s| && Tied(s[i], x, less) && Tied(s[j], x, less)
    ensures p < q < |Ties(s, x, less)| && Ties(s, x, less)[p] == s[i] && Ties(s, x, less)[q] == s[j]
  {
    if i == 0 {
      p := 0;
      q := TurnOf(s[1..], x, less, j - 1);
      q := q + 1;
    } else {
      p, q := TurnsOf(s[1..], x, less, i - 1, j - 1);
      if Tied(s[0], x, less) {
        p, q := p + 1, q + 1;
      }
    }
  }

  lemma {:induction false} PlaceOf<T(!new)>(s: seq<T>, x: T, less: (T, T) -> bool, p: nat) returns (a: nat)
    requires p < |Ties(s, x, less)|
    ensures a < |s| && s[a] == Ties(s, x, less)[p]
  {
    if Tied(s[0], x, less) && p == 0 {
      a := 0;
    } else {
      a := PlaceOf(s[1..], x, less, if Tied(s[0], x, less) then p - 1 else p);
      a := a + 1;
    }
  }

  lemma {:induction false} PlacesOf<T(!new)>(s: seq<T>, x: T, less: (T, T) -> bool, p: nat, q: nat) returns (a: nat, b: nat)
    requires p < q < |Ties(s, x, less)|
    ensures a < b < |s| && s[a] == Ties(s, x, less)[p] && s[b] == Ties(s, x, less)[q]
  {
    if Tied(s[0], x, less) && p == 0 {
      a := 0;
      b := PlaceOf(s[1..], x, less, q - 1);
    } else {
      var k := if Tied(s[0], x, less) then 1 else 0;
      a, b := PlacesOf(s[1..], x, less, p - k, q - k);
      a := a + 1;
    }
    b := b + 1;
  }

  // ---------------------------------------------------------------- three-way comparisons

  /** A comparison by sign: antisymmetric, and its "not above" is transitive. */
  ghost predicate ThreeWay<T(!new)>(compare: (T, T) -> int) {
    && (forall x, y :: compare(x, y) < 0 <==> compare(y, x) > 0)
    && (forall x, y, z :: compare(x, y) <= 0 && compare(y, z) <= 0 ==> compare(x, z) <= 0)
  }

  function Lexicographic<T>(first: (T, T) -> int, second: (T, T) -> int): (T, T) -> int {
    (x, y) => if first(x, y) == 0 then second(x, y) else first(x, y)
  }

  function Less<T>(compare: (T, T) -> int, desc: bool): (T, T) -> bool {
    (x, y) => if desc then compare(x, y) > 0 else compare(x, y) < 0
  }

  lemma LexicographicIsThreeWay<T(!new)>(first: (T, T) -> int, second: (T, T) -> int)
    requires ThreeWay(first) && ThreeWay(second)
    ensures ThreeWay(Lexicographic(first, second))
  {
  }

  lemma LessIsStrictWeak<T(!new)>(compare: (T, T) -> int, desc: bool)
    requires ThreeWay(compare)
    ensures StrictWeak(Less(compare, desc))
  {
    forall x, y, z | Less(compare, desc)(x, z)
      ensures Less(compare, desc)(x, y) || Less(compare, desc)(y, z)
    {
      if desc {
        assert compare(x, y) <= 0 && compare(y, z) <= 0 ==> compare(x, z) <= 0;
      } else {
        assert compare(z, y) <= 0 && compare(y, x) <= 0 ==> compare(z, x) <= 0;
      }
    }
    forall x, y, z | Less(compare, desc)(x, y) && Less(compare, desc)(y, z)
      ensures Less(compare, desc)(x, z)
    {
      if desc {
        assert compare(z, y) < 0 && compare(y, x) < 0;
      }
    }
  }
}
