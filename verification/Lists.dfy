/** `filter` and `slice`. */
module Lists {

  function Filter<T>(xs: seq<T>, p: T -> bool): seq<T> {
    if xs == [] then []
    else (if p(xs[0]) then [xs[0]] else []) + Filter(xs[1..], p)
  }

  lemma {:induction false} FilterSnoc<T>(xs: seq<T>, x: T, p: T -> bool)
    ensures Filter(xs + [x], p) == Filter(xs, p) + (if p(x) then [x] else [])
  {
    var all := xs + [x];
    if xs == [] {
      assert all == [x] && all[1..] == [];
    } else {
      assert all[0] == xs[0] && all[1..] == xs[1..] + [x];
      FilterSnoc(xs[1..], x, p);
      assert Filter(all, p) == (if p(xs[0]) then [xs[0]] else []) + Filter(all[1..], p);
    }
  }

  lemma {:induction false} FilterHolds<T>(xs: seq<T>, p: T -> bool)
    ensures forall x :: x in Filter(xs, p) <==> x in xs && p(x)
  {
    if xs != [] {
      FilterHolds(xs[1..], p);
      assert xs == [xs[0]] + xs[1..];
    }
  }

  ghost predicate Distinct<T(!new)>(xs: seq<T>) {
    forall i, j :: 0 <= i < j < |xs| ==> xs[i] != xs[j]
  }

  lemma {:induction false} FilterDistinct<T(!new)>(xs: seq<T>, p: T -> bool)
    requires Distinct(xs)
    ensures Distinct(Filter(xs, p))
  {
    if xs != [] {
      var later := Filter(xs[1..], p);
      FilterDistinct(xs[1..], p);
      FilterHolds(xs[1..], p);
      forall j | 0 <= j < |later| ensures later[j] != xs[0] {
        assert later[j] in later;
      }
    }
  }

  lemma {:induction false} SizeOfDistinct<T(!new)>(xs: seq<T>)
    requires Distinct(xs)
    ensures |set q | q in xs| == |xs|
  {
    if xs != [] {
      var n := |xs| - 1;
      SizeOfDistinct(xs[..n]);
      assert xs == xs[..n] + [xs[n]];
      assert (set q | q in xs) == (set q | q in xs[..n]) + {xs[n]};
    } else {
      assert (set q | q in xs) == {};
    }
  }

  lemma {:induction false} OnlyOnce<T(!new)>(xs: seq<T>, x: T)
    requires Distinct(xs)
    ensures multiset(xs)[x] <= 1
  {
    if xs != [] {
      assert xs == [xs[0]] + xs[1..];
      OnlyOnce(xs[1..], x);
    }
  }

  lemma SameMembers<T>(a: seq<T>, b: seq<T>, x: T)
    requires multiset(a) == multiset(b)
    ensures x in a <==> x in b
  {
    assert x in multiset(a) <==> x in multiset(b);
  }

  lemma {:induction false} FilterShortens<T>(xs: seq<T>, p: T -> bool)
    ensures |Filter(xs, p)| <= |xs|
  {
    if xs != [] {
      FilterShortens(xs[1..], p);
    }
  }

  function PlacesOf<T>(xs: seq<T>, p: T -> bool): set<int> {
    set i | 0 <= i < |xs| && p(xs[i])
  }

  lemma {:induction false} FilterCounts<T>(xs: seq<T>, p: T -> bool)
    ensures |Filter(xs, p)| == |PlacesOf(xs, p)|
  {
    if xs != [] {
      var n := |xs| - 1;
      FilterCounts(xs[..n], p);
      FilterSnoc(xs[..n], xs[n], p);
      assert xs == xs[..n] + [xs[n]];
      assert PlacesOf(xs, p) == PlacesOf(xs[..n], p) + (if p(xs[n]) then {n} else {});
    }
  }

  lemma {:induction false} FilterAgrees<T>(xs: seq<T>, p: T -> bool, q: T -> bool)
    requires forall x :: x in xs ==> p(x) == q(x)
    ensures Filter(xs, p) == Filter(xs, q)
  {
    if xs != [] {
      FilterAgrees(xs[1..], p, q);
    }
  }

  lemma {:induction false} FilterAll<T>(xs: seq<T>, p: T -> bool)
    requires forall x :: x in xs ==> p(x)
    ensures Filter(xs, p) == xs
  {
    if xs != [] {
      FilterAll(xs[1..], p);
    }
  }

  lemma {:induction false} FilterNone<T>(xs: seq<T>, p: T -> bool)
    ensures Filter(xs, p) == [] <==> forall x :: x in xs ==> !p(x)
  {
    if xs != [] {
      FilterNone(xs[1..], p);
      assert xs == [xs[0]] + xs[1..];
    }
  }

  /** `slice(0, end)`: a negative end counts from the back. */
  function SliceTo<T>(xs: seq<T>, end: int): seq<T> {
    if end < 0 then (if -end <= |xs| then xs[..|xs| + end] else [])
    else if end <= |xs| then xs[..end]
    else xs
  }

  lemma SliceIsPrefix<T>(xs: seq<T>, end: int)
    ensures |SliceTo(xs, end)| <= |xs| && SliceTo(xs, end) == xs[..|SliceTo(xs, end)|]
  {
  }
}
