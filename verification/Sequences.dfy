/** Facts about selecting from, sorting and reordering lists. */
module Sequences {

  function Filter<A(!new)>(xs: seq<A>, p: A -> bool): (r: seq<A>)
    ensures |r| <= |xs|
  {
    if xs == [] then []
    else
      Filter(xs[..|xs| - 1], p) + if p(xs[|xs| - 1]) then [xs[|xs| - 1]] else []
  }

  lemma {:induction false} FilterMembers<A(!new)>(xs: seq<A>, p: A -> bool)
    ensures forall x :: x in Filter(xs, p) <==> x in xs && p(x)
  {
    if xs != [] {
      FilterMembers(xs[..|xs| - 1], p);
      assert xs == xs[..|xs| - 1] + [xs[|xs| - 1]];
    }
  }

  lemma {:induction false} FilterAppend<A(!new)>(xs: seq<A>, x: A, p: A -> bool)
    ensures Filter(xs + [x], p) == Filter(xs, p) + if p(x) then [x] else []
  {
    assert (xs + [x])[..|xs|] == xs;
  }

  lemma FilterOne<A(!new)>(x: A, p: A -> bool)
    ensures Filter([x], p) == if p(x) then [x] else []
  {
    FilterAppend([], x, p);
    assert [] + [x] == [x];
  }

  lemma {:induction false} FilterPrefix<A(!new)>(a: seq<A>, b: seq<A>, p: A -> bool)
    ensures Filter(a + b, p) == Filter(a, p) + Filter(b, p)
  {
    if b == [] {
      assert a + b == a;
    } else {
      var front, last := b[..|b| - 1], b[|b| - 1];
      assert a + b == (a + front) + [last] && b == front + [last];
      FilterPrefix(a, front, p);
      FilterAppend(a + front, last, p);
      FilterAppend(front, last, p);
    }
  }

  lemma {:induction false} FilterNone<A(!new)>(xs: seq<A>, p: A -> bool)
    requires forall x :: x in xs ==> !p(x)
    ensures Filter(xs, p) == []
  {
    FilterMembers(xs, p);
    assert Filter(xs, p) != [] ==> Filter(xs, p)[0] in Filter(xs, p);
  }

  lemma {:induction false} FilterSingle<A(!new)>(xs: seq<A>, p: A -> bool, i: nat)
    requires i < |xs| && p(xs[i]) && forall k :: 0 <= k < |xs| && k != i ==> !p(xs[k])
    ensures Filter(xs, p) == [xs[i]]
  {
    var front := xs[..|xs| - 1];
    if i < |front| { FilterSingle(front, p, i); } else { FilterNone(front, p); }
  }

  lemma {:induction false} FilterAll<A(!new)>(xs: seq<A>, p: A -> bool)
    requires forall x :: x in xs ==> p(x)
    ensures Filter(xs, p) == xs
  {
    if xs != [] {
      assert xs == xs[..|xs| - 1] + [xs[|xs| - 1]];
      FilterAll(xs[..|xs| - 1], p);
    }
  }

  lemma {:induction false} FilterWhere<A(!new)>(xs: seq<A>, p: A -> bool, q: A -> bool)
    requires forall x :: x in xs && p(x) ==> q(x)
    ensures |Filter(xs, p)| <= |Filter(xs, q)|
    ensures (forall x :: x in xs && q(x) ==> p(x)) ==> Filter(xs, p) == Filter(xs, q)
  {
    if xs != [] {
      var front, last := xs[..|xs| - 1], xs[|xs| - 1];
      assert xs == front + [last];
      FilterWhere(front, p, q);
    }
  }

  /** Filtering keeps each selected element exactly as often as it occurs. */
  lemma {:induction false} FilterCounts<A(!new)>(xs: seq<A>, p: A -> bool, x: A)
    ensures multiset(Filter(xs, p))[x] == if p(x) then multiset(xs)[x] else 0
  {
    if xs != [] {
      FilterCounts(xs[..|xs| - 1], p, x);
      assert xs == xs[..|xs| - 1] + [xs[|xs| - 1]];
    }
  }

  /** Reordering a list only reorders what a filter selects from it. */
  lemma FilterReordered<A(!new)>(xs: seq<A>, ys: seq<A>, p: A -> bool)
    requires multiset(xs) == multiset(ys)
    ensures multiset(Filter(xs, p)) == multiset(Filter(ys, p))
    ensures |Filter(xs, p)| == |Filter(ys, p)|
  {
    forall x ensures multiset(Filter(xs, p))[x] == multiset(Filter(ys, p))[x] {
      FilterCounts(xs, p, x);
      FilterCounts(ys, p, x);
    }
    assert multiset(Filter(xs, p)) == multiset(Filter(ys, p));
    assert |Filter(xs, p)| == |multiset(Filter(xs, p))| == |multiset(Filter(ys, p))| == |Filter(ys, p)|;
  }

  function Both<A(!new)>(p: A -> bool, q: A -> bool): A -> bool {
    (x: A) => p(x) && q(x)
  }

  lemma {:induction false} FilterBoth<A(!new)>(xs: seq<A>, p: A -> bool, q: A -> bool)
    ensures Filter(Filter(xs, p), q) == Filter(xs, Both(p, q))
  {
    if xs != [] {
      var front, last := xs[..|xs| - 1], xs[|xs| - 1];
      FilterBoth(front, p, q);
      if p(last) {
        FilterAppend(Filter(front, p), last, q);
        assert Filter(xs, p) == Filter(front, p) + [last];
      } else {
        assert Filter(xs, p) == Filter(front, p);
      }
    }
  }

  lemma {:induction false} FilterSame<A(!new)>(xs: seq<A>, p: A -> bool, q: A -> bool)
    requires forall x :: p(x) == q(x)
    ensures Filter(xs, p) == Filter(xs, q)
  {
    if xs != [] { FilterSame(xs[..|xs| - 1], p, q); }
  }

  /** When everything selected lies before position i, at most i are selected; when everything before i is
      selected, at least i are. */
  lemma {:induction false} FilterWithin<A(!new)>(xs: seq<A>, p: A -> bool, i: nat)
    requires i <= |xs|
    ensures (forall k :: i <= k < |xs| ==> !p(xs[k])) ==> |Filter(xs, p)| <= i
    ensures (forall k :: 0 <= k < i ==> p(xs[k])) ==> |Filter(xs, p)| >= i
  {
    if xs != [] {
      var front, last := xs[..|xs| - 1], |xs| - 1;
      if i <= last {
        FilterWithin(front, p, i);
        assert (forall k :: i <= k < |xs| ==> !p(xs[k])) ==> !p(xs[last]) && forall k :: i <= k < |front| ==> !p(front[k]);
      } else {
        FilterWithin(front, p, last);
        assert (forall k :: 0 <= k < i ==> p(xs[k])) ==> p(xs[last]) && forall k :: 0 <= k < last ==> p(front[k]);
      }
    }
  }

  lemma SameCounts<A(!new)>(xs: seq<A>, ys: seq<A>)
    requires forall x :: multiset(xs)[x] == multiset(ys)[x]
    ensures multiset(xs) == multiset(ys) && |xs| == |ys|
  {
    assert multiset(xs) == multiset(ys);
    assert |xs| == |multiset(xs)| == |multiset(ys)| == |ys|;
  }

  lemma ReorderedMembers<A(!new)>(xs: seq<A>, ys: seq<A>)
    requires multiset(xs) == multiset(ys)
    ensures forall x :: x in xs <==> x in ys
    ensures |xs| == |ys|
  {
    forall x ensures x in xs <==> x in ys {
      assert x in xs <==> x in multiset(xs);
      assert x in ys <==> x in multiset(ys);
    }
    assert |xs| == |multiset(xs)| == |multiset(ys)| == |ys|;
  }

  lemma OneOut<A(!new)>(ys: seq<A>, i: nat)
    requires i < |ys|
    ensures multiset(ys) == multiset(ys[..i] + ys[i + 1..]) + multiset{ys[i]}
  {
    assert ys == ys[..i] + ([ys[i]] + ys[i + 1..]);
    assert multiset(ys) == multiset(ys[..i]) + (multiset{ys[i]} + multiset(ys[i + 1..]));
  }

  lemma SameRest<A(!new)>(a: multiset<A>, b: multiset<A>, x: A)
    requires a + multiset{x} == b + multiset{x}
    ensures a == b
  {
    assert (a + multiset{x}) - multiset{x} == a && (b + multiset{x}) - multiset{x} == b;
  }

  /** Taking one occurrence of the same element out of two reorderings leaves reorderings. */
  lemma RemoveSame<A(!new)>(xs: seq<A>, ys: seq<A>, i: nat)
    requires multiset(xs) == multiset(ys) && xs != [] && i < |ys| && xs[0] == ys[i]
    ensures multiset(xs[1..]) == multiset(ys[..i] + ys[i + 1..])
  {
    OneOut(xs, 0);
    OneOut(ys, i);
    assert xs[..0] + xs[1..] == xs[1..];
    SameRest(multiset(xs[1..]), multiset(ys[..i] + ys[i + 1..]), xs[0]);
  }

  /** The tail of the sorted list holds exactly what the other positions held. */
  lemma TailMembers<A(!new)>(xs: seq<A>, ys: seq<A>, i: nat)
    requires multiset(xs) == multiset(ys) && xs != [] && i < |ys| && xs[0] == ys[i]
    ensures forall k :: 0 <= k < |ys| && k != i ==> ys[k] in xs[1..]
    ensures forall x :: x in xs[1..] ==> exists k :: 0 <= k < |ys| && k != i && ys[k] == x
  {
    RemoveSame(xs, ys, i);
    var rest := ys[..i] + ys[i + 1..];
    ReorderedMembers(xs[1..], rest);
    forall k | 0 <= k < |ys| && k != i ensures ys[k] in xs[1..] {
      assert rest[if k < i then k else k - 1] == ys[k];
    }
    forall x | x in xs[1..] ensures exists k :: 0 <= k < |ys| && k != i && ys[k] == x {
      var j :| 0 <= j < |rest| && rest[j] == x;
      assert ys[if j < i then j else j + 1] == x;
    }
  }

  /** The rest first, then a rearrangement of what was selected. */
  lemma RestFirst<A(!new)>(xs: seq<A>, p: A -> bool, q: A -> bool, some: seq<A>)
    requires (forall x :: q(x) == !p(x)) && multiset(some) == multiset(Filter(xs, p))
    ensures multiset(Filter(xs, q) + some) == multiset(xs)
    ensures Filter(Filter(xs, q) + some, p) == some
  {
    var list := Filter(xs, q) + some;
    forall x ensures multiset(list)[x] == multiset(xs)[x] {
      FilterCounts(xs, p, x);
      FilterCounts(xs, q, x);
    }
    SameCounts(list, xs);
    FilterPrefix(Filter(xs, q), some, p);
    FilterMembers(xs, q);
    FilterNone(Filter(xs, q), p);
    FilterMembers(xs, p);
    ReorderedMembers(some, Filter(xs, p));
    FilterAll(some, p);
  }

  // ---------------------------------------------------------------- joining lists

  /** The first n lists, one after another. */
  function Joined<A>(parts: seq<seq<A>>, n: nat): seq<A>
    requires n <= |parts|
  {
    if n == 0 then [] else Joined(parts, n - 1) + parts[n - 1]
  }

  /** Every element of the joined list comes from one of the lists, after all earlier ones. */
  lemma {:induction false} JoinedSource<A>(parts: seq<seq<A>>, n: nat, i: nat) returns (f: nat, m: nat)
    requires n <= |parts| && i < |Joined(parts, n)|
    ensures f < n && m < |parts[f]| && Joined(parts, n)[i] == parts[f][m]
    ensures i == |Joined(parts, f)| + m
  {
    var before := Joined(parts, n - 1);
    if i < |before| { f, m := JoinedSource(parts, n - 1, i); } else { f, m := n - 1, i - |before|; }
  }

  lemma {:induction false} JoinedGrows<A>(parts: seq<seq<A>>, f: nat, g: nat)
    requires f < g <= |parts|
    ensures |Joined(parts, f)| + |parts[f]| <= |Joined(parts, g)|
    decreases g
  {
    assert |Joined(parts, g)| == |Joined(parts, g - 1)| + |parts[g - 1]|;
    if f < g - 1 { JoinedGrows(parts, f, g - 1); }
  }

  // ---------------------------------------------------------------- stable sorting

  /** A comparison whose ties are transitive: what a sort needs of its key. */
  ghost predicate WeakOrder<A(!new)>(less: (A, A) -> bool) {
    && (forall x, y :: less(x, y) ==> !less(y, x))
    && (forall x, y, z :: !less(y, x) && !less(z, y) ==> !less(z, x))
  }

  /** Insert after every element that does not come later. */
  function Insert<A(!new)>(sorted: seq<A>, x: A, less: (A, A) -> bool): (r: seq<A>)
    ensures |r| == |sorted| + 1
    ensures r[|sorted|] == x || (sorted != [] && r[|sorted|] == sorted[|sorted| - 1])
  {
    if sorted != [] && less(x, sorted[|sorted| - 1])
    then Insert(sorted[..|sorted| - 1], x, less) + [sorted[|sorted| - 1]]
    else sorted + [x]
  }

  /** `list.sort`: in order, with ties in their original order. */
  function Sort<A(!new)>(xs: seq<A>, less: (A, A) -> bool): (r: seq<A>)
    ensures |r| == |xs|
  {
    if xs == [] then [] else Insert(Sort(xs[..|xs| - 1], less), xs[|xs| - 1], less)
  }

  ghost predicate Ordered<A(!new)>(xs: seq<A>, less: (A, A) -> bool) {
    |xs| > 1 ==> !less(xs[|xs| - 1], xs[|xs| - 2]) && Ordered(xs[..|xs| - 1], less)
  }

  lemma OrderedAppend<A(!new)>(xs: seq<A>, x: A, less: (A, A) -> bool)
    requires Ordered(xs, less) && (xs != [] ==> !less(x, xs[|xs| - 1]))
    ensures Ordered(xs + [x], less)
  {
    assert (xs + [x])[..|xs|] == xs;
  }

  /** In an ordered list no element comes before one that should come after it. */
  lemma {:induction false} OrderedPairs<A(!new)>(xs: seq<A>, less: (A, A) -> bool, i: nat, k: nat)
    requires WeakOrder(less) && Ordered(xs, less) && i <= k < |xs|
    ensures !less(xs[k], xs[i])
    decreases |xs|, k - i
  {
    if k < |xs| - 1 {
      OrderedPairs(xs[..|xs| - 1], less, i, k);
    } else if i < k {
      OrderedPairs(xs[..|xs| - 1], less, i, k - 1);
    }
  }

  lemma {:induction false} InsertKeepsOrder<A(!new)>(sorted: seq<A>, x: A, less: (A, A) -> bool)
    requires WeakOrder(less) && Ordered(sorted, less)
    ensures Ordered(Insert(sorted, x, less), less)
  {
    if sorted != [] && less(x, sorted[|sorted| - 1]) {
      var front, last := sorted[..|sorted| - 1], sorted[|sorted| - 1];
      InsertKeepsOrder(front, x, less);
      OrderedAppend(Insert(front, x, less), last, less);
    } else {
      OrderedAppend(sorted, x, less);
    }
  }

  lemma {:induction false} InsertAddsOne<A(!new)>(sorted: seq<A>, x: A, less: (A, A) -> bool)
    ensures multiset(Insert(sorted, x, less)) == multiset(sorted) + multiset{x}
  {
    if sorted != [] && less(x, sorted[|sorted| - 1]) {
      assert sorted == sorted[..|sorted| - 1] + [sorted[|sorted| - 1]];
      InsertAddsOne(sorted[..|sorted| - 1], x, less);
    }
  }

  /** Elements among which there is no order. */
  ghost predicate Tied<A(!new)>(p: A -> bool, less: (A, A) -> bool) {
    forall x, y :: p(x) && p(y) ==> !less(x, y)
  }

  lemma {:induction false} InsertIsStable<A(!new)>(sorted: seq<A>, x: A, less: (A, A) -> bool, p: A -> bool)
    requires Tied(p, less)
    ensures Filter(Insert(sorted, x, less), p) == Filter(sorted, p) + if p(x) then [x] else []
  {
    if sorted != [] && less(x, sorted[|sorted| - 1]) {
      var front, last := sorted[..|sorted| - 1], sorted[|sorted| - 1];
      InsertIsStable(front, x, less, p);
      FilterAppend(Insert(front, x, less), last, p);
      FilterAppend(front, last, p);
      assert sorted == front + [last];
    } else {
      FilterAppend(sorted, x, p);
    }
  }

  /** Sorting is an ordered permutation. */
  lemma {:induction false} SortOrders<A(!new)>(xs: seq<A>, less: (A, A) -> bool)
    requires WeakOrder(less)
    ensures Ordered(Sort(xs, less), less)
    ensures multiset(Sort(xs, less)) == multiset(xs)
  {
    if xs != [] {
      var front, last := xs[..|xs| - 1], xs[|xs| - 1];
      assert xs == front + [last];
      SortOrders(front, less);
      InsertKeepsOrder(Sort(front, less), last, less);
      InsertAddsOne(Sort(front, less), last, less);
    }
  }

  /** Elements that sort alike keep their order. */
  lemma {:induction false} SortIsStable<A(!new)>(xs: seq<A>, less: (A, A) -> bool, p: A -> bool)
    requires Tied(p, less)
    ensures Filter(Sort(xs, less), p) == Filter(xs, p)
  {
    if xs != [] {
      var front, last := xs[..|xs| - 1], xs[|xs| - 1];
      SortIsStable(front, less, p);
      InsertIsStable(Sort(front, less), last, less, p);
      FilterAppend(front, last, p);
    }
  }

  // ---------------------------------------------------------------- sorting by a score, highest first

  /** Selects the elements of one score. */
  function Scoring<A(!new)>(key: A -> int, score: int): A -> bool {
    (x: A) => key(x) == score
  }

  function Higher<A(!new)>(key: A -> int): (A, A) -> bool {
    (x: A, y: A) => key(x) > key(y)
  }

  /** `list.sort(key=key, reverse=True)`: highest first, equals in their original order. */
  function SortDescending<A(!new)>(xs: seq<A>, key: A -> int): (r: seq<A>)
    ensures |r| == |xs|
  {
    Sort(xs, Higher(key))
  }

  ghost predicate Descending<A(!new)>(xs: seq<A>, key: A -> int) {
    Ordered(xs, Higher(key))
  }

  lemma DescendingAppend<A(!new)>(xs: seq<A>, x: A, key: A -> int)
    requires Descending(xs, key) && (xs != [] ==> key(xs[|xs| - 1]) >= key(x))
    ensures Descending(xs + [x], key)
  {
    OrderedAppend(xs, x, Higher(key));
  }

  lemma DescendingPairs<A(!new)>(xs: seq<A>, key: A -> int, i: nat, k: nat)
    requires Descending(xs, key) && i <= k < |xs|
    ensures key(xs[i]) >= key(xs[k])
  {
    OrderedPairs(xs, Higher(key), i, k);
  }

  /** Sorting is a permutation into descending order that keeps the order of equals. */
  lemma SortingIsStable<A(!new)>(xs: seq<A>, key: A -> int)
    ensures Descending(SortDescending(xs, key), key)
    ensures multiset(SortDescending(xs, key)) == multiset(xs)
    ensures forall score: int ::
      Filter(SortDescending(xs, key), Scoring(key, score)) == Filter(xs, Scoring(key, score))
  {
    SortOrders(xs, Higher(key));
    forall score: int
      ensures Filter(SortDescending(xs, key), Scoring(key, score)) == Filter(xs, Scoring(key, score))
    {
      SortIsStable(xs, Higher(key), Scoring(key, score));
    }
  }
}
