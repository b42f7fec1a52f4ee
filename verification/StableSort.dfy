/** The stable sort that `slice::sort_by_key` and `slice::sort_by` promise. */
module StableSort {

  ghost predicate TotalPreorder<T(!new)>(leq: (T, T) -> bool) {
    && (forall x, y :: leq(x, y) || leq(y, x))
    && (forall x, y, z :: leq(x, y) && leq(y, z) ==> leq(x, z))
  }

  ghost predicate Sorted<T>(leq: (T, T) -> bool, xs: seq<T>) {
    forall i, j :: 0 <= i < j < |xs| ==> leq(xs[i], xs[j])
  }

  function Insert<T>(leq: (T, T) -> bool, x: T, xs: seq<T>): seq<T> {
    if xs == [] then [x]
    else if leq(x, xs[0]) then [x] + xs
    else [xs[0]] + Insert(leq, x, xs[1..])
  }

  function Sort<T>(leq: (T, T) -> bool, xs: seq<T>): seq<T> {
    if xs == [] then [] else Insert(leq, xs[0], Sort(leq, xs[1..]))
  }

  lemma {:induction false} InsertKeepsElements<T>(leq: (T, T) -> bool, x: T, xs: seq<T>)
    ensures multiset(Insert(leq, x, xs)) == multiset{x} + multiset(xs)
  {
    if xs != [] && !leq(x, xs[0]) {
      InsertKeepsElements(leq, x, xs[1..]);
      assert xs == [xs[0]] + xs[1..];
    }
  }

  lemma {:induction false} SortKeepsElements<T>(leq: (T, T) -> bool, xs: seq<T>)
    ensures multiset(Sort(leq, xs)) == multiset(xs)
    ensures |Sort(leq, xs)| == |xs|
  {
    if xs != [] {
      SortKeepsElements(leq, xs[1..]);
      InsertKeepsElements(leq, xs[0], Sort(leq, xs[1..]));
      assert xs == [xs[0]] + xs[1..];
    }
    assert |multiset(Sort(leq, xs))| == |multiset(xs)|;
  }

  /** Membership form of the permutation, the one most proofs want. */
  lemma SortMembers<T>(leq: (T, T) -> bool, xs: seq<T>, x: T)
    ensures x in Sort(leq, xs) <==> x in xs
  {
    SortKeepsElements(leq, xs);
    assert x in multiset(Sort(leq, xs)) <==> x in multiset(xs);
  }

  lemma {:induction false} InsertSorted<T(!new)>(leq: (T, T) -> bool, x: T, xs: seq<T>)
    requires TotalPreorder(leq) && Sorted(leq, xs)
    ensures Sorted(leq, Insert(leq, x, xs))
  {
    if xs != [] && !leq(x, xs[0]) {
      InsertSorted(leq, x, xs[1..]);
      var rest := Insert(leq, x, xs[1..]);
      forall j | 0 <= j < |rest| ensures leq(xs[0], rest[j]) {
        InsertKeepsElements(leq, x, xs[1..]);
        assert rest[j] in multiset(rest);
        assert rest[j] == x || rest[j] in xs[1..];
      }
    }
  }

  lemma {:induction false} SortSorts<T(!new)>(leq: (T, T) -> bool, xs: seq<T>)
    requires TotalPreorder(leq)
    ensures Sorted(leq, Sort(leq, xs))
  {
    if xs != [] {
      SortSorts(leq, xs[1..]);
      InsertSorted(leq, xs[0], Sort(leq, xs[1..]));
    }
  }

  predicate Tied<T>(leq: (T, T) -> bool, x: T, y: T) {
    leq(x, y) && leq(y, x)
  }

  function IfTied<T>(leq: (T, T) -> bool, k: T, x: T): seq<T> {
    if Tied(leq, k, x) then [x] else []
  }

  /** The elements that compare equal to `k`, in order. */
  function Ties<T>(leq: (T, T) -> bool, k: T, xs: seq<T>): seq<T> {
    if xs == [] then []
    else IfTied(leq, k, xs[0]) + Ties(leq, k, xs[1..])
  }

  lemma TiesCons<T>(leq: (T, T) -> bool, k: T, x: T, xs: seq<T>)
    ensures Ties(leq, k, [x] + xs) == IfTied(leq, k, x) + Ties(leq, k, xs)
  {
    assert ([x] + xs)[1..] == xs;
  }

  /** What `x` is put behind does not tie with what it ties with. */
  ghost predicate PassesNoTie<T>(leq: (T, T) -> bool, k: T, x: T, xs: seq<T>) {
    forall i :: 0 <= i < |xs| && !leq(x, xs[i]) ==> !(Tied(leq, k, x) && Tied(leq, k, xs[i]))
  }

  lemma PreorderPassesNoTie<T(!new)>(leq: (T, T) -> bool, k: T, x: T, xs: seq<T>)
    requires TotalPreorder(leq)
    ensures PassesNoTie(leq, k, x, xs)
  {
  }

  lemma SwapEmpty<T>(a: seq<T>, b: seq<T>, rest: seq<T>)
    requires a == [] || b == []
    ensures a + (b + rest) == b + (a + rest)
  {
    if a == [] {
      assert a + (b + rest) == b + rest && a + rest == rest;
    } else {
      assert b + rest == rest && b + (a + rest) == a + rest;
    }
  }

  lemma {:induction false} InsertTies<T>(leq: (T, T) -> bool, k: T, x: T, xs: seq<T>)
    requires PassesNoTie(leq, k, x, xs)
    ensures Ties(leq, k, Insert(leq, x, xs)) == IfTied(leq, k, x) + Ties(leq, k, xs)
  {
    if xs == [] || leq(x, xs[0]) {
      TiesCons(leq, k, x, xs);
    } else {
      var y, rest := xs[0], xs[1..];
      InsertTies(leq, k, x, rest);
      TiesCons(leq, k, y, Insert(leq, x, rest));
      assert IfTied(leq, k, x) == [] || IfTied(leq, k, y) == [];
      SwapEmpty(IfTied(leq, k, y), IfTied(leq, k, x), Ties(leq, k, rest));
    }
  }

  /** Stability: elements that tie keep the order they were listed in. */
  lemma {:induction false} SortIsStable<T(!new)>(leq: (T, T) -> bool, k: T, xs: seq<T>)
    requires TotalPreorder(leq)
    ensures Ties(leq, k, Sort(leq, xs)) == Ties(leq, k, xs)
  {
    if xs != [] {
      SortIsStable(leq, k, xs[1..]);
      var rest := Sort(leq, xs[1..]);
      PreorderPassesNoTie(leq, k, xs[0], rest);
      InsertTies(leq, k, xs[0], rest);
    }
  }

  ghost predicate TiesAreEqual<T>(leq: (T, T) -> bool, xs: seq<T>) {
    forall i, j :: 0 <= i < |xs| && 0 <= j < |xs| && leq(xs[i], xs[j]) && leq(xs[j], xs[i]) ==> xs[i] == xs[j]
  }

  lemma SameHead<T(!new)>(leq: (T, T) -> bool, xs: seq<T>, ys: seq<T>)
    requires TotalPreorder(leq) && Sorted(leq, xs) && Sorted(leq, ys)
    requires multiset(xs) == multiset(ys) && TiesAreEqual(leq, xs) && xs != []
    ensures ys != [] && xs[0] == ys[0]
  {
    assert xs[0] in multiset(ys);
    var j :| 0 <= j < |ys| && ys[j] == xs[0];
    assert ys[0] in multiset(xs);
    var i :| 0 <= i < |xs| && xs[i] == ys[0];
    assert leq(xs[0], xs[i]);
    assert leq(ys[0], ys[j]);
  }

  lemma SameTail<T>(xs: seq<T>, ys: seq<T>)
    requires multiset(xs) == multiset(ys) && xs != [] && ys != [] && xs[0] == ys[0]
    ensures multiset(xs[1..]) == multiset(ys[1..])
  {
    assert xs == [xs[0]] + xs[1..];
    assert ys == [ys[0]] + ys[1..];
    assert multiset(xs[1..]) == multiset(xs) - multiset{xs[0]};
  }

  lemma {:induction false} SortedPermutationsEqual<T(!new)>(leq: (T, T) -> bool, xs: seq<T>, ys: seq<T>)
    requires TotalPreorder(leq) && Sorted(leq, xs) && Sorted(leq, ys)
    requires multiset(xs) == multiset(ys) && TiesAreEqual(leq, xs)
    ensures xs == ys
    decreases |xs|
  {
    if xs == [] {
      assert |multiset(ys)| == 0;
    } else {
      SameHead(leq, xs, ys);
      SameTail(xs, ys);
      SortedPermutationsEqual(leq, xs[1..], ys[1..]);
      assert xs == [xs[0]] + xs[1..] && ys == [ys[0]] + ys[1..];
    }
  }

  /** Where no two different elements tie, the order the input was in does not matter. */
  lemma SortIgnoresOrder<T(!new)>(leq: (T, T) -> bool, xs: seq<T>, ys: seq<T>)
    requires TotalPreorder(leq) && multiset(xs) == multiset(ys) && TiesAreEqual(leq, xs)
    ensures Sort(leq, xs) == Sort(leq, ys)
  {
    SortKeepsElements(leq, xs);
    SortKeepsElements(leq, ys);
    SortSorts(leq, xs);
    SortSorts(leq, ys);
    var a := Sort(leq, xs);
    forall i, j | 0 <= i < |a| && 0 <= j < |a| && leq(a[i], a[j]) && leq(a[j], a[i]) ensures a[i] == a[j] {
      SortMembers(leq, xs, a[i]);
      SortMembers(leq, xs, a[j]);
    }
    SortedPermutationsEqual(leq, a, Sort(leq, ys));
  }

  // ----- sums -----

  function Sum<T>(of: T -> int, xs: seq<T>): int {
    if xs == [] then 0 else of(xs[0]) + Sum(of, xs[1..])
  }

  lemma {:induction false} SumInsert<T>(leq: (T, T) -> bool, of: T -> int, x: T, xs: seq<T>)
    ensures Sum(of, Insert(leq, x, xs)) == of(x) + Sum(of, xs)
  {
    if xs == [] || leq(x, xs[0]) {
      assert ([x] + xs)[1..] == xs;
    } else {
      SumInsert(leq, of, x, xs[1..]);
      var tail := Insert(leq, x, xs[1..]);
      assert ([xs[0]] + tail)[1..] == tail;
    }
  }

  /** Sorting does not change a sum. */
  lemma {:induction false} SumSort<T>(leq: (T, T) -> bool, of: T -> int, xs: seq<T>)
    ensures Sum(of, Sort(leq, xs)) == Sum(of, xs)
  {
    if xs != [] {
      SumSort(leq, of, xs[1..]);
      SumInsert(leq, of, xs[0], Sort(leq, xs[1..]));
    }
  }
}
