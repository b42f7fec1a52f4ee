/** Optional values, fallible results, and what several modules share. */
module Wrappers {
  datatype Option<+T> = None | Some(value: T)

  datatype Result<+T, +E> = Ok(value: T) | Err(error: E)

  /** The largest `u64`. */
  const U64_MAX := 0xFFFF_FFFF_FFFF_FFFF

  function AsSeq<T>(o: Option<T>): seq<T> {
    match o case Some(x) => [x] case None => []
  }

  /** The values `f` gives, in order, where it gives one. */
  function FilterMap<A, B>(f: A -> Option<B>, xs: seq<A>): seq<B> {
    if xs == [] then [] else AsSeq(f(xs[0])) + FilterMap(f, xs[1..])
  }

  lemma AppendAssociates<T>(a: seq<T>, b: seq<T>, c: seq<T>)
    ensures (a + b) + c == a + (b + c)
  {
  }

  lemma {:induction false} FilterMapAppend<A, B>(f: A -> Option<B>, xs: seq<A>, ys: seq<A>)
    ensures FilterMap(f, xs + ys) == FilterMap(f, xs) + FilterMap(f, ys)
  {
    if xs == [] {
      assert xs + ys == ys;
    } else {
      FilterMapAppend(f, xs[1..], ys);
      assert (xs + ys)[0] == xs[0] && (xs + ys)[1..] == xs[1..] + ys;
      AppendAssociates(AsSeq(f(xs[0])), FilterMap(f, xs[1..]), FilterMap(f, ys));
    }
  }

  /** The parts one after the other. */
  function Flatten<T>(parts: seq<seq<T>>): seq<T> {
    if parts == [] then [] else Flatten(parts[..|parts| - 1]) + parts[|parts| - 1]
  }

  lemma {:induction false} FlattenAdd<T>(parts: seq<seq<T>>, part: seq<T>)
    ensures Flatten(parts + [part]) == Flatten(parts) + part
  {
    assert (parts + [part])[..|parts|] == parts;
  }

  lemma {:induction false} FlattenAppend<T>(a: seq<seq<T>>, b: seq<seq<T>>)
    ensures Flatten(a + b) == Flatten(a) + Flatten(b)
    decreases |b|
  {
    if b == [] {
      assert a + b == a;
    } else {
      var init, last := b[..|b| - 1], b[|b| - 1];
      FlattenAppend(a, init);
      FlattenAdd(a + init, last);
      assert a + b == (a + init) + [last];
      AppendAssociates(Flatten(a), Flatten(init), last);
    }
  }

  lemma {:induction false} FlattenNext<T>(parts: seq<seq<T>>, i: nat)
    requires i < |parts|
    ensures Flatten(parts[..i + 1]) == Flatten(parts[..i]) + parts[i]
  {
    var front := parts[..i];
    FlattenAdd(front, parts[i]);
    assert parts[..i + 1] == front + [parts[i]];
  }

  lemma {:induction false} FlattenRest<T>(parts: seq<seq<T>>, i: nat)
    requires i <= |parts|
    ensures Flatten(parts) == Flatten(parts[..i]) + Flatten(parts[i..])
  {
    var front, back := parts[..i], parts[i..];
    FlattenAppend(front, back);
    assert parts == front + back;
  }

  /**
    Results that come, in order and one each, from the positions `at` of
    `xs`, `from` on, and `f` gives none anywhere else there.
  */
  ghost predicate FromPositions<A, B>(f: A -> Option<B>, xs: seq<A>, results: seq<B>, at: seq<nat>, from: nat := 0) {
    && |at| == |results|
    && (forall i, j :: 0 <= i < j < |at| ==> at[i] < at[j])
    && (forall i :: 0 <= i < |at| ==> from <= at[i] < |xs| && f(xs[at[i]]) == Some(results[i]))
    && (forall k :: from <= k < |xs| && f(xs[k]).Some? ==> k in at)
  }

  /** One result for every element that `f` gives something for, in order, and nothing else. */
  ghost predicate IsFilterMap<A, B>(f: A -> Option<B>, xs: seq<A>, results: seq<B>) {
    exists at: seq<nat> :: FromPositions(f, xs, results, at, 0)
  }

  lemma {:induction false} TakeAt<A, B>(f: A -> Option<B>, xs: seq<A>, results: seq<B>, rest: seq<nat>, from: nat)
    requires from < |xs| && f(xs[from]).Some? && FromPositions(f, xs, results, rest, from + 1)
    ensures FromPositions(f, xs, AsSeq(f(xs[from])) + results, [from] + rest, from)
  {
  }

  lemma {:induction false} FilterMapFrom<A, B>(f: A -> Option<B>, xs: seq<A>, from: nat) returns (at: seq<nat>)
    requires from <= |xs|
    ensures FromPositions(f, xs, FilterMap(f, xs[from..]), at, from)
    decreases |xs| - from
  {
    if from == |xs| {
      at := [];
    } else {
      at := FilterMapFrom(f, xs, from + 1);
      assert xs[from..][1..] == xs[from + 1..];
      if f(xs[from]).Some? {
        TakeAt(f, xs, FilterMap(f, xs[from + 1..]), at, from);
        at := [from] + at;
      }
    }
  }

  lemma FilterMapMeans<A, B>(f: A -> Option<B>, xs: seq<A>) returns (at: seq<nat>)
    ensures FromPositions(f, xs, FilterMap(f, xs), at)
    ensures IsFilterMap(f, xs, FilterMap(f, xs))
  {
    at := FilterMapFrom(f, xs, 0);
    assert xs[0..] == xs;
  }

  lemma {:induction false} SamePositions<A, B>(f: A -> Option<B>, xs: seq<A>, r: seq<B>, s: seq<B>, a: seq<nat>, b: seq<nat>, i: nat)
    requires FromPositions(f, xs, r, a) && FromPositions(f, xs, s, b) && i < |a|
    ensures i < |b| && a[i] == b[i]
    decreases i
  {
    if i > 0 { SamePositions(f, xs, r, s, a, b, i - 1); }
    assert a[i] in b;
    var j :| 0 <= j < |b| && b[j] == a[i];
    assert b[i] in a;
    var k :| 0 <= k < |a| && a[k] == b[i];
    if k < i { SamePositions(f, xs, r, s, a, b, k); }
  }

  /** That leaves no choice. */
  lemma {:induction false} OneFilterMap<A, B>(f: A -> Option<B>, xs: seq<A>, r: seq<B>, s: seq<B>, a: seq<nat>, b: seq<nat>)
    requires FromPositions(f, xs, r, a) && FromPositions(f, xs, s, b)
    ensures r == s
  {
    if |a| < |b| { SamePositions(f, xs, s, r, b, a, |a|); }
    if |b| < |a| { SamePositions(f, xs, r, s, a, b, |b|); }
    forall i | 0 <= i < |a| ensures a[i] == b[i] { SamePositions(f, xs, r, s, a, b, i); }
    forall i | 0 <= i < |r| ensures r[i] == s[i] { assert f(xs[a[i]]) == Some(r[i]); }
  }
}
