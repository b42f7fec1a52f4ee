/**
  Replacing ranges of a sequence, one at a time from the bottom and all at
  once, over any element type. Positions count from 1 as line numbers do.
*/
module Splice {
  import opened Wrappers

  /** Elements `first..last`, both included, make way for `put`. */
  datatype Patch<L> = Patch(first: nat, last: nat, put: seq<L>)

  predicate Fits<L>(p: Patch<L>, n: nat) {
    1 <= p.first <= p.last <= n
  }

  predicate Overlap<L>(p: Patch<L>, q: Patch<L>) {
    p.first <= q.last && q.first <= p.last
  }

  /** Patches in order with none touching another. */
  ghost predicate Laid<L>(ps: seq<Patch<L>>, n: nat) {
    && (forall i :: 0 <= i < |ps| ==> Fits(ps[i], n))
    && (forall i, j :: 0 <= i < j < |ps| ==> ps[i].last < ps[j].first)
  }

  // ----- bottom up, in place -----

  function SpliceOne<L>(out: seq<L>, p: Patch<L>): seq<L>
    requires Fits(p, |out|)
  {
    out[..p.first - 1] + p.put + out[p.last..]
  }

  /** The buffer after `ps[i..]` has been applied, last patch first. */
  ghost function SpliceFrom<L>(xs: seq<L>, ps: seq<Patch<L>>, i: nat): (out: seq<L>)
    requires i <= |ps| && Laid(ps, |xs|)
    ensures i > 0 ==> |out| >= ps[i - 1].last
    decreases |ps| - i
  {
    if i == |ps| then xs else SpliceOne(SpliceFrom(xs, ps, i + 1), ps[i])
  }

  method SpliceBottomUp<L>(xs: seq<L>, ps: seq<Patch<L>>) returns (out: seq<L>)
    requires Laid(ps, |xs|)
    ensures out == SpliceFrom(xs, ps, 0)
  {
    out := xs;
    var i := |ps|;
    while i > 0
      invariant 0 <= i <= |ps|
      invariant out == SpliceFrom(xs, ps, i)
    {
      i := i - 1;
      out := out[..ps[i].first - 1] + ps[i].put + out[ps[i].last..];
    }
  }

  // ----- all at once: the reference -----

  predicate Covers<L>(p: Patch<L>, k: nat) {
    p.first <= k + 1 <= p.last
  }

  ghost predicate Untouched<L(!new)>(ps: set<Patch<L>>, k: nat) {
    forall p :: p in ps ==> !Covers(p, k)
  }

  ghost predicate StartsAt<L(!new)>(ps: set<Patch<L>>, k: nat) {
    exists p :: p in ps && p.first == k + 1
  }

  ghost function PutAt<L(!new)>(ps: set<Patch<L>>, k: nat): seq<L>
    requires StartsAt(ps, k)
  {
    var p :| p in ps && p.first == k + 1;
    p.put
  }

  /** What original element `k` (from 0) turns into, whatever the others do. */
  ghost function Emit<L(!new)>(xs: seq<L>, ps: set<Patch<L>>, k: nat): seq<L>
    requires k < |xs|
  {
    if StartsAt(ps, k) then PutAt(ps, k)
    else if Untouched(ps, k) then [xs[k]]
    else []
  }

  ghost predicate EmitsAt<L(!new)>(emit: nat -> seq<L>, xs: seq<L>, ps: set<Patch<L>>, k: nat) {
    k < |xs| ==> emit(k) == Emit(xs, ps, k)
  }

  /** What every element turns into, as one function. */
  ghost function Emitter<L(!new)>(xs: seq<L>, ps: set<Patch<L>>): (emit: nat -> seq<L>)
    ensures forall k: nat :: EmitsAt(emit, xs, ps, k)
  {
    var each := (k: nat) => if k < |xs| then Emit(xs, ps, k) else [];
    assert forall k: nat :: EmitsAt(each, xs, ps, k);
    var emit: nat -> seq<L> :| forall k: nat :: EmitsAt(emit, xs, ps, k);
    emit
  }

  /** `emit(k) + ... + emit(n - 1)`. */
  ghost function Concat<L>(emit: nat -> seq<L>, n: nat, k: nat): seq<L>
    requires k <= n
    decreases n - k
  {
    if k == n then [] else emit(k) + Concat(emit, n, k + 1)
  }

  /** Every element from `k` on substituted at once, addressing the sequence as given. */
  ghost function Simultaneous<L(!new)>(xs: seq<L>, ps: set<Patch<L>>, k: nat := 0): seq<L>
    requires k <= |xs|
  {
    Concat(Emitter(xs, ps), |xs|, k)
  }

  lemma {:induction false} ConcatCopy<L>(emit: nat -> seq<L>, xs: seq<L>, k: nat, m: nat)
    requires k <= m <= |xs| && forall j :: k <= j < m ==> emit(j) == [xs[j]]
    ensures Concat(emit, |xs|, k) == xs[k..m] + Concat(emit, |xs|, m)
    decreases m - k
  {
    if k < m {
      ConcatCopy(emit, xs, k + 1, m);
      assert xs[k..m] == [xs[k]] + xs[k + 1..m];
      AppendAssociates([xs[k]], xs[k + 1..m], Concat(emit, |xs|, m));
    } else {
      assert xs[k..m] == [];
    }
  }

  lemma {:induction false} ConcatSkip<L>(emit: nat -> seq<L>, n: nat, k: nat, m: nat)
    requires k <= m <= n && forall j :: k <= j < m ==> emit(j) == []
    ensures Concat(emit, n, k) == Concat(emit, n, m)
    decreases m - k
  {
    if k < m { ConcatSkip(emit, n, k + 1, m); }
  }

  /** Later starting points give suffixes. */
  lemma {:induction false} ConcatSuffix<L>(emit: nat -> seq<L>, n: nat, k: nat, m: nat)
    requires k <= m <= n
    ensures var a, b := Concat(emit, n, k), Concat(emit, n, m); |b| <= |a| && a[|a| - |b|..] == b
    decreases m - k
  {
    if k < m {
      ConcatSuffix(emit, n, k + 1, m);
      var head, a, b := emit(k), Concat(emit, n, k + 1), Concat(emit, n, m);
      assert (head + a)[|head + a| - |b|..] == a[|a| - |b|..];
    }
  }

  ghost predicate Separate<L(!new)>(ps: set<Patch<L>>, n: nat) {
    && (forall p :: p in ps ==> Fits(p, n))
    && (forall p, q {:trigger Overlap(p, q)} :: p in ps && q in ps && p != q ==> !Overlap(p, q))
  }

  ghost function Members<L(!new)>(ps: seq<Patch<L>>): set<Patch<L>> {
    set p | p in ps
  }

  lemma EmitUntouched<L(!new)>(xs: seq<L>, ps: set<Patch<L>>, k: nat)
    requires k < |xs| && Separate(ps, |xs|) && Untouched(ps, k)
    ensures Emit(xs, ps, k) == [xs[k]]
  {
  }

  lemma EmitInside<L(!new)>(xs: seq<L>, ps: set<Patch<L>>, p: Patch<L>, k: nat)
    requires k < |xs| && Separate(ps, |xs|) && p in ps && p.first <= k && Covers(p, k)
    ensures Emit(xs, ps, k) == []
  {
    forall q | q in ps ensures q.first != k + 1 {
      if q.first == k + 1 { assert Overlap(p, q); }
    }
  }

  lemma EmitStart<L(!new)>(xs: seq<L>, ps: set<Patch<L>>, p: Patch<L>)
    requires p in ps && Separate(ps, |xs|)
    ensures Emit(xs, ps, p.first - 1) == p.put
  {
    forall q | q in ps && q.first == p.first ensures q == p { assert Overlap(p, q); }
  }

  lemma {:induction false} CopyRun<L(!new)>(xs: seq<L>, ps: set<Patch<L>>, k: nat, m: nat)
    requires k <= m <= |xs| && Separate(ps, |xs|)
    requires forall j :: k <= j < m ==> Untouched(ps, j)
    ensures Simultaneous(xs, ps, k) == xs[k..m] + Simultaneous(xs, ps, m)
  {
    var emit := Emitter(xs, ps);
    forall j | k <= j < m ensures emit(j) == [xs[j]] {
      assert EmitsAt(emit, xs, ps, j);
      EmitUntouched(xs, ps, j);
    }
    ConcatCopy(emit, xs, k, m);
  }

  /** Of a patch's range, only the first element turns into anything. */
  lemma {:induction false} SkipRun<L(!new)>(xs: seq<L>, ps: set<Patch<L>>, p: Patch<L>)
    requires p in ps && Separate(ps, |xs|)
    ensures Simultaneous(xs, ps, p.first) == Simultaneous(xs, ps, p.last)
  {
    var emit := Emitter(xs, ps);
    forall j | p.first <= j < p.last ensures emit(j) == [] {
      assert EmitsAt(emit, xs, ps, j);
      EmitInside(xs, ps, p, j);
    }
    ConcatSkip(emit, |xs|, p.first, p.last);
  }

  /** One patch, seen by the reference: what it puts, then what follows its last element. */
  lemma {:induction false} ReplaceRun<L(!new)>(xs: seq<L>, ps: set<Patch<L>>, p: Patch<L>)
    requires p in ps && Separate(ps, |xs|)
    ensures Simultaneous(xs, ps, p.first - 1) == p.put + Simultaneous(xs, ps, p.last)
  {
    assert EmitsAt(Emitter(xs, ps), xs, ps, p.first - 1);
    EmitStart(xs, ps, p);
    SkipRun(xs, ps, p);
  }

  lemma LaidIsSeparate<L(!new)>(ps: seq<Patch<L>>, n: nat)
    requires Laid(ps, n)
    ensures Separate(Members(ps), n)
  {
  }

  /** No patch reaches the elements between the end of one and the start of the next. */
  lemma GapUntouched<L(!new)>(ps: seq<Patch<L>>, n: nat, i: nat, k: nat)
    requires Laid(ps, n) && i <= |ps|
    requires i > 0 ==> ps[i - 1].last <= k
    requires i < |ps| ==> k + 1 < ps[i].first
    ensures Untouched(Members(ps), k)
  {
  }

  /** The reference from `k` to the start of patch `i`, or to the end. */
  lemma {:induction false} CopyGap<L(!new)>(xs: seq<L>, ps: seq<Patch<L>>, i: nat, k: nat, m: nat)
    requires Laid(ps, |xs|) && i <= |ps| && k <= m <= |xs|
    requires i > 0 ==> ps[i - 1].last <= k
    requires i < |ps| ==> m < ps[i].first
    ensures Simultaneous(xs, Members(ps), k) == xs[k..m] + Simultaneous(xs, Members(ps), m)
  {
    LaidIsSeparate(ps, |xs|);
    forall j | k <= j < m ensures Untouched(Members(ps), j) { GapUntouched(ps, |xs|, i, j); }
    CopyRun(xs, Members(ps), k, m);
  }

  /** The reference from `k` on, when patch `i` is the next one below. */
  lemma {:induction false} ReferenceAt<L(!new)>(xs: seq<L>, ps: seq<Patch<L>>, i: nat, k: nat)
    requires Laid(ps, |xs|) && i < |ps| && k < ps[i].first
    requires i > 0 ==> ps[i - 1].last <= k
    ensures Simultaneous(xs, Members(ps), k)
            == xs[k..ps[i].first - 1] + (ps[i].put + Simultaneous(xs, Members(ps), ps[i].last))
  {
    CopyGap(xs, ps, i, k, ps[i].first - 1);
    ReplaceAt(xs, ps, i);
  }

  lemma {:induction false} SpliceStep<L>(xs: seq<L>, inner: seq<L>, p: Patch<L>, k: nat, tail: seq<L>)
    requires Fits(p, |xs|) && k < p.first && |inner| >= p.last
    requires inner[..p.last] == xs[..p.last] && inner[p.last..] == tail
    ensures SpliceOne(inner, p)[..k] == xs[..k]
    ensures SpliceOne(inner, p)[k..] == xs[k..p.first - 1] + (p.put + tail)
  {
    var m := p.first - 1;
    assert inner[..m] == inner[..p.last][..m] == xs[..p.last][..m] == xs[..m];
    assert SpliceOne(inner, p) == xs[..k] + xs[k..m] + p.put + tail;
  }

  /** The bottom-up loop, cut at a point `k` above everything it has touched. */
  lemma {:induction false} SpliceSuffix<L(!new)>(xs: seq<L>, ps: seq<Patch<L>>, i: nat, k: nat)
    requires Laid(ps, |xs|) && i <= |ps| && k <= |xs|
    requires i < |ps| ==> k < ps[i].first
    requires i > 0 ==> ps[i - 1].last <= k
    ensures |SpliceFrom(xs, ps, i)| >= k
    ensures SpliceFrom(xs, ps, i)[..k] == xs[..k]
    ensures SpliceFrom(xs, ps, i)[k..] == Simultaneous(xs, Members(ps), k)
    decreases |ps| - i
  {
    if i == |ps| {
      CopyGap(xs, ps, i, k, |xs|);
      assert xs[k..|xs|] + [] == xs[k..];
    } else {
      SpliceSuffix(xs, ps, i + 1, ps[i].last);
      ReferenceAt(xs, ps, i, k);
      SpliceStep(xs, SpliceFrom(xs, ps, i + 1), ps[i], k, Simultaneous(xs, Members(ps), ps[i].last));
    }
  }

  /** The bottom-up splice is the simultaneous substitution. */
  lemma {:induction false} SpliceIsSimultaneous<L(!new)>(xs: seq<L>, ps: seq<Patch<L>>)
    requires Laid(ps, |xs|)
    ensures SpliceFrom(xs, ps, 0) == Simultaneous(xs, Members(ps))
  {
    SpliceSuffix(xs, ps, 0, 0);
  }

  // ----- where the untouched elements land -----

  function Growth<L>(p: Patch<L>): int {
    |p.put| - (p.last - p.first + 1)
  }

  function GrowthAt<L>(p: Patch<L>, k: nat): int {
    if p.last <= k then Growth(p) else 0
  }

  /** The summed length changes of the patches that end at or before position `k` (from 1). */
  function GrowthBefore<L>(ps: seq<Patch<L>>, k: nat): int {
    if ps == [] then 0
    else GrowthAt(ps[0], k) + GrowthBefore(ps[1..], k)
  }

  lemma {:induction false} GrowthNone<L>(ps: seq<Patch<L>>, k: nat)
    requires forall j :: 0 <= j < |ps| ==> ps[j].last > k
    ensures GrowthBefore(ps, k) == 0
  {
    if ps != [] { GrowthNone(ps[1..], k); }
  }

  lemma {:induction false} GrowthAdd<L>(ps: seq<Patch<L>>, p: Patch<L>, k: nat)
    requires p.last <= k
    ensures GrowthBefore(ps + [p], k) == GrowthBefore(ps, k) + Growth(p)
  {
    if ps != [] {
      GrowthAdd(ps[1..], p, k);
      assert (ps + [p])[1..] == ps[1..] + [p];
    }
  }

  /** Splitting the sum at the first patch below position `k`. */
  lemma {:induction false} GrowthSplit<L>(ps: seq<Patch<L>>, n: nat, i: nat, k: nat)
    requires Laid(ps, n) && i <= |ps| && k <= n
    requires forall j :: 0 <= j < i ==> ps[j].last <= k
    requires forall j :: i <= j < |ps| ==> ps[j].last > k
    ensures GrowthBefore(ps, n) == GrowthBefore(ps, k) + GrowthBefore(ps[i..], n)
  {
    if i == 0 {
      GrowthNone(ps, k);
      assert ps[i..] == ps;
    } else {
      GrowthSplit(ps[1..], n, i - 1, k);
      assert ps[1..][i - 1..] == ps[i..];
    }
  }

  lemma {:induction false} SpliceLength<L>(xs: seq<L>, ps: seq<Patch<L>>, i: nat)
    requires Laid(ps, |xs|) && i <= |ps|
    ensures |SpliceFrom(xs, ps, i)| == |xs| + GrowthBefore(ps[i..], |xs|)
    decreases |ps| - i
  {
    if i < |ps| {
      SpliceLength(xs, ps, i + 1);
      assert ps[i..][1..] == ps[i + 1..];
    }
  }

  /** Later starting points of the reference are its suffixes. */
  lemma {:induction false} SimultaneousSuffix<L(!new)>(xs: seq<L>, ps: set<Patch<L>>, k: nat)
    requires k <= |xs|
    ensures var a, b := Simultaneous(xs, ps), Simultaneous(xs, ps, k);
            |b| <= |a| && a[|a| - |b|..] == b
  {
    ConcatSuffix(Emitter(xs, ps), |xs|, 0, k);
  }

  /** The first of a laid-out list that starts below element `k` (from 0). */
  lemma {:induction false} FirstBelow<L(!new)>(ps: seq<Patch<L>>, n: nat, k: nat) returns (i: nat)
    requires Laid(ps, n) && k < n && Untouched(Members(ps), k)
    ensures i <= |ps|
    ensures forall j :: 0 <= j < i ==> ps[j].last <= k
    ensures forall j :: i <= j < |ps| ==> ps[j].first > k + 1
  {
    i := 0;
    while i < |ps| && ps[i].first <= k + 1
      invariant i <= |ps|
      invariant forall j :: 0 <= j < i ==> ps[j].last <= k
    {
      assert ps[i] in Members(ps);
      assert !Covers(ps[i], k);
      i := i + 1;
    }
  }

  /** The cut at `k`, between patch `i - 1` and patch `i`. */
  ghost predicate CutAt<L>(ps: seq<Patch<L>>, i: nat, k: nat) {
    && i <= |ps|
    && (forall j :: 0 <= j < i ==> ps[j].last <= k)
    && (forall j :: i <= j < |ps| ==> ps[j].first > k)
  }

  lemma {:induction false} TotalLength<L(!new)>(xs: seq<L>, ps: seq<Patch<L>>)
    requires Laid(ps, |xs|)
    ensures |Simultaneous(xs, Members(ps))| == |xs| + GrowthBefore(ps, |xs|)
  {
    SpliceIsSimultaneous(xs, ps);
    SpliceLength(xs, ps, 0);
    assert ps[0..] == ps;
  }

  lemma {:induction false} LengthFrom<L(!new)>(xs: seq<L>, ps: seq<Patch<L>>, i: nat, k: nat)
    requires Laid(ps, |xs|) && k <= |xs| && CutAt(ps, i, k)
    ensures |Simultaneous(xs, Members(ps), k)| == |xs| - k + GrowthBefore(ps[i..], |xs|)
  {
    SpliceSuffix(xs, ps, i, k);
    SpliceLength(xs, ps, i);
  }

  /** What comes out of `xs[k..]` starts at `k` plus the growth before it. */
  lemma {:induction false} Offset<L(!new)>(xs: seq<L>, ps: seq<Patch<L>>, i: nat, k: nat)
    requires Laid(ps, |xs|) && k <= |xs| && CutAt(ps, i, k)
    ensures var out, tail, at := Simultaneous(xs, Members(ps)), Simultaneous(xs, Members(ps), k), k + GrowthBefore(ps, k);
            0 <= at == |out| - |tail| && out[at..] == tail
  {
    TotalLength(xs, ps);
    LengthFrom(xs, ps, i, k);
    GrowthSplit(ps, |xs|, i, k);
    SimultaneousSuffix(xs, Members(ps), k);
  }

  /**
    The result has grown by the summed changes, and every element no patch
    names is where the patches before it have moved it.
  */
  lemma {:induction false} UntouchedLands<L(!new)>(xs: seq<L>, ps: seq<Patch<L>>, k: nat)
    requires Laid(ps, |xs|)
    ensures Lands(xs, Members(ps), ps, k)
  {
    TotalLength(xs, ps);
    if k < |xs| && Untouched(Members(ps), k) {
      var i := FirstBelow(ps, |xs|, k);
      Offset(xs, ps, i, k);
      CopyGap(xs, ps, i, k, k + 1);
      var out, at := Simultaneous(xs, Members(ps)), k + GrowthBefore(ps, k);
      assert xs[k..k + 1] == [xs[k]];
      assert out[at..][0] == xs[k];
    }
  }

  /** Where element `k` lands in the result of patches summed in any order `qs`. */
  ghost predicate Lands<L(!new)>(xs: seq<L>, ps: set<Patch<L>>, qs: seq<Patch<L>>, k: nat) {
    var out, at := Simultaneous(xs, ps), k + GrowthBefore(qs, k);
    && |out| == |xs| + GrowthBefore(qs, |xs|)
    && (k < |xs| && Untouched(ps, k) ==> 0 <= at < |out| && out[at] == xs[k])
  }

  lemma {:induction false} UntouchedLandsReordered<L(!new)>(xs: seq<L>, ps: seq<Patch<L>>, qs: seq<Patch<L>>, k: nat)
    requires Laid(ps, |xs|)
    requires GrowthBefore(ps, k) == GrowthBefore(qs, k) && GrowthBefore(ps, |xs|) == GrowthBefore(qs, |xs|)
    ensures Lands(xs, Members(ps), qs, k)
  {
    UntouchedLands(xs, ps, k);
  }

  /** Whether what `p` puts in stands, whole, where the patches before it have moved its place. */
  ghost predicate PutLands<L(!new)>(xs: seq<L>, ps: set<Patch<L>>, qs: seq<Patch<L>>, p: Patch<L>) {
    && p.first >= 1
    && var out, at := Simultaneous(xs, ps), p.first - 1 + GrowthBefore(qs, p.first - 1);
    0 <= at && at + |p.put| <= |out| && out[at..at + |p.put|] == p.put
  }

  lemma CutBefore<L>(ps: seq<Patch<L>>, n: nat, i: nat)
    requires Laid(ps, n) && i < |ps|
    ensures CutAt(ps, i, ps[i].first - 1)
  {
  }

  lemma {:induction false} OffsetOfPatch<L(!new)>(xs: seq<L>, ps: seq<Patch<L>>, i: nat)
    requires Laid(ps, |xs|) && i < |ps|
    ensures var out, at := Simultaneous(xs, Members(ps)), ps[i].first - 1 + GrowthBefore(ps, ps[i].first - 1);
            0 <= at <= |out| && out[at..] == Simultaneous(xs, Members(ps), ps[i].first - 1)
  {
    CutBefore(ps, |xs|, i);
    Offset(xs, ps, i, ps[i].first - 1);
  }

  lemma {:induction false} ReplaceAt<L(!new)>(xs: seq<L>, ps: seq<Patch<L>>, i: nat)
    requires Laid(ps, |xs|) && i < |ps|
    ensures Simultaneous(xs, Members(ps), ps[i].first - 1) == ps[i].put + Simultaneous(xs, Members(ps), ps[i].last)
  {
    LaidIsSeparate(ps, |xs|);
    ReplaceRun(xs, Members(ps), ps[i]);
  }

  lemma {:induction false} StartsWith<L>(out: seq<L>, at: nat, a: seq<L>, b: seq<L>)
    requires at <= |out| && out[at..] == a + b
    ensures at + |a| <= |out| && out[at..at + |a|] == a
  {
    assert |out[at..]| == |a| + |b|;
    assert out[at..at + |a|] == out[at..][..|a|];
  }

  /** Every replacement is found whole where it belongs. */
  lemma {:induction false} PatchLands<L(!new)>(xs: seq<L>, ps: seq<Patch<L>>, qs: seq<Patch<L>>, i: nat)
    requires Laid(ps, |xs|) && i < |ps|
    requires GrowthBefore(ps, ps[i].first - 1) == GrowthBefore(qs, ps[i].first - 1)
    ensures PutLands(xs, Members(ps), qs, ps[i])
  {
    OffsetOfPatch(xs, ps, i);
    ReplaceAt(xs, ps, i);
    var at := ps[i].first - 1 + GrowthBefore(ps, ps[i].first - 1);
    StartsWith(Simultaneous(xs, Members(ps)), at, ps[i].put, Simultaneous(xs, Members(ps), ps[i].last));
  }

  // ----- what the result ends with -----

  function LastOf<T>(s: seq<T>): Option<T> {
    if s == [] then None else Some(s[|s| - 1])
  }

  /** No patch reaches across the end of the first `n` elements. */
  ghost predicate Edge<L(!new)>(ps: set<Patch<L>>, n: nat) {
    forall p :: p in ps ==> p.last <= n || n < p.first
  }

  ghost predicate EndsAt<L(!new)>(ps: set<Patch<L>>, n: nat) {
    exists p :: p in ps && p.last == n
  }

  ghost function EndingAt<L(!new)>(ps: set<Patch<L>>, n: nat): (p: Patch<L>)
    requires EndsAt(ps, n)
    ensures p in ps && p.last == n
  {
    var p :| p in ps && p.last == n;
    p
  }

  ghost predicate Plain<L(!new)>(ps: set<Patch<L>>, n: nat) {
    Edge(ps, n) && !EndsAt(ps, n)
  }

  /**
    Whether `last(n)` says what the first `n` elements leave at the bottom:
    the last element put where a patch ends, or, where it deletes, what the
    elements above it leave; and an element itself where no patch ends.
  */
  ghost predicate TracksEnd<L(!new)>(last: nat -> Option<L>, xs: seq<L>, ps: set<Patch<L>>) {
    && last(0) == None
    && (forall p :: p in ps ==> EndsWithPatch(last, p))
    && (forall n: nat :: Plain(ps, n) && 0 < n <= |xs| ==> last(n) == Some(xs[n - 1]))
  }

  ghost predicate EndsWithPatch<L(!new)>(last: nat -> Option<L>, p: Patch<L>) {
    p.first >= 1 && last(p.last) == if p.put == [] then last(p.first - 1) else LastOf(p.put)
  }

  lemma EdgeAbove<L(!new)>(ps: set<Patch<L>>, n: nat, p: Patch<L>)
    requires Separate(ps, n) && p in ps
    ensures Edge(ps, p.first - 1)
  {
    forall q | q in ps ensures q.last <= p.first - 1 || p.first - 1 < q.first {
      if q != p { assert !Overlap(q, p); }
    }
  }

  lemma {:induction false} SuffixEnds<L(!new)>(xs: seq<L>, ps: set<Patch<L>>, k: nat)
    requires k <= |xs| && Simultaneous(xs, ps, k) != []
    ensures LastOf(Simultaneous(xs, ps)) == LastOf(Simultaneous(xs, ps, k))
  {
    SimultaneousSuffix(xs, ps, k);
    var all, tail := Simultaneous(xs, ps), Simultaneous(xs, ps, k);
    assert tail[|tail| - 1] == all[|all| - 1];
  }

  /** A patch with nothing left below it ends the result, or leaves that to what is above it. */
  lemma {:induction false} PatchEnds<L(!new)>(xs: seq<L>, ps: set<Patch<L>>, p: Patch<L>, last: nat -> Option<L>)
    requires Separate(ps, |xs|) && p in ps && Simultaneous(xs, ps, p.last) == [] && EndsWithPatch(last, p)
    ensures p.put != [] ==> LastOf(Simultaneous(xs, ps)) == last(p.last)
    ensures p.put == [] ==>
              Simultaneous(xs, ps, p.first - 1) == [] && Edge(ps, p.first - 1) && last(p.first - 1) == last(p.last)
  {
    ReplaceRun(xs, ps, p);
    assert p.put + [] == p.put;
    if p.put != [] {
      SuffixEnds(xs, ps, p.first - 1);
    } else {
      EdgeAbove(ps, |xs|, p);
    }
  }

  /** So does an element no patch names. */
  lemma {:induction false} PlainEnds<L(!new)>(xs: seq<L>, ps: set<Patch<L>>, n: nat)
    requires 0 < n <= |xs| && Separate(ps, |xs|) && Plain(ps, n) && Simultaneous(xs, ps, n) == []
    ensures LastOf(Simultaneous(xs, ps)) == Some(xs[n - 1])
  {
    CopyRun(xs, ps, n - 1, n);
    SuffixEnds(xs, ps, n - 1);
  }

  /** With nothing left of the elements from `n` on, the result ends as the first `n` do. */
  lemma {:induction false} EndFrom<L(!new)>(last: nat -> Option<L>, xs: seq<L>, ps: set<Patch<L>>, n: nat)
    requires Separate(ps, |xs|) && TracksEnd(last, xs, ps)
    requires n <= |xs| && Edge(ps, n) && Simultaneous(xs, ps, n) == []
    ensures LastOf(Simultaneous(xs, ps)) == last(n)
    decreases n
  {
    if n > 0 {
      if EndsAt(ps, n) {
        var p := EndingAt(ps, n);
        PatchEnds(xs, ps, p, last);
        if p.put == [] { EndFrom(last, xs, ps, p.first - 1); }
      } else {
        PlainEnds(xs, ps, n);
      }
    }
  }

  /** The last element of the result is the one an account of its end gives. */
  lemma {:induction false} ResultEnds<L(!new)>(last: nat -> Option<L>, xs: seq<L>, ps: set<Patch<L>>)
    requires Separate(ps, |xs|) && TracksEnd(last, xs, ps)
    ensures LastOf(Simultaneous(xs, ps)) == last(|xs|)
  {
    EndFrom(last, xs, ps, |xs|);
  }
}
