/**
  `std.fs.edit` on one version of one file: validation of a batch of
  line-addressed edits, the overlap check, and the bottom-up splice.
*/
module EditEngine {
  import opened Lines
  import opened Wrappers
  import Splice
  import StableSort

  /** One entry of the caller's `edits`; line numbers count from 1, both ends included. */
  datatype Request = Request(change: Change, expected: string)

  datatype Change = Change(startLine: nat, endLine: nat, replace: string)

  /** A request that passed, with the position the caller gave it (from 1). */
  datatype Edit = Edit(index: nat, change: Change)

  datatype Reason = BadRange | OutOfRange | ExpectMismatch

  datatype Failure = Failure(
    index: nat, reason: Reason, startLine: nat, endLine: nat,
    actual: Option<string>, fileLines: Option<nat>)

  // ----- validation -----

  predicate InFile(c: Change, n: nat) {
    1 <= c.startLine <= c.endLine <= n
  }

  /** The text at the lines a change names. */
  function TextAt(lines: seq<string>, c: Change): string
    requires InFile(c, |lines|)
  {
    Join(lines[c.startLine - 1..c.endLine])
  }

  predicate Passes(lines: seq<string>, r: Request) {
    InFile(r.change, |lines|) && TextAt(lines, r.change) == r.expected
  }

  /** The refusal of a request that does not pass. */
  function FailureOf(lines: seq<string>, r: Request, index: nat): Failure
    requires !Passes(lines, r)
  {
    var c := r.change;
    if c.startLine == 0 || c.endLine < c.startLine then
      Failure(index, BadRange, c.startLine, c.endLine, None, None)
    else if c.endLine > |lines| then
      Failure(index, OutOfRange, c.startLine, c.endLine, None, Some(|lines|))
    else
      Failure(index, ExpectMismatch, c.startLine, c.endLine, Some(TextAt(lines, c)), None)
  }

  function Accepted(lines: seq<string>, reqs: seq<Request>): seq<Edit> {
    if reqs == [] then []
    else
      var n := |reqs|;
      Accepted(lines, reqs[..n - 1]) +
      (if Passes(lines, reqs[n - 1]) then [Edit(n, reqs[n - 1].change)] else [])
  }

  function Failures(lines: seq<string>, reqs: seq<Request>): seq<Failure> {
    if reqs == [] then []
    else
      var n := |reqs|;
      Failures(lines, reqs[..n - 1]) +
      (if Passes(lines, reqs[n - 1]) then [] else [FailureOf(lines, reqs[n - 1], n)])
  }

  /** Checks every request against the lines as read, never stopping early. */
  method Validate(lines: seq<string>, reqs: seq<Request>) returns (edits: seq<Edit>, failures: seq<Failure>)
    ensures edits == Accepted(lines, reqs)
    ensures failures == Failures(lines, reqs)
  {
    edits, failures := [], [];
    for i := 0 to |reqs|
      invariant edits == Accepted(lines, reqs[..i])
      invariant failures == Failures(lines, reqs[..i])
    {
      assert reqs[..i + 1][..i] == reqs[..i];
      var c := reqs[i].change;
      if c.startLine == 0 || c.endLine < c.startLine {
        failures := failures + [Failure(i + 1, BadRange, c.startLine, c.endLine, None, None)];
      } else if c.endLine > |lines| {
        failures := failures + [Failure(i + 1, OutOfRange, c.startLine, c.endLine, None, Some(|lines|))];
      } else {
        var actual := Join(lines[c.startLine - 1..c.endLine]);
        if actual != reqs[i].expected {
          failures := failures + [Failure(i + 1, ExpectMismatch, c.startLine, c.endLine, Some(actual), None)];
        } else {
          edits := edits + [Edit(i + 1, c)];
        }
      }
    }
    assert reqs[..|reqs|] == reqs;
  }

  /** Position `e.index` of the batch passes, and `e` is the caller's own change there. */
  ghost predicate IsAccepted(lines: seq<string>, reqs: seq<Request>, e: Edit) {
    && 1 <= e.index <= |reqs|
    && Passes(lines, reqs[e.index - 1])
    && e.change == reqs[e.index - 1].change
  }

  /** Position `f.index` does not pass, and `f` says why and what is there instead. */
  ghost predicate IsRefused(lines: seq<string>, reqs: seq<Request>, f: Failure) {
    && 1 <= f.index <= |reqs|
    && !Passes(lines, reqs[f.index - 1])
    && f == FailureOf(lines, reqs[f.index - 1], f.index)
  }

  ghost predicate EditsInOrder(es: seq<Edit>) {
    forall i, j :: 0 <= i < j < |es| ==> es[i].index < es[j].index
  }

  ghost predicate FailuresInOrder(fs: seq<Failure>) {
    forall i, j :: 0 <= i < j < |fs| ==> fs[i].index < fs[j].index
  }

  lemma {:induction false} AcceptedMembers(lines: seq<string>, reqs: seq<Request>)
    ensures forall e :: e in Accepted(lines, reqs) <==> IsAccepted(lines, reqs, e)
    ensures EditsInOrder(Accepted(lines, reqs))
  {
    if reqs != [] {
      var init := reqs[..|reqs| - 1];
      AcceptedMembers(lines, init);
      forall e ensures IsAccepted(lines, reqs, e) <==>
        IsAccepted(lines, init, e) || (e.index == |reqs| && IsAccepted(lines, reqs, e)) {}
      var before, es := Accepted(lines, init), Accepted(lines, reqs);
      forall i, j | 0 <= i < j < |es| ensures es[i].index < es[j].index {
        assert es[i] == before[i] && IsAccepted(lines, init, before[i]);
        if j < |before| { assert es[j] == before[j]; }
      }
    }
  }

  lemma {:induction false} FailureMembers(lines: seq<string>, reqs: seq<Request>)
    ensures forall f :: f in Failures(lines, reqs) <==> IsRefused(lines, reqs, f)
    ensures FailuresInOrder(Failures(lines, reqs))
  {
    if reqs != [] {
      var init := reqs[..|reqs| - 1];
      FailureMembers(lines, init);
      forall f ensures IsRefused(lines, reqs, f) <==>
        IsRefused(lines, init, f) || (f.index == |reqs| && IsRefused(lines, reqs, f)) {}
      var before, fs := Failures(lines, init), Failures(lines, reqs);
      forall i, j | 0 <= i < j < |fs| ensures fs[i].index < fs[j].index {
        assert fs[i] == before[i] && IsRefused(lines, init, before[i]);
        if j < |before| { assert fs[j] == before[j]; }
      }
    }
  }

  lemma {:induction false} ValidationCount(lines: seq<string>, reqs: seq<Request>)
    ensures |Accepted(lines, reqs)| + |Failures(lines, reqs)| == |reqs|
  {
    if reqs != [] { ValidationCount(lines, reqs[..|reqs| - 1]); }
  }

  /**
    Validation partitions the batch: every position is accepted, with the
    caller's own change, or refused, with the right reason and the actual
    text, and never both; each list is in the caller's order, no repeats.
  */
  lemma ValidationPartitions(lines: seq<string>, reqs: seq<Request>)
    ensures var edits, failures := Accepted(lines, reqs), Failures(lines, reqs);
            && |edits| + |failures| == |reqs|
            && EditsInOrder(edits) && FailuresInOrder(failures)
            && (forall e :: e in edits <==> IsAccepted(lines, reqs, e))
            && (forall f :: f in failures <==> IsRefused(lines, reqs, f))
            && (forall e, f :: e in edits && f in failures ==> e.index != f.index)
  {
    AcceptedMembers(lines, reqs);
    FailureMembers(lines, reqs);
    ValidationCount(lines, reqs);
  }

  /** Whether the lines a change names are in the file, and are these. */
  ghost predicate Finds(lines: seq<string>, c: Change, found: seq<string>) {
    1 <= c.startLine <= c.endLine <= |lines| && found == lines[c.startLine - 1..c.endLine]
  }

  /** A request passes exactly when the lines it names are, one for one, the lines of the text it expects. */
  lemma PassesMeans(lines: seq<string>, r: Request)
    requires AllOneLine(lines)
    ensures Passes(lines, r) <==> Finds(lines, r.change, Split(r.expected))
  {
    if InFile(r.change, |lines|) {
      SplitJoin(lines[r.change.startLine - 1..r.change.endLine]);
      JoinSplit(r.expected);
    }
  }

  /** Why and how a request at a position is refused, in terms of its numbers and the lines of the file. */
  ghost predicate RightlyRefused(lines: seq<string>, r: Request, f: Failure) {
    var c := r.change;
    && f.startLine == c.startLine && f.endLine == c.endLine
    && !Finds(lines, c, Split(r.expected))
    && (f.reason == BadRange <==> c.startLine == 0 || c.endLine < c.startLine)
    && (f.reason == OutOfRange <==> 1 <= c.startLine <= c.endLine && c.endLine > |lines|)
    && f.fileLines == (if f.reason == OutOfRange then Some(|lines|) else None)
    && (f.reason == ExpectMismatch <==> f.actual.Some?)
    && (f.actual.Some? ==> Finds(lines, c, Split(f.actual.value)))
  }

  lemma RefusalMeans(lines: seq<string>, r: Request, index: nat)
    requires AllOneLine(lines) && !Passes(lines, r)
    ensures RightlyRefused(lines, r, FailureOf(lines, r, index))
  {
    PassesMeans(lines, r);
    if InFile(r.change, |lines|) {
      SplitJoin(lines[r.change.startLine - 1..r.change.endLine]);
    }
  }

  lemma AcceptanceMeans(lines: seq<string>, reqs: seq<Request>)
    requires AllOneLine(lines)
    ensures forall e :: e in Accepted(lines, reqs) <==> AcceptedByLines(lines, reqs, e)
  {
    AcceptedMembers(lines, reqs);
    forall e ensures IsAccepted(lines, reqs, e) <==> AcceptedByLines(lines, reqs, e) {
      if 1 <= e.index <= |reqs| { PassesMeans(lines, reqs[e.index - 1]); }
    }
  }

  /** Position `e.index` of the batch is the change `e`, and finds the lines of the text it expects. */
  ghost predicate AcceptedByLines(lines: seq<string>, reqs: seq<Request>, e: Edit) {
    && 1 <= e.index <= |reqs| && e.change == reqs[e.index - 1].change
    && Finds(lines, e.change, Split(reqs[e.index - 1].expected))
  }

  lemma FailuresMean(lines: seq<string>, reqs: seq<Request>)
    requires AllOneLine(lines)
    ensures forall f :: f in Failures(lines, reqs) ==>
              1 <= f.index <= |reqs| && RightlyRefused(lines, reqs[f.index - 1], f)
  {
    FailureMembers(lines, reqs);
    forall f | f in Failures(lines, reqs) ensures 1 <= f.index <= |reqs| && RightlyRefused(lines, reqs[f.index - 1], f) {
      assert IsRefused(lines, reqs, f);
      RefusalMeans(lines, reqs[f.index - 1], f.index);
    }
  }

  ghost predicate Refuses(failures: seq<Failure>, index: nat) {
    exists f :: f in failures && f.index == index
  }

  lemma {:induction false} RefusalThere(lines: seq<string>, reqs: seq<Request>, k: nat)
    requires k < |reqs| && !Passes(lines, reqs[k])
    ensures Refuses(Failures(lines, reqs), k + 1)
  {
    var f := FailureOf(lines, reqs[k], k + 1);
    FailureMembers(lines, reqs);
    assert IsRefused(lines, reqs, f);
    assert f in Failures(lines, reqs);
  }

  lemma NoFailureMissing(lines: seq<string>, reqs: seq<Request>)
    requires AllOneLine(lines)
    ensures forall k :: 0 <= k < |reqs| && !Finds(lines, reqs[k].change, Split(reqs[k].expected)) ==>
              Refuses(Failures(lines, reqs), k + 1)
  {
    forall k | 0 <= k < |reqs| && !Finds(lines, reqs[k].change, Split(reqs[k].expected))
      ensures Refuses(Failures(lines, reqs), k + 1)
    {
      PassesMeans(lines, reqs[k]);
      RefusalThere(lines, reqs, k);
    }
  }

  /**
    What validation says of a file and a batch, line for line: an edit is
    accepted exactly when its lines are those of the text it expects; a
    refusal gives the right reason and the lines that are there.
  */
  lemma ValidationMeans(lines: seq<string>, reqs: seq<Request>)
    requires AllOneLine(lines)
    ensures forall e :: e in Accepted(lines, reqs) <==> AcceptedByLines(lines, reqs, e)
    ensures forall f :: f in Failures(lines, reqs) ==>
              1 <= f.index <= |reqs| && RightlyRefused(lines, reqs[f.index - 1], f)
    ensures forall k :: 0 <= k < |reqs| && !Finds(lines, reqs[k].change, Split(reqs[k].expected)) ==>
              Refuses(Failures(lines, reqs), k + 1)
  {
    AcceptanceMeans(lines, reqs);
    FailuresMean(lines, reqs);
    NoFailureMissing(lines, reqs);
  }

  ghost predicate AllPass(lines: seq<string>, reqs: seq<Request>) {
    forall i :: 0 <= i < |reqs| ==> Passes(lines, reqs[i])
  }

  /** The batch itself, position by position. */
  ghost predicate IsBatch(edits: seq<Edit>, reqs: seq<Request>) {
    |edits| == |reqs| && forall i :: 0 <= i < |reqs| ==> edits[i] == Edit(i + 1, reqs[i].change)
  }

  lemma {:induction false} NoFailures(lines: seq<string>, reqs: seq<Request>)
    ensures Failures(lines, reqs) == [] <==> AllPass(lines, reqs)
  {
    if reqs != [] {
      var init, last := reqs[..|reqs| - 1], reqs[|reqs| - 1];
      NoFailures(lines, init);
      assert AllPass(lines, reqs) <==> AllPass(lines, init) && Passes(lines, last) by {
        if AllPass(lines, init) && Passes(lines, last) {
          forall i | 0 <= i < |reqs| ensures Passes(lines, reqs[i]) {
            if i < |init| { assert Passes(lines, init[i]); }
          }
        }
        if AllPass(lines, reqs) {
          forall i | 0 <= i < |init| ensures Passes(lines, init[i]) { assert Passes(lines, reqs[i]); }
        }
      }
    }
  }

  /** With nothing refused, the accepted list is the batch itself. */
  lemma {:induction false} AllAccepted(lines: seq<string>, reqs: seq<Request>)
    requires AllPass(lines, reqs)
    ensures IsBatch(Accepted(lines, reqs), reqs)
  {
    if reqs != [] {
      var init := reqs[..|reqs| - 1];
      forall i | 0 <= i < |init| ensures Passes(lines, init[i]) { assert Passes(lines, reqs[i]); }
      AllAccepted(lines, init);
      assert Passes(lines, reqs[|reqs| - 1]);
      assert Accepted(lines, reqs) == Accepted(lines, init) + [Edit(|reqs|, reqs[|reqs| - 1].change)];
    }
  }

  // ----- the overlap check -----

  /** Two line ranges that share a line. */
  predicate ShareLine(a: Change, b: Change) {
    a.startLine <= b.endLine && b.startLine <= a.endLine
  }

  ghost predicate Names(c: Change, line: nat) {
    c.startLine <= line <= c.endLine
  }

  ghost predicate NameOneLine(a: Change, b: Change) {
    exists line :: Names(a, line) && Names(b, line)
  }

  /** Two ranges share a line exactly when some line is in both. */
  lemma ShareLineMeans(a: Change, b: Change)
    requires a.startLine <= a.endLine && b.startLine <= b.endLine
    ensures ShareLine(a, b) <==> NameOneLine(a, b)
  {
    if ShareLine(a, b) {
      var line := if a.startLine < b.startLine then b.startLine else a.startLine;
      assert Names(a, line) && Names(b, line);
    }
  }

  predicate ByStart(a: Edit, b: Edit) {
    a.change.startLine <= b.change.startLine
  }

  function Ordered(edits: seq<Edit>): seq<Edit> {
    StableSort.Sort(ByStart, edits)
  }

  /** The first adjacent pair at or after `i` that touches, if any. */
  function FirstClash(ordered: seq<Edit>, i: nat): (r: Option<nat>)
    ensures r.Some? ==>
              i <= r.value && r.value + 1 < |ordered|
              && ordered[r.value].change.endLine >= ordered[r.value + 1].change.startLine
    ensures forall k :: i <= k && k + 1 < |ordered| && (r.Some? ==> k < r.value) ==>
              ordered[k].change.endLine < ordered[k + 1].change.startLine
    decreases |ordered| - i
  {
    if i + 1 >= |ordered| then None
    else if ordered[i].change.endLine >= ordered[i + 1].change.startLine then Some(i)
    else FirstClash(ordered, i + 1)
  }

  /** The `windows(2)` walk. */
  method FindClash(ordered: seq<Edit>) returns (r: Option<nat>)
    ensures r == FirstClash(ordered, 0)
  {
    var i := 0;
    while i + 1 < |ordered|
      invariant FirstClash(ordered, 0) == FirstClash(ordered, i)
    {
      if ordered[i].change.endLine >= ordered[i + 1].change.startLine {
        return Some(i);
      }
      i := i + 1;
    }
    return None;
  }

  function EditChange(e: Edit): Change { e.change }

  function RequestChange(r: Request): Change { r.change }

  /** No two positions of a list share a line. */
  ghost predicate PairwiseDisjoint<T>(at: T -> Change, xs: seq<T>) {
    forall i, j :: 0 <= i < j < |xs| ==> !ShareLine(at(xs[i]), at(xs[j]))
  }

  ghost predicate AllFit<T>(at: T -> Change, xs: seq<T>, n: nat) {
    forall i :: 0 <= i < |xs| ==> InFile(at(xs[i]), n)
  }

  lemma {:induction false} NeighboursSuffice(es: seq<Edit>, n: nat, i: nat, j: nat)
    requires AllFit(EditChange, es, n) && i < j < |es|
    requires forall k :: 0 <= k && k + 1 < |es| ==> es[k].change.endLine < es[k + 1].change.startLine
    ensures es[i].change.endLine < es[j].change.startLine
    decreases j - i
  {
    if i + 1 < j {
      NeighboursSuffice(es, n, i + 1, j);
      assert es[i].change.endLine < es[i + 1].change.startLine;
    }
  }

  lemma CountedTwice<T>(xs: seq<T>, i: nat, j: nat)
    requires i < j < |xs| && xs[i] == xs[j]
    ensures multiset(xs)[xs[i]] > 1
  {
    assert xs == xs[..j] + xs[j..];
    assert xs[i] in xs[..j] && xs[j] in xs[j..];
  }

  ghost predicate EachOnce<T(!new)>(xs: seq<T>) {
    forall x :: multiset(xs)[x] <= 1
  }

  ghost predicate MembersDisjoint<T(!new)>(at: T -> Change, xs: seq<T>) {
    forall x, y :: x in xs && y in xs && x != y ==> !ShareLine(at(x), at(y))
  }

  lemma MembersSuffice<T(!new)>(at: T -> Change, xs: seq<T>)
    requires EachOnce(xs) && MembersDisjoint(at, xs)
    ensures PairwiseDisjoint(at, xs)
  {
    forall i, j | 0 <= i < j < |xs| ensures !ShareLine(at(xs[i]), at(xs[j])) {
      if xs[i] == xs[j] { CountedTwice(xs, i, j); }
    }
  }

  lemma MembersFollow<T(!new)>(at: T -> Change, xs: seq<T>)
    requires PairwiseDisjoint(at, xs)
    ensures MembersDisjoint(at, xs)
  {
    forall x, y | x in xs && y in xs && x != y ensures !ShareLine(at(x), at(y)) {
      var i :| 0 <= i < |xs| && xs[i] == x;
      var j :| 0 <= j < |xs| && xs[j] == y;
      assert i < j || j < i;
    }
  }

  /** Disjointness counted by members, without positions. */
  lemma DisjointByMembers<T(!new)>(at: T -> Change, xs: seq<T>, n: nat)
    requires AllFit(at, xs, n)
    ensures PairwiseDisjoint(at, xs) <==> EachOnce(xs) && MembersDisjoint(at, xs)
  {
    if PairwiseDisjoint(at, xs) {
      forall x ensures multiset(xs)[x] <= 1 { OnceOnly(at, xs, n, x); }
      MembersFollow(at, xs);
    } else if EachOnce(xs) && MembersDisjoint(at, xs) {
      MembersSuffice(at, xs);
    }
  }

  lemma {:induction false} OnceOnly<T>(at: T -> Change, xs: seq<T>, n: nat, x: T)
    requires AllFit(at, xs, n) && PairwiseDisjoint(at, xs)
    ensures multiset(xs)[x] <= 1
  {
    if xs != [] {
      OnceOnly(at, xs[1..], n, x);
      assert xs == [xs[0]] + xs[1..];
      forall j | 1 <= j < |xs| ensures xs[j] != xs[0] { assert !ShareLine(at(xs[0]), at(xs[j])); }
    }
  }

  lemma DisjointPermutes<T(!new)>(at: T -> Change, xs: seq<T>, ys: seq<T>, n: nat)
    requires AllFit(at, xs, n) && AllFit(at, ys, n) && multiset(xs) == multiset(ys)
    ensures PairwiseDisjoint(at, xs) <==> PairwiseDisjoint(at, ys)
  {
    DisjointByMembers(at, xs, n);
    DisjointByMembers(at, ys, n);
    forall x ensures x in xs <==> x in ys { assert x in multiset(xs) <==> x in multiset(ys); }
  }

  lemma OrderedProps(edits: seq<Edit>, n: nat)
    requires AllFit(EditChange, edits, n)
    ensures multiset(Ordered(edits)) == multiset(edits) && |Ordered(edits)| == |edits|
    ensures AllFit(EditChange, Ordered(edits), n)
    ensures StableSort.Sorted(ByStart, Ordered(edits))
  {
    StableSort.SortKeepsElements(ByStart, edits);
    StableSort.SortSorts(ByStart, edits);
    var o := Ordered(edits);
    forall i | 0 <= i < |o| ensures InFile(o[i].change, n) {
      StableSort.SortMembers(ByStart, edits, o[i]);
    }
  }

  /** The lines a change puts in: none for the empty string, else its pieces. */
  function Replacement(c: Change): seq<string> {
    if c.replace == "" then [] else Split(c.replace)
  }

  function PatchOf(c: Change): Splice.Patch<string> {
    Splice.Patch(c.startLine, c.endLine, Replacement(c))
  }

  function Patches(edits: seq<Edit>): (ps: seq<Splice.Patch<string>>)
    ensures |ps| == |edits|
    ensures forall i :: 0 <= i < |edits| ==> ps[i] == PatchOf(edits[i].change)
  {
    seq(|edits|, i requires 0 <= i < |edits| => PatchOf(edits[i].change))
  }

  /**
    The adjacent-pair check on the sorted list refuses a batch exactly when
    some two of its edits, anywhere in the caller's list, share a line; an
    accepted batch is laid out with no two edits touching.
  */
  lemma OverlapCheckExact(edits: seq<Edit>, n: nat)
    requires AllFit(EditChange, edits, n)
    ensures FirstClash(Ordered(edits), 0).None? <==> PairwiseDisjoint(EditChange, edits)
    ensures FirstClash(Ordered(edits), 0).None? ==> Splice.Laid(Patches(Ordered(edits)), n)
  {
    var o := Ordered(edits);
    OrderedProps(edits, n);
    DisjointPermutes(EditChange, o, edits, n);
    if FirstClash(o, 0).None? {
      UnclashedIsLaid(o, n);
    } else {
      var k := FirstClash(o, 0).value;
      assert ByStart(o[k], o[k + 1]);
      assert ShareLine(EditChange(o[k]), EditChange(o[k + 1]));
    }
  }

  lemma UnclashedIsLaid(o: seq<Edit>, n: nat)
    requires AllFit(EditChange, o, n) && FirstClash(o, 0).None?
    ensures PairwiseDisjoint(EditChange, o) && Splice.Laid(Patches(o), n)
  {
    forall i, j | 0 <= i < j < |o| ensures o[i].change.endLine < o[j].change.startLine {
      NeighboursSuffice(o, n, i, j);
    }
    forall i | 0 <= i < |o| ensures Splice.Fits(Patches(o)[i], n) { assert InFile(EditChange(o[i]), n); }
  }

  /** Two edits with the same start line always count as overlapping. */
  lemma SameStartClashes(edits: seq<Edit>, n: nat, i: nat, j: nat)
    requires AllFit(EditChange, edits, n) && i < j < |edits|
    requires edits[i].change.startLine == edits[j].change.startLine
    ensures FirstClash(Ordered(edits), 0).Some?
  {
    OverlapCheckExact(edits, n);
    assert ShareLine(edits[i].change, edits[j].change);
  }

  // ----- the splice -----

  /** The patches a batch asks for, in no order. */
  ghost function PatchSet<T(!new)>(at: T -> Change, xs: seq<T>): set<Splice.Patch<string>> {
    set x | x in xs :: PatchOf(at(x))
  }

  lemma OrderedPatches(edits: seq<Edit>)
    ensures Splice.Members(Patches(Ordered(edits))) == PatchSet(EditChange, edits)
  {
    var ps, o := Patches(Ordered(edits)), Ordered(edits);
    forall e ensures e in o <==> e in edits { StableSort.SortMembers(ByStart, edits, e); }
    forall p ensures p in Splice.Members(ps) <==> p in PatchSet(EditChange, edits) {
      if p in ps {
        var i :| 0 <= i < |ps| && ps[i] == p;
        assert o[i] in edits && p == PatchOf(EditChange(o[i]));
      }
      if p in PatchSet(EditChange, edits) {
        var e :| e in edits && p == PatchOf(EditChange(e));
        var i :| 0 <= i < |o| && o[i] == e;
        assert ps[i] == p;
      }
    }
  }

  /** A disjoint batch, sorted: its patches do not touch, and are those it asks for. */
  lemma LaidOut(edits: seq<Edit>, n: nat)
    requires AllFit(EditChange, edits, n) && PairwiseDisjoint(EditChange, edits)
    ensures Splice.Laid(Patches(Ordered(edits)), n)
    ensures Splice.Members(Patches(Ordered(edits))) == PatchSet(EditChange, edits)
  {
    OverlapCheckExact(edits, n);
    OrderedPatches(edits);
  }

  lemma PositionOf(edits: seq<Edit>, e: Edit) returns (i: nat)
    requires e in edits
    ensures i < |Ordered(edits)| && Patches(Ordered(edits))[i] == PatchOf(e.change)
  {
    StableSort.SortMembers(ByStart, edits, e);
    i :| 0 <= i < |Ordered(edits)| && Ordered(edits)[i] == e;
  }

  /** Sorted and applied bottom up, a disjoint batch is substituted all at once. */
  lemma {:induction false} BatchIsSimultaneous(lines: seq<string>, edits: seq<Edit>)
    requires AllFit(EditChange, edits, |lines|) && PairwiseDisjoint(EditChange, edits)
    ensures Splice.Laid(Patches(Ordered(edits)), |lines|)
    ensures Splice.SpliceFrom(lines, Patches(Ordered(edits)), 0)
            == Splice.Simultaneous(lines, PatchSet(EditChange, edits))
  {
    LaidOut(edits, |lines|);
    Splice.SpliceIsSimultaneous(lines, Patches(Ordered(edits)));
  }

  /** What one edit adds to the lines before position `k`. */
  function GrowthOf(k: nat): Edit -> int {
    (e: Edit) => Splice.GrowthAt(PatchOf(e.change), k)
  }

  lemma {:induction false} GrowthIsSum(es: seq<Edit>, k: nat)
    ensures Splice.GrowthBefore(Patches(es), k) == StableSort.Sum(GrowthOf(k), es)
  {
    if es != [] {
      GrowthIsSum(es[1..], k);
      assert Patches(es)[1..] == Patches(es[1..]);
    }
  }

  /** Growth counted in the caller's order is growth counted in line order. */
  lemma GrowthOrdered(es: seq<Edit>, k: nat)
    ensures Splice.GrowthBefore(Patches(Ordered(es)), k) == Splice.GrowthBefore(Patches(es), k)
  {
    GrowthIsSum(es, k);
    GrowthIsSum(Ordered(es), k);
    StableSort.SumSort(ByStart, GrowthOf(k), es);
  }

  /**
    After an accepted batch the file has grown by the summed changes, and
    every line no edit names is where the edits above it have moved it,
    summed in the caller's own order.
  */
  lemma UntouchedLineLands(lines: seq<string>, edits: seq<Edit>, k: nat)
    requires AllFit(EditChange, edits, |lines|) && PairwiseDisjoint(EditChange, edits)
    ensures Splice.Lands(lines, PatchSet(EditChange, edits), Patches(edits), k)
  {
    LaidOut(edits, |lines|);
    GrowthOrdered(edits, k);
    GrowthOrdered(edits, |lines|);
    Splice.UntouchedLandsReordered(lines, Patches(Ordered(edits)), Patches(edits), k);
  }

  /** And every replacement text stands, line for line, where the edits above it have moved its range. */
  lemma ReplacementLands(lines: seq<string>, edits: seq<Edit>, e: Edit)
    requires AllFit(EditChange, edits, |lines|) && PairwiseDisjoint(EditChange, edits) && e in edits
    ensures Splice.PutLands(lines, PatchSet(EditChange, edits), Patches(edits), PatchOf(e.change))
  {
    LaidOut(edits, |lines|);
    var i := PositionOf(edits, e);
    GrowthOrdered(edits, PatchOf(e.change).first - 1);
    Splice.PatchLands(lines, Patches(Ordered(edits)), Patches(edits), i);
  }

  /** A replacement's lines are the pieces of its text: joined again they are the text, and none for the empty one. */
  lemma ReplacementText(c: Change)
    ensures AllOneLine(Replacement(c)) && Join(Replacement(c)) == c.replace
    ensures Replacement(c) == [] <==> c.replace == ""
  {
    SplitPieces(c.replace);
    JoinSplit(c.replace);
  }

  lemma OneLineSplice(out: seq<string>, p: Splice.Patch<string>)
    requires AllOneLine(out) && AllOneLine(p.put) && Splice.Fits(p, |out|)
    ensures AllOneLine(Splice.SpliceOne(out, p))
  {
  }

  /** Every line of a spliced file is one line, so it can be written and read back. */
  lemma {:induction false} SpliceKeepsLines(lines: seq<string>, edits: seq<Edit>, i: nat)
    requires i <= |edits| && Splice.Laid(Patches(edits), |lines|) && AllOneLine(lines)
    ensures AllOneLine(Splice.SpliceFrom(lines, Patches(edits), i))
    decreases |edits| - i
  {
    if i < |edits| {
      SpliceKeepsLines(lines, edits, i + 1);
      var c := edits[i].change;
      SplitPieces(c.replace);
      assert Patches(edits)[i] == PatchOf(c);
      OneLineSplice(Splice.SpliceFrom(lines, Patches(edits), i + 1), PatchOf(c));
    }
  }
}
