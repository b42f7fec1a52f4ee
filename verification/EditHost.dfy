/**
  `std.fs.edit` and `std.fs.rollback` over files and the one-level snapshot
  store, one call at a time, with outside writers and failed writes as
  steps of their own.
*/
module EditHost {
  import opened Lines
  import opened Wrappers
  import opened EditEngine
  import opened FileStore
  import Splice

  /** Why a batch is not applied. */
  datatype Refusal =
    | Stale(expectedVersion: string, actualVersion: string)
    | Rejected(failures: seq<Failure>)
    | NoEdits
    | Overlapping(editIndex: nat, otherEditIndex: nat)

  /** What a call carries: the version it was written against, or none, and its edits. */
  datatype Batch = Batch(base: string, edits: seq<Request>)

  type Plan = FileStore.Plan<Refusal, string>
  type Reply = FileStore.Reply<Refusal, string>

  predicate BaseHolds(version: string -> string, content: string, base: string) {
    base == "" || base == version(content)
  }

  /** The same for the lines of a file whose base holds. */
  datatype LinePlan = RefuseLines(why: Refusal) | EditLines(lines: seq<string>, count: nat)

  ghost function DecideLines(lines: seq<string>, reqs: seq<Request>): LinePlan {
    var failures, edits := Failures(lines, reqs), Accepted(lines, reqs);
    if failures != [] then RefuseLines(Rejected(failures))
    else if edits == [] then RefuseLines(NoEdits)
    else
      var o := Ordered(edits);
      match FirstClash(o, 0)
      case Some(k) => RefuseLines(Overlapping(o[k].index, o[k + 1].index))
      case None =>
        AcceptedLaid(lines, reqs);
        EditLines(Splice.SpliceFrom(lines, Patches(o), 0), |edits|)
  }

  ghost function Decide(version: string -> string, content: string, base: string, reqs: seq<Request>): Plan {
    if !BaseHolds(version, content, base) then Refuse(Stale(base, version(content)))
    else
      var was := SplitLines(content);
      match DecideLines(was.lines, reqs)
      case RefuseLines(why) => Refuse(why)
      case EditLines(lines, count) => Write(JoinLines(lines, was.trailing), count)
  }

  lemma AcceptedFit(lines: seq<string>, reqs: seq<Request>)
    ensures AllFit(EditChange, Accepted(lines, reqs), |lines|)
  {
  }

  lemma AcceptedLaid(lines: seq<string>, reqs: seq<Request>)
    requires FirstClash(Ordered(Accepted(lines, reqs)), 0).None?
    ensures Splice.Laid(Patches(Ordered(Accepted(lines, reqs))), |lines|)
  {
    AcceptedFit(lines, reqs);
    OverlapCheckExact(Accepted(lines, reqs), |lines|);
  }

  // ----- one call, as a property of the request -----

  /** When a batch is good: right base, something to do, every text as expected, no two edits touching. */
  ghost predicate Acceptable(version: string -> string, content: string, base: string, reqs: seq<Request>) {
    && BaseHolds(version, content, base)
    && reqs != []
    && AllPass(SplitLines(content).lines, reqs)
    && PairwiseDisjoint(RequestChange, reqs)
  }

  /** The lines an accepted batch leaves, without sorting or splicing. */
  ghost function EditedLines(content: string, reqs: seq<Request>): seq<string> {
    Splice.Simultaneous(SplitLines(content).lines, PatchSet(RequestChange, reqs))
  }

  /** A list of edits that is the batch asks for the same patches, and clashes exactly when the batch does. */
  lemma BatchPatches(edits: seq<Edit>, reqs: seq<Request>)
    requires IsBatch(edits, reqs)
    ensures PairwiseDisjoint(EditChange, edits) <==> PairwiseDisjoint(RequestChange, reqs)
    ensures PatchSet(EditChange, edits) == PatchSet(RequestChange, reqs)
  {
    assert forall i :: 0 <= i < |reqs| ==> EditChange(edits[i]) == RequestChange(reqs[i]);
    forall p ensures p in PatchSet(EditChange, edits) <==> p in PatchSet(RequestChange, reqs) {
      if p in PatchSet(EditChange, edits) {
        var e :| e in edits && p == PatchOf(EditChange(e));
        var i :| 0 <= i < |edits| && edits[i] == e;
        assert reqs[i] in reqs && p == PatchOf(RequestChange(reqs[i]));
      }
      if p in PatchSet(RequestChange, reqs) {
        var r :| r in reqs && p == PatchOf(RequestChange(r));
        var i :| 0 <= i < |reqs| && reqs[i] == r;
        assert edits[i] in edits && p == PatchOf(EditChange(edits[i]));
      }
    }
  }

  /** A batch that passes validation: when it clashes, and what it leaves. */
  lemma PassedBatch(lines: seq<string>, reqs: seq<Request>)
    requires AllPass(lines, reqs)
    ensures var edits := Accepted(lines, reqs);
            && |edits| == |reqs|
            && (FirstClash(Ordered(edits), 0).None? <==> PairwiseDisjoint(RequestChange, reqs))
            && (PairwiseDisjoint(RequestChange, reqs) ==>
                  && Splice.Laid(Patches(Ordered(edits)), |lines|)
                  && Splice.SpliceFrom(lines, Patches(Ordered(edits)), 0)
                     == Splice.Simultaneous(lines, PatchSet(RequestChange, reqs)))
  {
    var edits := Accepted(lines, reqs);
    AllAccepted(lines, reqs);
    AcceptedFit(lines, reqs);
    BatchPatches(edits, reqs);
    OverlapCheckExact(edits, |lines|);
    if PairwiseDisjoint(EditChange, edits) {
      BatchIsSimultaneous(lines, edits);
    }
  }

  lemma EditedExactlyWhenGood(lines: seq<string>, reqs: seq<Request>)
    ensures var good := reqs != [] && AllPass(lines, reqs) && PairwiseDisjoint(RequestChange, reqs);
            && (DecideLines(lines, reqs).EditLines? <==> good)
            && (good ==> DecideLines(lines, reqs)
                         == EditLines(Splice.Simultaneous(lines, PatchSet(RequestChange, reqs)), |reqs|))
  {
    NoFailures(lines, reqs);
    if AllPass(lines, reqs) {
      PassedBatch(lines, reqs);
    }
  }

  /**
    A batch is written exactly when it is acceptable, and then the file
    holds the simultaneous substitution with its trailing newline as it was.
  */
  lemma {:induction false} WrittenExactlyWhenAcceptable(version: string -> string, content: string, base: string, reqs: seq<Request>)
    ensures Decide(version, content, base, reqs).Write? <==> Acceptable(version, content, base, reqs)
    ensures Acceptable(version, content, base, reqs) ==>
              Decide(version, content, base, reqs)
              == Write(JoinLines(EditedLines(content, reqs), SplitLines(content).trailing), |reqs|)
  {
    EditedExactlyWhenGood(SplitLines(content).lines, reqs);
  }

  /** A batch no part of which fails, in terms of line numbers and texts alone. */
  ghost predicate EveryEditHolds(lines: seq<string>, reqs: seq<Request>) {
    && (forall i :: 0 <= i < |reqs| ==> Finds(lines, reqs[i].change, Split(reqs[i].expected)))
    && (forall i, j :: 0 <= i < j < |reqs| ==> !NameOneLine(reqs[i].change, reqs[j].change))
  }

  lemma PassesEach(lines: seq<string>, reqs: seq<Request>)
    requires AllOneLine(lines)
    ensures AllPass(lines, reqs) <==> forall i :: 0 <= i < |reqs| ==> Finds(lines, reqs[i].change, Split(reqs[i].expected))
  {
    forall i | 0 <= i < |reqs| ensures Passes(lines, reqs[i]) <==> Finds(lines, reqs[i].change, Split(reqs[i].expected)) {
      PassesMeans(lines, reqs[i]);
    }
  }

  lemma DisjointEach(reqs: seq<Request>)
    requires forall i :: 0 <= i < |reqs| ==> reqs[i].change.startLine <= reqs[i].change.endLine
    ensures PairwiseDisjoint(RequestChange, reqs) <==>
            forall i, j :: 0 <= i < j < |reqs| ==> !NameOneLine(reqs[i].change, reqs[j].change)
  {
    forall i, j | 0 <= i < j < |reqs|
      ensures ShareLine(RequestChange(reqs[i]), RequestChange(reqs[j])) <==> NameOneLine(reqs[i].change, reqs[j].change)
    {
      ShareLineMeans(reqs[i].change, reqs[j].change);
    }
  }

  lemma HoldsMeans(lines: seq<string>, reqs: seq<Request>)
    requires AllOneLine(lines)
    ensures AllPass(lines, reqs) && PairwiseDisjoint(RequestChange, reqs) <==> EveryEditHolds(lines, reqs)
  {
    PassesEach(lines, reqs);
    if AllPass(lines, reqs) {
      forall i | 0 <= i < |reqs| ensures reqs[i].change.startLine <= reqs[i].change.endLine { assert Passes(lines, reqs[i]); }
      DisjointEach(reqs);
    }
  }

  /**
    The same without the words of the validation: a batch is written exactly
    when the base is empty or the version read, there is an edit, each finds
    the lines of the text it expects, and no line is named by two.
  */
  lemma {:induction false} WrittenExactlyWhenEveryEditHolds(version: string -> string, content: string, base: string, reqs: seq<Request>)
    ensures Decide(version, content, base, reqs).Write? <==>
            (base == "" || base == version(content)) && reqs != [] && EveryEditHolds(SplitLines(content).lines, reqs)
  {
    WrittenExactlyWhenAcceptable(version, content, base, reqs);
    SplitLinesPieces(content);
    HoldsMeans(SplitLines(content).lines, reqs);
  }

  /** Two positions of a batch, by the caller's numbers, that name a line in common. */
  ghost predicate Clashing(reqs: seq<Request>, a: nat, b: nat) {
    && 1 <= a <= |reqs| && 1 <= b <= |reqs| && a != b
    && reqs[a - 1].change.startLine <= reqs[b - 1].change.startLine
    && NameOneLine(reqs[a - 1].change, reqs[b - 1].change)
  }

  lemma BatchMember(edits: seq<Edit>, reqs: seq<Request>, e: Edit)
    requires IsBatch(edits, reqs) && e in edits
    ensures 1 <= e.index <= |reqs| && reqs[e.index - 1].change == e.change
  {
  }

  lemma NeighboursClash(a: Edit, b: Edit, n: nat)
    requires InFile(a.change, n) && InFile(b.change, n) && ByStart(a, b) && a.change.endLine >= b.change.startLine
    ensures NameOneLine(a.change, b.change)
  {
    ShareLineMeans(a.change, b.change);
  }

  lemma OrderedAre(edits: seq<Edit>, n: nat, k: nat)
    requires AllFit(EditChange, edits, n) && k + 1 < |Ordered(edits)|
    ensures var o := Ordered(edits);
            o[k] in edits && o[k + 1] in edits && ByStart(o[k], o[k + 1])
            && InFile(o[k].change, n) && InFile(o[k + 1].change, n)
  {
    OrderedProps(edits, n);
    StableSort.SortMembers(ByStart, edits, Ordered(edits)[k]);
    StableSort.SortMembers(ByStart, edits, Ordered(edits)[k + 1]);
    assert InFile(EditChange(Ordered(edits)[k]), n) && InFile(EditChange(Ordered(edits)[k + 1]), n);
  }

  lemma {:induction false} ClashAmong(edits: seq<Edit>, reqs: seq<Request>, n: nat, k: nat)
    requires IsBatch(edits, reqs) && AllFit(EditChange, edits, n) && FirstClash(Ordered(edits), 0) == Some(k)
    ensures Clashing(reqs, Ordered(edits)[k].index, Ordered(edits)[k + 1].index)
  {
    var a, b := Ordered(edits)[k], Ordered(edits)[k + 1];
    OrderedAre(edits, n, k);
    NeighboursClash(a, b, n);
    OrderedIndexes(edits, k);
    BatchMember(edits, reqs, a);
    BatchMember(edits, reqs, b);
  }

  lemma {:induction false} ClashIsReal(lines: seq<string>, reqs: seq<Request>, k: nat)
    requires AllPass(lines, reqs) && FirstClash(Ordered(Accepted(lines, reqs)), 0) == Some(k)
    ensures var o := Ordered(Accepted(lines, reqs)); Clashing(reqs, o[k].index, o[k + 1].index)
  {
    AllAccepted(lines, reqs);
    AcceptedFit(lines, reqs);
    ClashAmong(Accepted(lines, reqs), reqs, |lines|, k);
  }

  /** Sorting moves every edit once, so neighbours are different positions of the batch. */
  lemma OrderedIndexes(edits: seq<Edit>, k: nat)
    requires EditsInOrder(edits) && k + 1 < |Ordered(edits)|
    ensures Ordered(edits)[k].index != Ordered(edits)[k + 1].index
  {
    var o := Ordered(edits);
    StableSort.SortKeepsElements(ByStart, edits);
    StableSort.SortMembers(ByStart, edits, o[k]);
    StableSort.SortMembers(ByStart, edits, o[k + 1]);
    if o[k].index == o[k + 1].index {
      var i :| 0 <= i < |edits| && edits[i] == o[k];
      var j :| 0 <= j < |edits| && edits[j] == o[k + 1];
      assert i == j;
      CountedTwice(o, k, k + 1);
      InOrderOnce(edits, o[k]);
    }
  }

  lemma {:induction false} InOrderOnce(edits: seq<Edit>, e: Edit)
    requires EditsInOrder(edits)
    ensures multiset(edits)[e] <= 1
  {
    if edits != [] {
      InOrderOnce(edits[1..], e);
      assert edits == [edits[0]] + edits[1..];
      if e == edits[0] { assert e !in edits[1..]; }
    }
  }

  /**
    Which refusal a batch gets, and what it says: a stale base before
    anything else; then every edit that fails, none left out; then an empty
    batch; then two edits that name a line in common.
  */
  lemma {:induction false} WhyRefused(version: string -> string, content: string, base: string, reqs: seq<Request>)
    requires Decide(version, content, base, reqs).Refuse?
    ensures var lines, why := SplitLines(content).lines, Decide(version, content, base, reqs).why;
            match why
            case Stale(expected, actual) => base != "" && expected == base && actual == version(content) != base
            case Rejected(failures) =>
              && (base == "" || base == version(content)) && failures == Failures(lines, reqs) != []
            case NoEdits => (base == "" || base == version(content)) && reqs == []
            case Overlapping(a, b) =>
              && (base == "" || base == version(content)) && Failures(lines, reqs) == [] && Clashing(reqs, a, b)
  {
    var lines := SplitLines(content).lines;
    if BaseHolds(version, content, base) && Failures(lines, reqs) == [] {
      NoFailures(lines, reqs);
      AllAccepted(lines, reqs);
      AcceptedMembers(lines, reqs);
      var o := Ordered(Accepted(lines, reqs));
      if FirstClash(o, 0).Some? {
        ClashIsReal(lines, reqs, FirstClash(o, 0).value);
      }
    }
  }

  /** The order in which the caller lists the edits does not matter. */
  lemma {:induction false} OrderDoesNotMatter(version: string -> string, content: string, base: string, a: seq<Request>, b: seq<Request>)
    requires multiset(a) == multiset(b)
    ensures Decide(version, content, base, a).Write? <==> Decide(version, content, base, b).Write?
    ensures Decide(version, content, base, a).Write? ==>
              Decide(version, content, base, a) == Decide(version, content, base, b)
  {
    WrittenExactlyWhenAcceptable(version, content, base, a);
    WrittenExactlyWhenAcceptable(version, content, base, b);
    SameMembers(a, b);
    var lines := SplitLines(content).lines;
    PassPermutes(lines, a, b);
    PassPermutes(lines, b, a);
    if AllPass(lines, a) {
      forall i | 0 <= i < |a| ensures InFile(RequestChange(a[i]), |lines|) { assert Passes(lines, a[i]); }
      forall i | 0 <= i < |b| ensures InFile(RequestChange(b[i]), |lines|) { assert Passes(lines, b[i]); }
      DisjointPermutes(RequestChange, a, b, |lines|);
      assert PatchSet(RequestChange, a) == PatchSet(RequestChange, b);
    }
  }

  lemma PassPermutes(lines: seq<string>, a: seq<Request>, b: seq<Request>)
    requires forall r :: r in b ==> r in a
    ensures AllPass(lines, a) ==> AllPass(lines, b)
  {
    if AllPass(lines, a) {
      forall i | 0 <= i < |b| ensures Passes(lines, b[i]) {
        assert b[i] in a;
        var j :| 0 <= j < |a| && a[j] == b[i];
        assert Passes(lines, a[j]);
      }
    }
  }

  lemma SameMembers(a: seq<Request>, b: seq<Request>)
    requires multiset(a) == multiset(b)
    ensures |a| == |b| && forall r :: r in a <==> r in b
  {
    assert |multiset(a)| == |multiset(b)|;
    forall r ensures r in a <==> r in b { assert r in multiset(a) <==> r in multiset(b); }
  }

  lemma {:induction false} EditedLinesAreLines(version: string -> string, content: string, base: string, reqs: seq<Request>)
    requires Acceptable(version, content, base, reqs)
    ensures AllOneLine(EditedLines(content, reqs))
  {
    var lines := SplitLines(content).lines;
    SplitLinesPieces(content);
    PassedBatch(lines, reqs);
    SpliceKeepsLines(lines, Ordered(Accepted(lines, reqs)), 0);
  }

  /**
    The next read of an edited file sees exactly the edited lines and the
    same trailing newline, unless every line was deleted or an unterminated
    file of several lines was left ending in an empty one.
  */
  lemma {:induction false} NextReadSeesTheEdit(version: string -> string, content: string, base: string, reqs: seq<Request>)
    requires Decide(version, content, base, reqs).Write?
    ensures var after := SplitLines(Decide(version, content, base, reqs).content);
            var out, trailing := EditedLines(content, reqs), SplitLines(content).trailing;
            && (after == Split2(out, trailing) <==> ReadsBack(out, trailing))
            && (out == [] ==> after == Split2([""], trailing))
            && (out != [] && !ReadsBack(out, trailing) ==> after == Split2(out[..|out| - 1], true))
  {
    WrittenExactlyWhenAcceptable(version, content, base, reqs);
    EditedLinesAreLines(version, content, base, reqs);
    SplitJoinLines(EditedLines(content, reqs), SplitLines(content).trailing);
  }

  // ----- the same, read off the request -----

  /** What follows the last newline of a text. */
  function LastPiece(text: string): string {
    Split(text)[|Split(text)| - 1]
  }

  /** It is empty exactly for a text that is empty or ends in a newline. */
  lemma LastPieceEmpty(text: string)
    ensures LastPiece(text) == "" <==> text == "" || text[|text| - 1] == '\n'
  {
    JoinSplit(text);
    SplitPieces(text);
    JoinEnds(Split(text));
  }

  ghost predicate SomeEndsAt(reqs: seq<Request>, n: nat) {
    exists r :: r in reqs && r.change.endLine == n
  }

  ghost function RequestEndingAt(reqs: seq<Request>, n: nat): (r: Request)
    requires SomeEndsAt(reqs, n)
    ensures r in reqs && r.change.endLine == n
  {
    var r :| r in reqs && r.change.endLine == n;
    r
  }

  /**
    The line the first `n` lines leave at the bottom: the last line itself if
    no edit ends there; the last piece of the edit's text; or, where the edit
    deletes, what the lines above it leave.
  */
  ghost function LastLine(lines: seq<string>, reqs: seq<Request>, n: nat): Option<string>
    requires n <= |lines| && AllFit(RequestChange, reqs, |lines|)
  {
    if n == 0 then None
    else if SomeEndsAt(reqs, n) then
      var r := RequestEndingAt(reqs, n);
      assert InFile(RequestChange(r), |lines|);
      if r.change.replace == "" then LastLine(lines, reqs, r.change.startLine - 1)
      else Some(LastPiece(r.change.replace))
    else Some(lines[n - 1])
  }

  /** How many lines the edits leave: each takes its range out and puts its pieces in. */
  function LinesLeft(lines: seq<string>, reqs: seq<Request>): int {
    if reqs == [] then |lines|
    else
      var c := reqs[|reqs| - 1].change;
      LinesLeft(lines, reqs[..|reqs| - 1]) + |Replacement(c)| - (c.endLine - c.startLine + 1)
  }

  lemma SeparateBatch(lines: seq<string>, reqs: seq<Request>)
    requires AllPass(lines, reqs) && PairwiseDisjoint(RequestChange, reqs)
    ensures Splice.Separate(PatchSet(RequestChange, reqs), |lines|)
  {
    var edits := Accepted(lines, reqs);
    AllAccepted(lines, reqs);
    AcceptedFit(lines, reqs);
    BatchPatches(edits, reqs);
    LaidOut(edits, |lines|);
    Splice.LaidIsSeparate(Patches(Ordered(edits)), |lines|);
  }

  lemma SameEnds(reqs: seq<Request>, n: nat)
    ensures SomeEndsAt(reqs, n) <==> Splice.EndsAt(PatchSet(RequestChange, reqs), n)
  {
    if SomeEndsAt(reqs, n) {
      var r :| r in reqs && r.change.endLine == n;
      assert PatchOf(RequestChange(r)) in PatchSet(RequestChange, reqs);
    }
    if Splice.EndsAt(PatchSet(RequestChange, reqs), n) {
      var p :| p in PatchSet(RequestChange, reqs) && p.last == n;
      var r :| r in reqs && p == PatchOf(RequestChange(r));
    }
  }

  /** Requests that end at the same line ask for the same patch. */
  lemma OnePatchEnds(lines: seq<string>, reqs: seq<Request>, r: Request, q: Splice.Patch<string>)
    requires Splice.Separate(PatchSet(RequestChange, reqs), |lines|)
    requires r in reqs && q in PatchSet(RequestChange, reqs) && r.change.endLine == q.last
    ensures PatchOf(r.change) == q
  {
    var p := PatchOf(RequestChange(r));
    assert p in PatchSet(RequestChange, reqs);
    assert Splice.Fits(p, |lines|) && Splice.Fits(q, |lines|);
    assert Splice.Overlap(p, q);
  }

  lemma LastOfReplacement(c: Change)
    ensures Replacement(c) == [] <==> c.replace == ""
    ensures Splice.LastOf(Replacement(c)) == if c.replace == "" then None else Some(LastPiece(c.replace))
  {
  }

  /** Where an edit ends, the last line is the last one it puts there, or what is left above it. */
  lemma LastLineAtEdit(lines: seq<string>, reqs: seq<Request>, p: Splice.Patch<string>)
    requires AllFit(RequestChange, reqs, |lines|)
    requires Splice.Separate(PatchSet(RequestChange, reqs), |lines|) && p in PatchSet(RequestChange, reqs)
    ensures LastLine(lines, reqs, p.last)
            == if p.put == [] then LastLine(lines, reqs, p.first - 1) else Splice.LastOf(p.put)
  {
    SameEnds(reqs, p.last);
    var r := RequestEndingAt(reqs, p.last);
    OnePatchEnds(lines, reqs, r, p);
    LastOfReplacement(r.change);
  }

  ghost function LastLineFrom(lines: seq<string>, reqs: seq<Request>): nat -> Option<string>
    requires AllFit(RequestChange, reqs, |lines|)
  {
    (n: nat) => if n <= |lines| then LastLine(lines, reqs, n) else None
  }

  lemma {:induction false} LastLineTracksEnd(lines: seq<string>, reqs: seq<Request>)
    requires AllFit(RequestChange, reqs, |lines|) && Splice.Separate(PatchSet(RequestChange, reqs), |lines|)
    ensures Splice.TracksEnd(LastLineFrom(lines, reqs), lines, PatchSet(RequestChange, reqs))
  {
    var ps, last := PatchSet(RequestChange, reqs), LastLineFrom(lines, reqs);
    forall p | p in ps ensures Splice.EndsWithPatch(last, p) {
      LastLineAtEdit(lines, reqs, p);
    }
    forall n: nat | Splice.Plain(ps, n) && 0 < n <= |lines| ensures last(n) == Some(lines[n - 1]) {
      SameEnds(reqs, n);
    }
  }

  lemma {:induction false} LinesLeftIsGrowth(lines: seq<string>, edits: seq<Edit>, reqs: seq<Request>)
    requires IsBatch(edits, reqs) && AllFit(EditChange, edits, |lines|)
    ensures LinesLeft(lines, reqs) == |lines| + Splice.GrowthBefore(Patches(edits), |lines|)
  {
    if reqs != [] {
      var n := |reqs| - 1;
      LinesLeftIsGrowth(lines, edits[..n], reqs[..n]);
      assert InFile(EditChange(edits[n]), |lines|);
      assert Patches(edits) == Patches(edits[..n]) + [PatchOf(edits[n].change)];
      Splice.GrowthAdd(Patches(edits[..n]), PatchOf(edits[n].change), |lines|);
    }
  }

  lemma PassedFit(lines: seq<string>, reqs: seq<Request>)
    requires AllPass(lines, reqs)
    ensures AllFit(RequestChange, reqs, |lines|)
  {
    forall i | 0 <= i < |reqs| ensures InFile(RequestChange(reqs[i]), |lines|) { assert Passes(lines, reqs[i]); }
  }

  /** The lines an accepted batch leaves: how many, and which one is last. */
  lemma LeftByBatch(lines: seq<string>, reqs: seq<Request>)
    requires AllPass(lines, reqs) && PairwiseDisjoint(RequestChange, reqs)
    ensures AllFit(RequestChange, reqs, |lines|)
    ensures var out := Splice.Simultaneous(lines, PatchSet(RequestChange, reqs));
            |out| == LinesLeft(lines, reqs) && Splice.LastOf(out) == LastLine(lines, reqs, |lines|)
  {
    var edits := Accepted(lines, reqs);
    PassedFit(lines, reqs);
    SeparateBatch(lines, reqs);
    LastLineTracksEnd(lines, reqs);
    Splice.ResultEnds(LastLineFrom(lines, reqs), lines, PatchSet(RequestChange, reqs));
    AllAccepted(lines, reqs);
    AcceptedFit(lines, reqs);
    BatchPatches(edits, reqs);
    LinesLeftIsGrowth(lines, edits, reqs);
    UntouchedLineLands(lines, edits, 0);
  }

  /** Whether a caller's batch is one whose result reads back as written. */
  ghost predicate KeepsItsEnd(content: string, reqs: seq<Request>)
    requires AllFit(RequestChange, reqs, |SplitLines(content).lines|)
  {
    var was := SplitLines(content);
    match LastLine(was.lines, reqs, |was.lines|)
    case None => false
    case Some(last) => was.trailing || LinesLeft(was.lines, reqs) == 1 || last != ""
  }

  /**
    The next read sees exactly the edited lines and the same trailing
    newline if and only if some line is left, and the file was terminated,
    or is left with one line, or is not left with an empty last line. The
    trailing newline alone is kept where no line is left, too.
  */
  lemma {:induction false} NextReadByRequest(version: string -> string, content: string, base: string, reqs: seq<Request>)
    requires Acceptable(version, content, base, reqs)
    ensures AllFit(RequestChange, reqs, |SplitLines(content).lines|)
    ensures Decide(version, content, base, reqs).Write?
    ensures SplitLines(Decide(version, content, base, reqs).content)
            == Split2(EditedLines(content, reqs), SplitLines(content).trailing)
            <==> KeepsItsEnd(content, reqs)
    ensures var was, after := SplitLines(content), SplitLines(Decide(version, content, base, reqs).content);
            after.trailing == was.trailing <==>
            KeepsItsEnd(content, reqs) || LastLine(was.lines, reqs, |was.lines|).None?
  {
    WrittenExactlyWhenAcceptable(version, content, base, reqs);
    NextReadSeesTheEdit(version, content, base, reqs);
    LeftByBatch(SplitLines(content).lines, reqs);
  }

  // ----- the calls -----

  /** `std.fs.edit` as the way the file store decides its edits. */
  ghost function EditEngineFor(version: string -> string): Engine<string, Batch, Refusal, string> {
    Engine((content, batch: Batch) => Decide(version, content, batch.base, batch.edits), version)
  }

  /** Validation, the overlap check and the splice. */
  method PrepareLines(lines: seq<string>, reqs: seq<Request>) returns (plan: LinePlan)
    ensures plan == DecideLines(lines, reqs)
  {
    var edits, failures := Validate(lines, reqs);
    if failures != [] {
      return RefuseLines(Rejected(failures));
    }
    if edits == [] {
      return RefuseLines(NoEdits);
    }
    var ordered := Ordered(edits);
    var clash := FindClash(ordered);
    if clash.Some? {
      return RefuseLines(Overlapping(ordered[clash.value].index, ordered[clash.value + 1].index));
    }
    AcceptedLaid(lines, reqs);
    var out := Splice.SpliceBottomUp(lines, Patches(ordered));
    return EditLines(out, |edits|);
  }

  /** Everything `edit` does between its read and its write. */
  method Prepare(version: string -> string, content: string, base: string, reqs: seq<Request>) returns (plan: Plan)
    ensures plan == Decide(version, content, base, reqs)
  {
    var currentVersion := version(content);
    if base != "" && base != currentVersion {
      return Refuse(Stale(base, currentVersion));
    }
    var was := SplitLines(content);
    var edited := PrepareLines(was.lines, reqs);
    match edited
    case RefuseLines(why) => return Refuse(why);
    case EditLines(lines, count) => return Write(JoinLines(lines, was.trailing), count);
  }

  class Host {
    var files: map<string, string>
    var snapshots: map<string, string>
    const versionOf: string -> string

    constructor (files: map<string, string>, versionOf: string -> string)
      ensures this.files == files && snapshots == map[] && this.versionOf == versionOf
    {
      this.files, snapshots, this.versionOf := files, map[], versionOf;
    }

    ghost function Now(): State<string>
      reads this
    {
      State(files, snapshots)
    }

    method Edit(path: string, batch: Batch, w: WriteOutcome<string>) returns (reply: Reply)
      modifies this
      ensures (Now(), reply) == EditStep(EditEngineFor(versionOf), old(Now()), path, batch, w)
    {
      if path !in files {
        return Raised;
      }
      var content := files[path];
      var plan := Prepare(versionOf, content, batch.base, batch.edits);
      if plan.Refuse? {
        return Refused(plan.why);
      }
      if w.WriteFailed? {
        files := Put(files, path, w.left);
        return Raised;
      }
      files := files[path := plan.content];
      snapshots := snapshots[path := content];
      return Applied(plan.count, versionOf(plan.content));
    }

    method Rollback(path: string, w: WriteOutcome<string>) returns (reply: Reply)
      modifies this
      ensures (Now(), reply) == RollbackStep(EditEngineFor(versionOf), old(Now()), path, w)
    {
      if path !in snapshots {
        return NoSnapshot;
      }
      var content := snapshots[path];
      snapshots := snapshots - {path};
      if w.WriteFailed? {
        files := Put(files, path, w.left);
        return Raised;
      }
      files := files[path := content];
      return RolledBack(versionOf(content));
    }
  }

  /**
    A batch that is not acceptable, for whatever reason, and one for a file
    that is not there, leave both stores as they were; an acceptable one
    whose write succeeds is applied in full, and the version it answers is
    the one the next call's `base` must name; one whose write fails is no
    edit: no snapshot, and no other file touched.
  */
  lemma {:induction false} AllOrNothing(version: string -> string, st: State<string>, path: string, batch: Batch, w: WriteOutcome<string>)
    ensures path !in st.files ==> EditStep(EditEngineFor(version), st, path, batch, w) == (st, Raised)
    ensures path in st.files ==> OneEdit(version, st, path, batch, w)
  {
    if path in st.files {
      WrittenExactlyWhenAcceptable(version, st.files[path], batch.base, batch.edits);
    }
  }

  ghost predicate OneEdit(version: string -> string, st: State<string>, path: string, batch: Batch, w: WriteOutcome<string>)
    requires path in st.files
  {
    var (after, reply) := EditStep(EditEngineFor(version), st, path, batch, w);
    var content := st.files[path];
    if !Acceptable(version, content, batch.base, batch.edits) then after == st && reply.Refused?
    else if w.Written? then
      && after.files == st.files[path := JoinLines(EditedLines(content, batch.edits), SplitLines(content).trailing)]
      && after.snapshots == st.snapshots[path := content]
      && reply == Applied(|batch.edits|, version(after.files[path]))
      && BaseHolds(version, after.files[path], reply.version)
    else
      && reply == Raised && after.snapshots == st.snapshots
      && after.files == (if w.left.Some? then st.files[path := w.left.value] else st.files - {path})
  }

  // ----- the two shapes that do not read back -----

  const UNTERMINATED := [Request(Change(2, 2, "x\n"), "b")]

  lemma UnterminatedLines()
    ensures SplitLines("a\nb") == Split2(["a", "b"], false)
    ensures Split("x\n") == ["x", ""]
  {
    assert ["a", "b"][1..] == ["b"] && ["x", ""][1..] == [""];
    assert Join(["a", "b"]) == "a" + "\n" + "b";
    assert Join(["x", ""]) == "x" + "\n" + "";
    SplitJoin(["a", "b"]);
    SplitJoin(["x", ""]);
  }

  lemma UnterminatedEdited()
    ensures EditedLines("a\nb", UNTERMINATED) == ["a", "x", ""]
  {
    UnterminatedLines();
    var lines, p := ["a", "b"], Splice.Patch(2, 2, ["x", ""]);
    assert PatchOf(UNTERMINATED[0].change) == p;
    assert PatchSet(RequestChange, UNTERMINATED) == {p} by { assert UNTERMINATED[0] in UNTERMINATED; }
    assert Splice.Members([p]) == {p};
    Splice.SpliceIsSimultaneous(lines, [p]);
    assert Splice.SpliceFrom(lines, [p], 1) == lines;
    assert Splice.SpliceFrom(lines, [p], 0) == ["a", "x", ""];
  }

  /** Replacing the last line of an unterminated file by a text that ends in a newline terminates the file. */
  lemma {:induction false} TrailingNewlineCanAppear(version: string -> string)
    ensures Decide(version, "a\nb", "", UNTERMINATED).Write?
    ensures !SplitLines("a\nb").trailing
    ensures SplitLines(Decide(version, "a\nb", "", UNTERMINATED).content) == Split2(["a", "x"], true)
  {
    UnterminatedLines();
    assert ["a", "b"][1..2] == ["b"];
    assert Acceptable(version, "a\nb", "", UNTERMINATED);
    WrittenExactlyWhenAcceptable(version, "a\nb", "", UNTERMINATED);
    NextReadSeesTheEdit(version, "a\nb", "", UNTERMINATED);
    UnterminatedEdited();
    assert ["a", "x", ""][..2] == ["a", "x"];
  }
}
