/**
  The append-only history: events numbered from 1, binary-searched reads,
  and the incremental read a projection makes. Numbers are `u64` and stop
  at its maximum instead of wrapping.
*/
module EventLog {
  import opened Wrappers

  const FIRST_SEQ := 1

  /** A recorded event: what the kernel stamps, and the caller's object. */
  datatype Event<O> = Event(seqNo: nat, epochMs: nat, body: O)

  function SaturatingSucc(n: nat): nat {
    if n < U64_MAX then n + 1 else U64_MAX
  }

  function Filter<T>(p: T -> bool, xs: seq<T>): seq<T> {
    if xs == [] then []
    else (if p(xs[0]) then [xs[0]] else []) + Filter(p, xs[1..])
  }

  /** All that satisfy `p` come first. */
  ghost predicate Partitioned<T>(p: T -> bool, xs: seq<T>) {
    forall i, j :: 0 <= i < j < |xs| && p(xs[j]) ==> p(xs[i])
  }

  /** `slice::partition_point`: a binary search for the end of the leading run. */
  method PartitionPoint<T>(p: T -> bool, xs: seq<T>) returns (n: nat)
    requires Partitioned(p, xs)
    ensures n <= |xs|
    ensures forall i :: 0 <= i < n ==> p(xs[i])
    ensures forall i :: n <= i < |xs| ==> !p(xs[i])
  {
    var lo, hi := 0, |xs|;
    while lo < hi
      invariant 0 <= lo <= hi <= |xs|
      invariant forall i :: 0 <= i < lo ==> p(xs[i])
      invariant forall i :: hi <= i < |xs| ==> !p(xs[i])
    {
      var mid := (lo + hi) / 2;
      if p(xs[mid]) {
        lo := mid + 1;
      } else {
        hi := mid;
      }
    }
    return lo;
  }

  /** Where a sequence splits cleanly, its filter is a suffix. */
  lemma {:induction false} FilterIsSuffix<T>(p: T -> bool, xs: seq<T>, n: nat)
    requires n <= |xs|
    requires forall i :: 0 <= i < n ==> !p(xs[i])
    requires forall i :: n <= i < |xs| ==> p(xs[i])
    ensures Filter(p, xs) == xs[n..]
  {
    if xs != [] {
      if n == 0 {
        FilterIsSuffix(p, xs[1..], 0);
        assert xs[1..][0..] == xs[1..];
        assert xs[0..] == [xs[0]] + xs[1..];
      } else {
        FilterIsSuffix(p, xs[1..], n - 1);
        assert xs[1..][n - 1..] == xs[n..];
      }
    }
  }

  function SeqFrom<O>(from: nat): Event<O> -> bool {
    (e: Event<O>) => e.seqNo >= from
  }

  function SeqAfter<O>(after: nat): Event<O> -> bool {
    (e: Event<O>) => e.seqNo > after
  }

  /** The number the `i`-th accepted append (from 0) is given. */
  function SeqAt(i: nat): nat {
    if FIRST_SEQ + i <= U64_MAX then FIRST_SEQ + i else U64_MAX
  }

  ghost predicate Numbered<O>(events: seq<Event<O>>) {
    forall i :: 0 <= i < |events| ==> events[i].seqNo == SeqAt(i)
  }

  /** What is left of a log after its first `n` events. */
  ghost predicate SplitsAt<O>(events: seq<Event<O>>, n: nat, rest: seq<Event<O>>) {
    n <= |events| && rest == events[n..]
  }

  /** Numbers count up from 1 to the largest `u64`, and stay there. */
  lemma NumbersMean<O>(events: seq<Event<O>>, i: nat)
    requires Numbered(events) && i < |events|
    ensures events[i].seqNo == if i < 18446744073709551615 then i + 1 else 18446744073709551615
  {
  }

  ghost predicate StrictlyIncreasing<O>(events: seq<Event<O>>) {
    forall i, j :: 0 <= i < j < |events| ==> events[i].seqNo < events[j].seqNo
  }

  class History<O> {
    var events: seq<Event<O>>
    var nextSeq: nat

    ghost predicate Valid()
      reads this
    {
      Numbered(events) && nextSeq == SeqAt(|events|)
    }

    constructor ()
      ensures Valid() && events == []
    {
      events, nextSeq := [], FIRST_SEQ;
    }

    /** A rejected event leaves no trace; an accepted one goes at the end under the next number. */
    method Append(accepts: O -> bool, obj: O, nowMs: nat) returns (r: Option<nat>)
      requires Valid()
      modifies this
      ensures Valid()
      ensures r.Some? <==> accepts(obj)
      ensures r.None? ==> events == old(events) && nextSeq == old(nextSeq)
      ensures r.Some? ==> events == old(events) + [Event(r.value, nowMs, obj)]
      ensures r.Some? ==> r.value == old(nextSeq) == SeqAt(|old(events)|)
    {
      if !accepts(obj) {
        return None;
      }
      var number := nextSeq;
      events := events + [Event(number, nowMs, obj)];
      nextSeq := SaturatingSucc(number);
      return Some(number);
    }

    method Since(from: nat) returns (out: seq<Event<O>>)
      requires Valid()
      ensures out == Filter(SeqFrom(from), events)
      ensures exists n: nat :: SplitsAt(events, n, out) && forall i :: 0 <= i < |events| ==> (n <= i <==> events[i].seqNo >= from)
    {
      var start := PartitionPoint((e: Event<O>) => e.seqNo < from, events);
      FilterIsSuffix(SeqFrom(from), events, start);
      assert SplitsAt(events, start, events[start..]);
      return events[start..];
    }

    method SliceAfter(after: nat) returns (out: seq<Event<O>>)
      requires Valid()
      ensures out == Filter(SeqAfter(after), events)
      ensures exists n: nat :: SplitsAt(events, n, out) && forall i :: 0 <= i < |events| ==> (n <= i <==> events[i].seqNo > after)
    {
      var start := PartitionPoint((e: Event<O>) => e.seqNo <= after, events);
      FilterIsSuffix(SeqAfter(after), events, start);
      assert SplitsAt(events, start, events[start..]);
      return events[start..];
    }

    method Tail(n: nat) returns (out: seq<Event<O>>)
      requires Valid()
      ensures |out| == if n < |events| then n else |events|
      ensures exists front :: events == front + out
    {
      var start := if n < |events| then |events| - n else 0;
      assert events == events[..start] + events[start..];
      return events[start..];
    }
  }

  /** Numbers strictly increase exactly as long as there are no more than `u64::MAX` events. */
  lemma StrictUpToTheMaximum<O>(events: seq<Event<O>>)
    requires Numbered(events)
    ensures StrictlyIncreasing(events) <==> |events| <= U64_MAX
  {
    if |events| > U64_MAX {
      var i, j := U64_MAX - 1, U64_MAX;
      assert events[i].seqNo == U64_MAX && events[j].seqNo == U64_MAX;
    }
  }

  // ----- incremental reads -----

  /** Each log is every earlier one with events added at the end. */
  ghost predicate Growing<O>(logs: seq<seq<Event<O>>>) {
    forall i, j :: 0 <= i <= j < |logs| ==> logs[i] <= logs[j]
  }

  /** Where a reader that has seen `seen` goes on from. */
  function CursorOf<O>(cursor: nat, seen: seq<Event<O>>): nat {
    if seen == [] then cursor else seen[|seen| - 1].seqNo
  }

  /** One `slice_after` per log from `logs[i]` on, each from the last number seen. */
  function ReadAll<O>(logs: seq<seq<Event<O>>>, i: nat, cursor: nat): seq<Event<O>>
    requires i <= |logs|
    decreases |logs| - i
  {
    if i == |logs| then []
    else
      var part := Filter(SeqAfter(cursor), logs[i]);
      part + ReadAll(logs, i + 1, CursorOf(cursor, part))
  }

  lemma FilterAfter<O>(log: seq<Event<O>>, n: nat)
    requires Numbered(log) && n <= |log| && n < U64_MAX
    ensures Filter(SeqAfter(n), log) == log[n..]
  {
    FilterIsSuffix(SeqAfter(n), log, n);
  }

  lemma CursorMoves<O>(log: seq<Event<O>>, n: nat)
    requires Numbered(log) && n <= |log| && n < U64_MAX
    ensures CursorOf(n, log[n..]) == if |log| < U64_MAX then |log| else U64_MAX
  {
  }

  /** Past the maximum the numbers stand still, and a reader that has seen it is shown nothing more. */
  lemma PastTheMaximumIsLost<O>(log: seq<Event<O>>)
    requires Numbered(log)
    ensures Filter(SeqAfter(U64_MAX), log) == []
  {
    FilterIsSuffix(SeqAfter(U64_MAX), log, |log|);
    assert log[|log|..] == [];
  }

  lemma {:induction false} NothingMore<O>(logs: seq<seq<Event<O>>>, i: nat)
    requires i <= |logs|
    requires forall k :: i <= k < |logs| ==> Numbered(logs[k])
    ensures ReadAll(logs, i, U64_MAX) == []
    decreases |logs| - i
  {
    if i < |logs| {
      PastTheMaximumIsLost(logs[i]);
      NothingMore(logs, i + 1);
    }
  }

  lemma PrefixSplit<T>(a: seq<T>, b: seq<T>, n: nat)
    requires a <= b && n <= |a|
    ensures b[n..] == a[n..] + b[|a|..]
  {
  }

  lemma SameFront<T>(front: seq<T>, x: seq<T>, y: seq<T>)
    ensures front + x == front + y <==> x == y
  {
    assert (front + x)[|front|..] == x && (front + y)[|front|..] == y;
  }

  /** No read from the `i`th on finds the numbers used up while events are still to come. */
  ghost predicate NoneStopsShort<O>(logs: seq<seq<Event<O>>>, i: nat, size: nat) {
    forall k :: i <= k < |logs| && U64_MAX <= |logs[k]| ==> |logs[k]| == size
  }

  lemma {:induction false} ReadRest<O>(logs: seq<seq<Event<O>>>, last: seq<Event<O>>, i: nat, n: nat)
    requires i < |logs| && Growing(logs) && last == logs[|logs| - 1] && n <= |logs[i]|
    requires n < U64_MAX && (forall k :: 0 <= k < |logs| ==> Numbered(logs[k]))
    ensures n <= |last|
    ensures ReadAll(logs, i, n) == last[n..] <==> NoneStopsShort(logs, i, |last|)
    decreases |logs| - i
  {
    var log := logs[i];
    assert log <= last;
    FilterAfter(log, n);
    CursorMoves(log, n);
    PrefixSplit(log, last, n);
    if |log| >= U64_MAX {
      NothingMore(logs, i + 1);
      SameFront(log[n..], [], last[|log|..]);
      assert log[n..] + [] == log[n..];
      AllAtLeast(logs, i, last);
    } else if i + 1 < |logs| {
      assert log <= logs[i + 1];
      ReadRest(logs, last, i + 1, |log|);
      SameFront(log[n..], ReadAll(logs, i + 1, |log|), last[|log|..]);
    } else {
      assert last[|log|..] == [];
    }
  }

  lemma AllAtLeast<O>(logs: seq<seq<Event<O>>>, i: nat, last: seq<Event<O>>)
    requires i < |logs| && Growing(logs) && last == logs[|logs| - 1] && |logs[i]| >= U64_MAX
    ensures NoneStopsShort(logs, i, |last|) <==> |logs[i]| == |last|
  {
  }

  /**
    Reads made at any times, each from the last number seen, put together
    the log as it stands at the last of them, nothing lost and nothing twice,
    exactly when no read but one of the finished log meets the largest number.
  */
  lemma IncrementalReadsAreWhole<O>(logs: seq<seq<Event<O>>>)
    requires logs != [] && Growing(logs)
    requires Numbered(logs[|logs| - 1])
    ensures ReadAll(logs, 0, 0) == logs[|logs| - 1] <==> NoneStopsShort(logs, 0, |logs[|logs| - 1]|)
  {
    forall k | 0 <= k < |logs|
      ensures Numbered(logs[k])
    {
      assert logs[k] <= logs[|logs| - 1];
    }
    ReadRest(logs, logs[|logs| - 1], 0, 0);
    assert logs[|logs| - 1][0..] == logs[|logs| - 1];
  }
}

/** `agent-block knl`'s paged reader over a stored stream that may grow while it reads. */
module LogReader {
  import opened EventLog
  import opened Wrappers

  const PAGE := 512

  /** The store's read: the first `limit` events at or after a number, in order. */
  function StoreRead<O>(log: seq<Event<O>>, from: nat, limit: nat): seq<Event<O>> {
    var found := Filter(SeqFrom(from), log);
    if |found| <= limit then found else found[..limit]
  }

  /** A stored stream: strictly increasing numbers, all of them `u64`. */
  ghost predicate Stream<O>(log: seq<Event<O>>) {
    StrictlyIncreasing(log) && forall i :: 0 <= i < |log| ==> log[i].seqNo <= U64_MAX
  }

  /** A stream over time, `seen(k)` being what the `k`-th read finds: events are only ever added at its end. */
  ghost predicate OverTime<O(!new)>(seen: nat -> seq<Event<O>>) {
    forall k: nat :: GrowsFrom(seen, k)
  }

  ghost predicate GrowsFrom<O>(seen: nat -> seq<Event<O>>, k: nat) {
    Stream(seen(k)) && seen(k) <= seen(k + 1)
  }

  /** Whether `n` events are a whole number of pages. */
  predicate WholePages(n: nat) {
    n % PAGE == 0
  }

  /** Whether the last event of a log is read twice: its number is the largest there is, and it ends a full page. */
  predicate Echoes<O>(log: seq<Event<O>>) {
    log != [] && WholePages(|log|) && log[|log| - 1].seqNo == U64_MAX
  }

  /** Pages are of 512 events, and the number is the largest `u64`. */
  lemma EchoesMean<O>(log: seq<Event<O>>)
    ensures Echoes(log) <==> log != [] && |log| % 512 == 0 && log[|log| - 1].seqNo == 18446744073709551615
  {
  }

  function Echo<O>(log: seq<Event<O>>): seq<Event<O>> {
    if Echoes(log) then [log[|log| - 1]] else []
  }

  function Min(a: nat, b: nat): nat {
    if a < b then a else b
  }

  /** Reading on from just after the first `n` events gives the next page of them. */
  lemma NextPage<O>(log: seq<Event<O>>, n: nat, from: nat)
    requires Stream(log) && n <= |log|
    requires if n == 0 then from == 0 else from == log[n - 1].seqNo + 1
    ensures var m := Min(n + PAGE, |log|);
            && StoreRead(log, from, PAGE) == log[n..m]
            && (n < m ==> from <= log[n].seqNo)
  {
    FilterIsSuffix(SeqFrom(from), log, n);
  }

  /** A cursor stuck at the maximum finds the last event again. */
  lemma ReadAtMaximum<O>(log: seq<Event<O>>, n: nat)
    requires Stream(log) && 0 < n <= |log| && log[n - 1].seqNo == U64_MAX
    ensures n == |log| && StoreRead(log, U64_MAX, PAGE) == [log[n - 1]]
  {
    forall i | 0 <= i < |log| - 1 ensures log[i].seqNo < U64_MAX { assert log[i].seqNo < log[|log| - 1].seqNo; }
    FilterIsSuffix(SeqFrom(U64_MAX), log, |log| - 1);
  }

  /** A reader that has the first `n` events, and the cursor it goes on with. */
  ghost predicate AtCursor<O>(log: seq<Event<O>>, n: nat, from: nat) {
    && n <= |log|
    && if n == 0 then from == 0 else from == SaturatingSucc(log[n - 1].seqNo)
  }

  /** The last page of a log, not full, completes it. */
  lemma PartPage<O>(log: seq<Event<O>>, n: nat)
    requires WholePages(n) && n < |log| < n + PAGE
    ensures Echo(log) == [] && log[..n] + log[n..] == log + Echo(log)
  {
  }

  /** A full page moves the cursor on. */
  lemma FullPage<O>(log: seq<Event<O>>, n: nat, from: nat)
    requires Stream(log) && n + PAGE <= |log| && from <= log[n].seqNo
    ensures var next := SaturatingSucc(log[n + PAGE - 1].seqNo);
            next > from && AtCursor(log, n + PAGE, next)
  {
  }

  /** What one page after a whole number of them is: one more, or the end of the log. */
  ghost predicate PageOutcome<O>(log: seq<Event<O>>, n: nat, from: nat, page: seq<Event<O>>)
    requires n <= |log|
  {
    if page == [] then log[..n] == log && Echo(log) == []
    else
      var next := SaturatingSucc(page[|page| - 1].seqNo);
      if |page| >= PAGE && next > from then
        |page| == PAGE && n + PAGE <= |log| && log[..n] + page == log[..n + PAGE] && AtCursor(log, n + PAGE, next)
      else log[..n] + page == log + Echo(log)
  }

  lemma PageStuck<O>(log: seq<Event<O>>, n: nat)
    requires Stream(log) && WholePages(n) && 0 < n <= |log| && log[n - 1].seqNo == U64_MAX
    ensures PageOutcome(log, n, U64_MAX, StoreRead(log, U64_MAX, PAGE))
  {
    ReadAtMaximum(log, n);
    assert log[..n] == log;
  }

  lemma PageNext<O>(log: seq<Event<O>>, n: nat, from: nat, page: seq<Event<O>>)
    requires Stream(log) && WholePages(n) && n <= |log|
    requires n > 0 ==> log[n - 1].seqNo < U64_MAX
    requires page == log[n..Min(n + PAGE, |log|)] && (n < |log| ==> from <= log[n].seqNo)
    ensures PageOutcome(log, n, from, page)
  {
    if n == |log| {
      assert log[..n] == log;
    } else if |log| < n + PAGE {
      assert page == log[n..];
      PartPage(log, n);
    } else {
      FullPage(log, n, from);
      assert page[PAGE - 1] == log[n + PAGE - 1];
      assert log[..n] + page == log[..n + PAGE];
    }
  }

  lemma PageStep<O>(log: seq<Event<O>>, n: nat, from: nat)
    requires Stream(log) && WholePages(n) && AtCursor(log, n, from)
    ensures PageOutcome(log, n, from, StoreRead(log, from, PAGE))
  {
    if n > 0 && log[n - 1].seqNo == U64_MAX {
      PageStuck(log, n);
    } else {
      NextPage(log, n, from);
      PageNext(log, n, from, StoreRead(log, from, PAGE));
    }
  }

  lemma CursorCarries<O>(log: seq<Event<O>>, later: seq<Event<O>>, n: nat, from: nat)
    requires log <= later && AtCursor(log, n, from)
    ensures AtCursor(later, n, from) && log[..n] == later[..n]
  {
  }

  /** The number the read after these pages asks from: just past the last event, or 0. */
  function AsksFrom<O>(pages: seq<seq<Event<O>>>): nat {
    if pages == [] || pages[|pages| - 1] == [] then 0
    else
      var last := pages[|pages| - 1];
      SaturatingSucc(last[|last| - 1].seqNo)
  }

  /** The pages of `n` reads made one after the other, each from just past the one before. */
  function PagesRead<O>(read: (nat, nat) -> seq<Event<O>>, n: nat): (pages: seq<seq<Event<O>>>)
    ensures |pages| == n
  {
    if n == 0 then []
    else
      var before := PagesRead(read, n - 1);
      before + [read(n - 1, AsksFrom(before))]
  }

  /** The `k`-th read of the store. */
  function ReadAt<O>(seen: nat -> seq<Event<O>>): (nat, nat) -> seq<Event<O>> {
    (k: nat, from: nat) => StoreRead(seen(k), from, PAGE)
  }

  /** `all` is the log, exactly unless its last event is read twice; then it comes twice and nothing else differs. */
  ghost predicate WholeLog<O>(log: seq<Event<O>>, all: seq<Event<O>>) {
    && (all == log <==> !Echoes(log))
    && (Echoes(log) ==> all == log + [log[|log| - 1]])
  }

  lemma EchoSeen<O>(log: seq<Event<O>>)
    ensures WholeLog(log, log + Echo(log))
  {
    assert |log + Echo(log)| == |log| + |Echo(log)|;
    assert log + [] == log;
  }

  /** What is kept of a reader's pages: what they add up to, and where they have got to. */
  ghost predicate Kept<O>(read: (nat, nat) -> seq<Event<O>>, n: nat, got: seq<Event<O>>, from: nat) {
    got == Flatten(PagesRead(read, n)) && from == AsksFrom(PagesRead(read, n))
  }

  lemma KeepPage<O>(read: (nat, nat) -> seq<Event<O>>, n: nat, got: seq<Event<O>>, from: nat, page: seq<Event<O>>)
    requires Kept(read, n, got, from) && page == read(n, from)
    ensures Kept(read, n + 1, got + page, if page == [] then 0 else SaturatingSucc(page[|page| - 1].seqNo))
  {
    FlattenAdd(PagesRead(read, n), page);
  }

  /** A reader that has got the first pages of a log, and the cursor it goes on with. */
  ghost predicate Reading<O>(log: seq<Event<O>>, got: seq<Event<O>>, from: nat) {
    from <= U64_MAX && WholePages(|got|) && AtCursor(log, |got|, from) && got == log[..|got|]
  }

  /** Whether a page is one to go on from. */
  predicate GoesOn<O>(from: nat, page: seq<Event<O>>) {
    |page| >= PAGE && SaturatingSucc(page[|page| - 1].seqNo) > from
  }

  /** The next page, and what it makes of what has been got: a longer beginning, or the whole. */
  method ReadPage<O>(log: seq<Event<O>>, ghost later: seq<Event<O>>, ghost got: seq<Event<O>>, from: nat)
    returns (page: seq<Event<O>>)
    requires Stream(log) && log <= later && Reading(log, got, from)
    ensures page == StoreRead(log, from, PAGE)
    ensures GoesOn(from, page) ==> Reading(later, got + page, SaturatingSucc(page[|page| - 1].seqNo))
    ensures !GoesOn(from, page) ==> WholeLog(log, got + page)
  {
    page := StoreRead(log, from, PAGE);
    PageStep(log, |got|, from);
    EchoSeen(log);
    if GoesOn(from, page) {
      CursorCarries(log, later, |got| + PAGE, SaturatingSucc(page[|page| - 1].seqNo));
    } else if page == [] {
      assert got + page == log + Echo(log);
    }
  }

  ghost predicate NoneFails(fails: nat -> bool, n: nat) {
    forall k :: 0 <= k < n ==> !fails(k)
  }

  /**
    Reads page after page until one is not full; `fails` says which reads
    of the store fail, and the first that does ends everything. Otherwise
    the result is the log as the final read saw it, events appended between
    pages included, if and only if no event numbered `u64::MAX` ends a full
    page of it; if one does, it comes twice and nothing else is different.
  */
  method ReadWhole<O(!new)>(seen: nat -> seq<Event<O>>, fails: nat -> bool)
    returns (all: Option<seq<Event<O>>>, readings: nat)
    requires OverTime(seen)
    ensures readings > 0 && NoneFails(fails, readings - 1)
    ensures all.None? <==> fails(readings - 1)
    ensures all.Some? ==> WholeLog(seen(readings - 1), all.value)
    ensures all.Some? ==> all.value == Flatten(PagesRead(ReadAt(seen), readings))
  {
    var from, got := 0, [];
    readings := 0;
    while true
      invariant Reading(seen(readings), got, from)
      invariant NoneFails(fails, readings)
      invariant Kept(ReadAt(seen), readings, got, from)
      decreases U64_MAX - from
    {
      if fails(readings) {
        return None, readings + 1;
      }
      assert GrowsFrom(seen, readings);
      var page := ReadPage(seen(readings), seen(readings + 1), got, from);
      KeepPage(ReadAt(seen), readings, got, from, page);
      readings := readings + 1;
      if page == [] {
        assert got + [] == got;
        return Some(got), readings;
      }
      var next := SaturatingSucc(page[|page| - 1].seqNo);
      var wasFull := |page| >= PAGE;
      got := got + page;
      if !wasFull || next <= from {
        return Some(got), readings;
      }
      from := next;
    }
  }

  /** Each page's messages, page after page. */
  function PageByPage<A, B>(message: A -> Option<B>, pages: seq<seq<A>>): seq<B> {
    if pages == [] then []
    else PageByPage(message, pages[..|pages| - 1]) + FilterMap(message, pages[|pages| - 1])
  }

  /** Folding messages page by page is folding the whole, in order. */
  lemma {:induction false} MessagesByPage<A, B>(message: A -> Option<B>, pages: seq<seq<A>>)
    ensures PageByPage(message, pages) == FilterMap(message, Flatten(pages))
  {
    if pages != [] {
      var n := |pages| - 1;
      MessagesByPage(message, pages[..n]);
      FilterMapAppend(message, Flatten(pages[..n]), pages[n]);
    }
  }

  /** What a reader of a session is told. */
  datatype Answer<T> = ReadFailed | NoSession | Records(records: seq<T>)

  /**
    The messages of a session. A stream with no events is a session that
    was never opened; otherwise there is one record for every event of the
    log that has a message, in order, and they are those of the pages as
    they were read, one page after the other.
  */
  method ReadMessages<O(!new), B>(seen: nat -> seq<Event<O>>, fails: nat -> bool, message: Event<O> -> Option<B>)
    returns (answer: Answer<B>, readings: nat)
    requires OverTime(seen)
    ensures readings > 0 && (answer.ReadFailed? <==> fails(readings - 1))
    ensures answer.NoSession? <==> !fails(readings - 1) && seen(readings - 1) == []
    ensures answer.Records? && !Echoes(seen(readings - 1)) ==>
              IsFilterMap(message, seen(readings - 1), answer.records)
    ensures answer.Records? ==> answer.records == PageByPage(message, PagesRead(ReadAt(seen), readings))
  {
    var events;
    events, readings := ReadWhole(seen, fails);
    if events.None? {
      return ReadFailed, readings;
    }
    if events.value == [] {
      return NoSession, readings;
    }
    MessagesByPage(message, PagesRead(ReadAt(seen), readings));
    ghost var at := FilterMapMeans(message, events.value);
    return Records(FilterMap(message, events.value)), readings;
  }
}
