/**
  The file store and the one-level snapshot store that `std.fs.edit` and
  `std.fs.rollback` share, for any content and any way of deciding an edit.
  A run is any sequence of calls, outside writes and failed writes.
*/
module FileStore {
  import opened Wrappers

  /** What `edit` settles on before it touches anything: `X` is a refusal, `C` new content. */
  datatype Plan<X, C> = Refuse(why: X) | Write(content: C, count: nat)

  datatype Reply<X, V> =
    | Refused(why: X)
    | Applied(count: nat, version: V)
    | RolledBack(version: V)
    | NoSnapshot
    | Raised

  /** How requests of type `R` are decided against content, and how content is fingerprinted. */
  datatype Engine<!C, !R, X, V> = Engine(decide: (C, R) -> Plan<X, C>, version: C -> V)

  datatype State<C> = State(files: map<string, C>, snapshots: map<string, C>)

  /** How a write ended; one that failed may leave anything, or nothing, in the file. */
  datatype WriteOutcome<C> = Written | WriteFailed(left: Option<C>)

  function Put<C>(files: map<string, C>, path: string, content: Option<C>): map<string, C> {
    match content
    case Some(text) => files[path := text]
    case None => files - {path}
  }

  function EditStep<C, R, X, V>(eng: Engine<C, R, X, V>, st: State<C>, path: string, req: R, w: WriteOutcome<C>)
    : (State<C>, Reply<X, V>)
  {
    if path !in st.files then (st, Raised)
    else
      match eng.decide(st.files[path], req)
      case Refuse(why) => (st, Refused(why))
      case Write(content, count) =>
        match w
        case WriteFailed(left) => (st.(files := Put(st.files, path, left)), Raised)
        case Written =>
          (State(st.files[path := content], st.snapshots[path := st.files[path]]), Applied(count, eng.version(content)))
  }

  function RollbackStep<C, R, X, V>(eng: Engine<C, R, X, V>, st: State<C>, path: string, w: WriteOutcome<C>)
    : (State<C>, Reply<X, V>)
  {
    if path !in st.snapshots then (st, NoSnapshot)
    else
      var content, snapshots := st.snapshots[path], st.snapshots - {path};
      match w
      case WriteFailed(left) => (State(Put(st.files, path, left), snapshots), Raised)
      case Written => (State(st.files[path := content], snapshots), RolledBack(eng.version(content)))
  }

  datatype Op<C, R> =
    | EditOp(path: string, req: R, w: WriteOutcome<C>)
    | RollbackOp(path: string, w: WriteOutcome<C>)
    | OutsideWrite(path: string, content: Option<C>)

  function Step<C, R, X, V>(eng: Engine<C, R, X, V>, st: State<C>, op: Op<C, R>): (State<C>, Option<Reply<X, V>>) {
    match op
    case EditOp(path, req, w) =>
      var (after, reply) := EditStep(eng, st, path, req, w);
      (after, Some(reply))
    case RollbackOp(path, w) =>
      var (after, reply) := RollbackStep(eng, st, path, w);
      (after, Some(reply))
    case OutsideWrite(path, content) => (st.(files := Put(st.files, path, content)), None)
  }

  function Run<C, R, X, V>(eng: Engine<C, R, X, V>, st: State<C>, ops: seq<Op<C, R>>): State<C> {
    if ops == [] then st
    else Step(eng, Run(eng, st, ops[..|ops| - 1]), ops[|ops| - 1]).0
  }

  /** Whether step `i` of the run is an edit of `path` that succeeded. */
  predicate Succeeds<C, R, X, V>(eng: Engine<C, R, X, V>, st: State<C>, ops: seq<Op<C, R>>, i: nat, path: string)
    requires i < |ops|
  {
    && ops[i].EditOp? && ops[i].path == path
    && var reply := Step(eng, Run(eng, st, ops[..i]), ops[i]).1;
    reply.Some? && reply.value.Applied?
  }

  /** The last successful edit of `path` that no rollback of `path` has been tried since. */
  function PendingEdit<C, R, X, V>(eng: Engine<C, R, X, V>, st: State<C>, ops: seq<Op<C, R>>, path: string): (r: Option<nat>)
    ensures r.Some? ==> r.value < |ops|
  {
    if ops == [] then None
    else
      var n := |ops|;
      if Succeeds(eng, st, ops, n - 1, path) then Some(n - 1)
      else if ops[n - 1].RollbackOp? && ops[n - 1].path == path then None
      else PendingEdit(eng, st, ops[..n - 1], path)
  }

  /** What one step does to a path's snapshot. */
  lemma SnapshotStep<C, R, X, V>(eng: Engine<C, R, X, V>, st: State<C>, op: Op<C, R>, path: string)
    ensures var (after, reply) := Step(eng, st, op);
            if op.EditOp? && op.path == path && reply.Some? && reply.value.Applied?
            then path in st.files && path in after.snapshots && after.snapshots[path] == st.files[path]
            else
              && (path in after.snapshots <==> path in st.snapshots && !(op.RollbackOp? && op.path == path))
              && (path in after.snapshots ==> after.snapshots[path] == st.snapshots[path])
  {
  }

  /**
    In every run the snapshot of a path is exactly the content its pending
    edit found, and there is one exactly when there is a pending edit,
    whatever other paths, outside writers and failed writes do meanwhile.
  */
  lemma {:induction false} SnapshotIsPendingEdit<C, R, X, V>(
      eng: Engine<C, R, X, V>, st: State<C>, ops: seq<Op<C, R>>, path: string)
    requires st.snapshots == map[]
    ensures var now, edit := Run(eng, st, ops), PendingEdit(eng, st, ops, path);
            && (path in now.snapshots <==> edit.Some?)
            && (edit.Some? ==>
                  var before := Run(eng, st, ops[..edit.value]);
                  path in before.files && now.snapshots[path] == before.files[path])
  {
    if ops != [] {
      var n := |ops|;
      SnapshotIsPendingEdit(eng, st, ops[..n - 1], path);
      SnapshotStep(eng, Run(eng, st, ops[..n - 1]), ops[n - 1], path);
      var edit := PendingEdit(eng, st, ops[..n - 1], path);
      if edit.Some? {
        assert ops[..n - 1][..edit.value] == ops[..edit.value];
      }
    }
  }

  /**
    A rollback succeeds exactly when an edit is pending, puts back the
    content from just before that edit, and touches no other path.
  */
  lemma {:induction false} RollbackRestores<C, R, X, V>(eng: Engine<C, R, X, V>, st: State<C>, ops: seq<Op<C, R>>, path: string)
    requires st.snapshots == map[]
    ensures var now, edit := Run(eng, st, ops), PendingEdit(eng, st, ops, path);
            var (after, reply) := RollbackStep(eng, now, path, Written);
            && (reply.RolledBack? <==> edit.Some?)
            && (reply.NoSnapshot? <==> edit.None?)
            && (edit.None? ==> after == now)
            && (edit.Some? ==>
                  var before := Run(eng, st, ops[..edit.value]);
                  && path in before.files && path in after.files
                  && after.files[path] == before.files[path]
                  && reply.version == eng.version(before.files[path]))
            && after.files - {path} == now.files - {path}
            && after.snapshots == now.snapshots - {path}
  {
    SnapshotIsPendingEdit(eng, st, ops, path);
  }

  predicate NoEditSince<C, R, X, V>(eng: Engine<C, R, X, V>, st: State<C>, ops: seq<Op<C, R>>, from: nat, path: string) {
    forall i :: from <= i < |ops| ==> !Succeeds(eng, st, ops, i, path)
  }

  /** After a rollback attempt, rolling back again reports `no_snapshot` until an edit of the path succeeds. */
  lemma {:induction false} RollbackIsOneLevel<C, R, X, V>(
      eng: Engine<C, R, X, V>, st: State<C>, ops: seq<Op<C, R>>, k: nat, path: string)
    requires st.snapshots == map[] && k < |ops|
    requires ops[k].RollbackOp? && ops[k].path == path
    requires NoEditSince(eng, st, ops, k + 1, path)
    ensures PendingEdit(eng, st, ops, path).None?
    ensures RollbackStep(eng, Run(eng, st, ops), path, Written) == (Run(eng, st, ops), NoSnapshot)
  {
    var n := |ops|;
    if k < n - 1 {
      var init := ops[..n - 1];
      forall i | k + 1 <= i < n - 1 ensures !Succeeds(eng, st, init, i, path) {
        assert init[..i] == ops[..i];
        assert !Succeeds(eng, st, ops, i, path);
      }
      RollbackIsOneLevel(eng, st, init, k, path);
      assert !Succeeds(eng, st, ops, n - 1, path);
    }
    SnapshotIsPendingEdit(eng, st, ops, path);
  }

  /** However many calls and outside writes go to other paths, this path keeps its file and its snapshot. */
  lemma {:induction false} OtherPathsUntouched<C, R, X, V>(
      eng: Engine<C, R, X, V>, st: State<C>, ops: seq<Op<C, R>>, other: string)
    requires forall i :: 0 <= i < |ops| ==> ops[i].path != other
    ensures var after := Run(eng, st, ops);
            && (other in after.files <==> other in st.files)
            && (other in st.files ==> after.files[other] == st.files[other])
            && (other in after.snapshots <==> other in st.snapshots)
            && (other in st.snapshots ==> after.snapshots[other] == st.snapshots[other])
  {
    if ops != [] { OtherPathsUntouched(eng, st, ops[..|ops| - 1], other); }
  }

  /**
    A rollback whose write fails has already given the snapshot up, so the
    retry the caller would make finds nothing, whatever the file now holds.
  */
  lemma FailedRollbackLosesSnapshot<C, R, X, V>(eng: Engine<C, R, X, V>, st: State<C>, path: string, left: Option<C>)
    ensures var (after, reply) := RollbackStep(eng, st, path, WriteFailed(left));
            && RollbackStep(eng, after, path, Written) == (after, NoSnapshot)
            && (reply == Raised <==> path in st.snapshots)
            && after.snapshots == st.snapshots - {path}
            && after.files == (if path !in st.snapshots then st.files
                               else if left.Some? then st.files[path := left.value]
                               else st.files - {path})
  {
  }
}
