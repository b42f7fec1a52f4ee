/**
  The registry of live process groups behind `sh.exec`, `sh.kill` and the
  signal cleanup: one locked map, and every interleaving of those that use
  it.
*/
module ProcessGroups {
  import opened Wrappers

  datatype Group = Group(name: Option<string>, killed: bool)

  type Groups = map<int, Group>

  // ----- what each caller does under the lock -----

  function Remembered(g: Groups, pgid: int, name: Option<string>): Groups {
    g[pgid := Group(name, false)]
  }

  predicate WasKilled(g: Groups, pgid: int) {
    pgid in g && g[pgid].killed
  }

  /** The group a label names: of those started under it, the one with the least id. */
  ghost predicate FirstLabelled(g: Groups, name: string, pgid: int) {
    && pgid in g && g[pgid].name == Some(name)
    && forall q :: q in g && g[q].name == Some(name) ==> pgid <= q
  }

  ghost predicate Unlabelled(g: Groups, name: string) {
    forall q :: q in g ==> g[q].name != Some(name)
  }

  method AnyOf<T>(s: set<T>) returns (x: T)
    requires s != {}
    ensures x in s
  {
    x :| x in s;
  }

  method Least(s: set<int>) returns (m: int)
    requires s != {}
    ensures m in s && forall x :: x in s ==> m <= x
  {
    m := AnyOf(s);
    var todo := s - {m};
    while todo != {}
      invariant todo <= s && m in s
      invariant forall x :: x in s && x !in todo ==> m <= x
      decreases |todo|
    {
      var x := AnyOf(todo);
      todo := todo - {x};
      if x < m {
        m := x;
      }
    }
  }

  class Registry {
    var groups: Groups

    constructor ()
      ensures groups == map[]
    {
      groups := map[];
    }

    method Remember(pgid: int, name: Option<string>)
      modifies this
      ensures groups == Remembered(old(groups), pgid, name)
    {
      groups := groups[pgid := Group(name, false)];
    }

    method Forget(pgid: int) returns (killed: bool)
      modifies this
      ensures groups == old(groups) - {pgid}
      ensures killed == WasKilled(old(groups), pgid)
    {
      killed := if pgid in groups then groups[pgid].killed else false;
      groups := groups - {pgid};
    }

    /** Walks the map in key order, marks the first group with the label and answers its id. */
    method TakeLabelled(name: string) returns (r: Option<int>)
      modifies this
      ensures r.None? ==> Unlabelled(old(groups), name) && groups == old(groups)
      ensures r.Some? ==>
                && FirstLabelled(old(groups), name, r.value)
                && groups == old(groups)[r.value := Group(Some(name), true)]
      ensures r.Some? ==>
                && r.value in old(groups) && old(groups)[r.value].name == Some(name)
                && forall q :: q in old(groups) && q < r.value ==> old(groups)[q].name != Some(name)
      ensures r.None? ==> forall q :: q in old(groups) ==> old(groups)[q].name != Some(name)
    {
      var todo := groups.Keys;
      while todo != {}
        invariant todo <= groups.Keys && groups == old(groups)
        invariant forall q :: q in groups && q !in todo ==> groups[q].name != Some(name)
        decreases |todo|
      {
        var pgid := Least(todo);
        if groups[pgid].name == Some(name) {
          groups := groups[pgid := groups[pgid].(killed := true)];
          return Some(pgid);
        }
        todo := todo - {pgid};
      }
      return None;
    }
  }

  // ----- the two signalling loops, run without interruption -----

  datatype Signal = Term | Probe | Kill

  /**
    `sh.kill` ends a command with a signal it can catch, and kills it only
    if every probe of the grace period still finds it alive.
  */
  method KillLabelled(reg: Registry, name: string, alive: nat -> bool, probes: nat)
    returns (found: bool, pgid: int, sent: seq<Signal>)
    modifies reg
    ensures found <==> !Unlabelled(old(reg.groups), name)
    ensures !found ==> sent == [] && reg.groups == old(reg.groups)
    ensures found ==>
              && FirstLabelled(old(reg.groups), name, pgid)
              && reg.groups == old(reg.groups)[pgid := Group(Some(name), true)]
              && sent != [] && sent[0] == Term
              && (Kill in sent <==> forall n :: 0 <= n < probes ==> alive(n))
              && (Kill in sent ==> sent[|sent| - 1] == Kill && Kill !in sent[..|sent| - 1])
  {
    pgid, sent := 0, [];
    var r := reg.TakeLabelled(name);
    if r.None? {
      return false, pgid, sent;
    }
    pgid, sent := r.value, [Term];
    for n := 0 to probes
      invariant |sent| == n + 1 && sent[0] == Term && Kill !in sent
      invariant forall k :: 0 <= k < n ==> alive(k)
    {
      sent := sent + [Probe];
      if !alive(n) {
        return true, pgid, sent;
      }
    }
    assert (sent + [Kill])[..|sent|] == sent;
    sent := sent + [Kill];
    return true, pgid, sent;
  }

  /** One sweep: every group registered at its start is signalled once, and forgotten if asked. */
  method SignalLiveGroups(reg: Registry, forget: bool) returns (sent: seq<int>)
    modifies reg
    ensures forall p :: p in sent <==> p in old(reg.groups)
    ensures forall i, j :: 0 <= i < j < |sent| ==> sent[i] < sent[j]
    ensures reg.groups == if forget then map[] else old(reg.groups)
  {
    var todo := reg.groups.Keys;
    sent := [];
    while todo != {}
      invariant todo <= old(reg.groups).Keys
      invariant forall p :: p in sent <==> p in old(reg.groups) && p !in todo
      invariant forall i, j :: 0 <= i < j < |sent| ==> sent[i] < sent[j]
      invariant forall i, p :: 0 <= i < |sent| && p in todo ==> sent[i] < p
      invariant reg.groups == if forget then old(reg.groups) - (old(reg.groups).Keys - todo) else old(reg.groups)
      decreases |todo|
    {
      var pgid := Least(todo);
      todo := todo - {pgid};
      sent := sent + [pgid];
      if forget {
        var _ := reg.Forget(pgid);
      }
    }
  }

  // ----- the shared map and the execs that use it -----

  /**
    The map, the execs waiting on their commands and what finished ones
    reported; with a history: who registered the present entry of each id,
    which execs `sh.kill` has picked, and which ones a sweep has removed.
  */
  datatype Core = Core(
    groups: Groups,
    running: map<nat, Option<int>>,
    reports: map<nat, bool>,
    started: set<nat>,
    owner: map<int, nat>,
    picked: set<nat>,
    removed: set<nat>)

  /** A command starts, in a group of its own or not. */
  function Begin(c: Core, e: nat, own: Option<int>, name: Option<string>): Core {
    var c' := c.(running := c.running[e := own], started := c.started + {e});
    match own
    case None => c'
    case Some(p) => c'.(groups := Remembered(c.groups, p, name), owner := c.owner[p := e])
  }

  /** `forget_group` by anyone. */
  function Drop(c: Core, p: int): Core {
    c.(groups := c.groups - {p}, owner := c.owner - {p})
  }

  /** A wait ends: the exec forgets its group, and reports unless it timed out. */
  function End(c: Core, e: nat, report: bool): Core
    requires e in c.running
  {
    var own := c.running[e];
    var killed := own.Some? && WasKilled(c.groups, own.value);
    var c' := c.(running := c.running - {e}, reports := if report then c.reports[e := killed] else c.reports);
    if own.Some? then Drop(c', own.value) else c'
  }

  /** The awaiting future is dropped; nobody forgets the group. */
  function Abandon(c: Core, e: nat): Core {
    c.(running := c.running - {e})
  }

  /** `take_labelled` finds `p`. */
  function Mark(c: Core, name: string, p: int): Core {
    c.(groups := c.groups[p := Group(Some(name), true)],
       picked := if p in c.owner then c.picked + {c.owner[p]} else c.picked)
  }

  /** A sweep forgets `p`, whoever holds it by now. */
  function Remove(c: Core, p: int): Core {
    Drop(c.(removed := if p in c.owner then c.removed + {c.owner[p]} else c.removed), p)
  }

  /** Each entry has one owner, and is flagged exactly when that owner has been picked. */
  ghost predicate Consistent(c: Core) {
    && c.owner.Keys == c.groups.Keys
    && (forall p :: p in c.groups ==> (c.groups[p].killed <==> c.owner[p] in c.picked))
    && (forall p, q :: p in c.owner && q in c.owner && c.owner[p] == c.owner[q] ==> p == q)
    && (forall p :: p in c.owner ==> c.owner[p] in c.started)
    && c.picked <= c.started && c.removed <= c.started && c.running.Keys <= c.started && c.reports.Keys <= c.started
  }

  ghost predicate OwnsNothing(c: Core, e: nat) {
    forall p :: p in c.owner ==> c.owner[p] != e
  }

  /** A waiting exec holds its own entry, or a sweep has removed it and no one has taken its place. */
  ghost predicate HoldsOwn(c: Core, e: nat)
    requires e in c.running
  {
    match c.running[e]
    case None => e !in c.picked && OwnsNothing(c, e)
    case Some(p) => if p in c.owner then c.owner[p] == e && e !in c.removed else e in c.removed && OwnsNothing(c, e)
  }

  ghost predicate OwnEntries(c: Core) {
    && (forall e :: e in c.running ==> HoldsOwn(c, e) && e !in c.reports)
    && (forall p :: p in c.owner ==> c.owner[p] !in c.reports)
  }

  /** `killed` is true exactly for the execs `sh.kill` picked and no sweep removed. */
  ghost predicate ReportsRight(c: Core) {
    forall e :: e in c.reports ==> (c.reports[e] <==> e in c.picked && e !in c.removed)
  }

  ghost predicate Exact(c: Core) {
    OwnEntries(c) && ReportsRight(c)
  }

  /** Whether some exec that was given `p` has still to forget it. */
  ghost predicate Held(c: Core, p: int) {
    exists e :: e in c.running && c.running[e] == Some(p)
  }

  lemma BeginKeeps(c: Core, e: nat, own: Option<int>, name: Option<string>)
    requires Consistent(c) && e !in c.started
    ensures Consistent(Begin(c, e, own, name))
    ensures Exact(c) && (own.Some? ==> !Held(c, own.value)) ==> Exact(Begin(c, e, own, name))
  {
    var d := Begin(c, e, own, name);
    if Exact(c) && (own.Some? ==> !Held(c, own.value)) {
      forall x | x in d.running ensures HoldsOwn(d, x) && x !in d.reports {
        if x != e {
          assert HoldsOwn(c, x);
        }
      }
    }
  }

  lemma EndKeeps(c: Core, e: nat, report: bool)
    requires Consistent(c) && e in c.running
    ensures Consistent(End(c, e, report))
    ensures Exact(c) ==> Exact(End(c, e, report))
  {
    var d := End(c, e, report);
    if Exact(c) {
      assert HoldsOwn(c, e);
      forall x | x in d.running ensures HoldsOwn(d, x) && x !in d.reports {
        assert HoldsOwn(c, x);
      }
    }
  }

  lemma AbandonKeeps(c: Core, e: nat)
    requires Consistent(c)
    ensures Consistent(Abandon(c, e)) && (Exact(c) ==> Exact(Abandon(c, e)))
  {
  }

  lemma MarkKeeps(c: Core, name: string, p: int)
    requires Consistent(c) && p in c.groups
    ensures Consistent(Mark(c, name, p)) && (Exact(c) ==> Exact(Mark(c, name, p)))
  {
    var d := Mark(c, name, p);
    if Exact(c) {
      forall x | x in d.running ensures HoldsOwn(d, x) && x !in d.reports { assert HoldsOwn(c, x); }
    }
  }

  lemma RemoveKeeps(c: Core, p: int)
    requires Consistent(c)
    ensures Consistent(Remove(c, p)) && (Exact(c) ==> Exact(Remove(c, p)))
  {
    var d := Remove(c, p);
    if Exact(c) {
      forall x | x in d.running ensures HoldsOwn(d, x) && x !in d.reports { assert HoldsOwn(c, x); }
    }
  }

  // ----- the protocol -----

  /** One `signal_live_groups` in progress: ids still to signal, and ids signalled but not yet forgotten. */
  datatype Sweep = Sweep(pending: set<int>, owed: set<int>, forget: bool)

  /** Those at work around the map, every id ever registered, and every id ever signalled. */
  datatype State = State(
    core: Core,
    timedOut: set<nat>,
    killers: multiset<int>,
    sweeps: map<nat, Sweep>,
    registered: set<int>,
    signalled: set<int>)

  const IDLE := State(Core(map[], map[], map[], {}, map[], {}, {}), {}, multiset{}, map[], {}, {})

  datatype Op =
    | Spawn(exec: nat, own: Option<int>, called: Option<string>)
    | Finish(exec: nat)                    // the command ended
    | TimeoutSignal(exec: nat)             // it did not end in time: its group is signalled
    | TimeoutForget(exec: nat)             // and forgotten
    | Cancel(exec: nat)
    | Pick(name: string, pgid: int)        // sh.kill finds and marks a group
    | KillSignal(pgid: int)                // and signals it: SIGTERM, probes, SIGKILL
    | KillReturn(pgid: int)
    | SweepStart(task: nat, forget: bool)  // a signal is forwarded to the ids registered now
    | SweepSignal(task: nat, pgid: int)
    | SweepForget(task: nat, pgid: int)

  /** When a step can happen; the system may hand out any id, a registered one included. */
  ghost predicate Enabled(s: State, op: Op) {
    var c := s.core;
    match op
    case Spawn(e, _, _) => e !in c.started
    case Finish(e) => e in c.running && e !in s.timedOut
    case TimeoutSignal(e) => e in c.running && e !in s.timedOut
    case TimeoutForget(e) => e in c.running && e in s.timedOut
    case Cancel(e) => e in c.running
    case Pick(name, pgid) => FirstLabelled(c.groups, name, pgid)
    case KillSignal(pgid) => pgid in s.killers
    case KillReturn(pgid) => pgid in s.killers
    case SweepStart(t, _) => t !in s.sweeps
    case SweepSignal(t, pgid) => t in s.sweeps && pgid in s.sweeps[t].pending
    case SweepForget(t, pgid) => t in s.sweeps && pgid in s.sweeps[t].owed
  }

  function IdOf(own: Option<int>): set<int> {
    match own case None => {} case Some(p) => {p}
  }

  ghost function Step(s: State, op: Op): State
    requires Enabled(s, op)
  {
    var c := s.core;
    match op
    case Spawn(e, own, name) => s.(core := Begin(c, e, own, name), registered := s.registered + IdOf(own))
    case Finish(e) => s.(core := End(c, e, true))
    case TimeoutSignal(e) => s.(timedOut := s.timedOut + {e}, signalled := s.signalled + IdOf(c.running[e]))
    case TimeoutForget(e) => s.(core := End(c, e, false))
    case Cancel(e) => s.(core := Abandon(c, e))
    case Pick(name, p) => s.(core := Mark(c, name, p), killers := s.killers + multiset{p})
    case KillSignal(p) => s.(signalled := s.signalled + {p})
    case KillReturn(p) => s.(killers := s.killers - multiset{p})
    case SweepStart(t, forget) => s.(sweeps := s.sweeps[t := Sweep(c.groups.Keys, {}, forget)])
    case SweepSignal(t, p) =>
      var w := s.sweeps[t];
      var owed := if w.forget then w.owed + {p} else w.owed;
      s.(sweeps := s.sweeps[t := Sweep(w.pending - {p}, owed, w.forget)], signalled := s.signalled + {p})
    case SweepForget(t, p) =>
      var w := s.sweeps[t];
      s.(core := Remove(c, p), sweeps := s.sweeps[t := w.(owed := w.owed - {p})])
  }

  /** An interleaving: every step possible where it is taken. `Run` is where it leads. */
  ghost predicate IsRun(ops: seq<Op>)
    decreases |ops|, 0
  {
    ops == [] || (IsRun(ops[..|ops| - 1]) && Enabled(Run(ops[..|ops| - 1]), ops[|ops| - 1]))
  }

  ghost function Run(ops: seq<Op>): State
    requires IsRun(ops)
    decreases |ops|, 1
  {
    if ops == [] then IDLE else Step(Run(ops[..|ops| - 1]), ops[|ops| - 1])
  }

  /** All ids a core knows of are registered ones. */
  ghost predicate CoreWithin(c: Core, registered: set<int>) {
    c.groups.Keys <= registered && forall e :: e in c.running ==> IdOf(c.running[e]) <= registered
  }

  ghost predicate SweepWithin(w: Sweep, registered: set<int>) {
    w.pending <= registered && w.owed <= registered
  }

  ghost predicate OnlyRegistered(s: State) {
    && CoreWithin(s.core, s.registered) && s.signalled <= s.registered
    && (forall p :: p in s.killers ==> p in s.registered)
    && (forall t :: t in s.sweeps ==> SweepWithin(s.sweeps[t], s.registered))
    && s.timedOut <= s.core.started
  }

  lemma BeginWithin(c: Core, e: nat, own: Option<int>, name: Option<string>, registered: set<int>)
    requires CoreWithin(c, registered)
    ensures CoreWithin(Begin(c, e, own, name), registered + IdOf(own))
  {
  }

  lemma EndWithin(c: Core, e: nat, report: bool, registered: set<int>)
    requires CoreWithin(c, registered) && e in c.running
    ensures CoreWithin(End(c, e, report), registered) && End(c, e, report).started == c.started
  {
  }

  lemma RemoveWithin(c: Core, p: int, registered: set<int>)
    requires CoreWithin(c, registered)
    ensures CoreWithin(Remove(c, p), registered)
  {
  }

  lemma SweepStepOnlyRegistered(s: State, op: Op)
    requires OnlyRegistered(s) && Enabled(s, op) && (op.SweepStart? || op.SweepSignal? || op.SweepForget?)
    ensures OnlyRegistered(Step(s, op))
  {
    match op
    case SweepSignal(t, p) => assert SweepWithin(s.sweeps[t], s.registered);
    case SweepForget(t, p) =>
      assert SweepWithin(s.sweeps[t], s.registered);
      RemoveWithin(s.core, p, s.registered);
    case _ =>
  }

  lemma ExecStepOnlyRegistered(s: State, op: Op)
    requires OnlyRegistered(s) && Consistent(s.core) && Enabled(s, op)
    requires op.Spawn? || op.Finish? || op.TimeoutForget? || op.TimeoutSignal?
    ensures OnlyRegistered(Step(s, op))
  {
    match op
    case Spawn(e, own, name) => BeginWithin(s.core, e, own, name, s.registered);
    case Finish(e) => EndWithin(s.core, e, true, s.registered);
    case TimeoutForget(e) => EndWithin(s.core, e, false, s.registered);
    case _ =>
  }

  lemma StepOnlyRegistered(s: State, op: Op)
    requires OnlyRegistered(s) && Consistent(s.core) && Enabled(s, op)
    ensures OnlyRegistered(Step(s, op))
  {
    if op.SweepStart? || op.SweepSignal? || op.SweepForget? {
      SweepStepOnlyRegistered(s, op);
    } else if op.Spawn? || op.Finish? || op.TimeoutForget? || op.TimeoutSignal? {
      ExecStepOnlyRegistered(s, op);
    }
  }

  /** No id is handed out while some exec that was given it has still to forget it. */
  ghost predicate Unheld(s: State, op: Op) {
    op.Spawn? && op.own.Some? ==> !Held(s.core, op.own.value)
  }

  lemma {:induction false} StepKeeps(s: State, op: Op)
    requires Consistent(s.core) && Enabled(s, op)
    ensures Consistent(Step(s, op).core)
    ensures Exact(s.core) && Unheld(s, op) ==> Exact(Step(s, op).core)
  {
    match op
    case Spawn(e, own, name) => BeginKeeps(s.core, e, own, name);
    case Finish(e) => EndKeeps(s.core, e, true);
    case TimeoutForget(e) => EndKeeps(s.core, e, false);
    case Cancel(e) => AbandonKeeps(s.core, e);
    case Pick(name, p) => MarkKeeps(s.core, name, p);
    case SweepForget(t, p) => RemoveKeeps(s.core, p);
    case _ =>
  }

  /** In every interleaving, only groups this bridge registered are ever signalled. */
  lemma {:induction false} OnlyRegisteredAreSignalled(ops: seq<Op>)
    requires IsRun(ops)
    ensures Consistent(Run(ops).core) && OnlyRegistered(Run(ops))
    ensures Run(ops).signalled <= Run(ops).registered
  {
    if ops != [] {
      var before := ops[..|ops| - 1];
      OnlyRegisteredAreSignalled(before);
      StepKeeps(Run(before), ops[|ops| - 1]);
      StepOnlyRegistered(Run(before), ops[|ops| - 1]);
    }
  }

  // ----- what a finished exec reports -----

  ghost predicate HeldIdsNotReissued(ops: seq<Op>)
    requires IsRun(ops)
  {
    ops == [] || (HeldIdsNotReissued(ops[..|ops| - 1]) && Unheld(Run(ops[..|ops| - 1]), ops[|ops| - 1]))
  }

  /**
    In every interleaving in which the system reissues no held id, a
    finished exec reports `killed` exactly when some `sh.kill` picked its
    group while it was registered and no `kill_live_groups` removed it.
  */
  lemma {:induction false} KilledReportIsExact(ops: seq<Op>)
    requires IsRun(ops) && HeldIdsNotReissued(ops)
    ensures OwnEntries(Run(ops).core) && ReportsRight(Run(ops).core)
  {
    if ops != [] {
      var before := ops[..|ops| - 1];
      KilledReportIsExact(before);
      OnlyRegisteredAreSignalled(before);
      StepKeeps(Run(before), ops[|ops| - 1]);
    }
  }

  /** Whatever the system does with ids, a report is the flag of whoever holds the id at that moment. */
  lemma ReportIsTheHoldersFlag(ops: seq<Op>, e: nat)
    requires IsRun(ops) && Enabled(Run(ops), Finish(e))
    ensures var c := Run(ops).core;
            Step(Run(ops), Finish(e)).core.reports[e] <==>
            c.running[e].Some? && c.running[e].value in c.owner && c.owner[c.running[e].value] in c.picked
  {
    OnlyRegisteredAreSignalled(ops);
  }

  // ----- the condition is needed -----

  lemma RunOn(ops: seq<Op>, op: Op)
    requires IsRun(ops) && Enabled(Run(ops), op)
    ensures IsRun(ops + [op]) && Run(ops + [op]) == Step(Run(ops), op)
  {
    assert (ops + [op])[..|ops|] == ops;
  }

  lemma HeldOn(ops: seq<Op>, op: Op)
    requires IsRun(ops) && IsRun(ops + [op])
    ensures HeldIdsNotReissued(ops + [op]) <==> HeldIdsNotReissued(ops) && Unheld(Run(ops), op)
  {
    assert (ops + [op])[..|ops|] == ops;
  }

  /** A wait that ends, however it does, forgets the id it was given. */
  function EndOf(s: State, e: nat): Op {
    if e in s.timedOut then TimeoutForget(e) else Finish(e)
  }

  /** An exec that was picked, and not removed, reports that it was not killed. */
  ghost predicate Misreported(c: Core, f: nat) {
    f in c.reports && !c.reports[f] && f in c.picked && f !in c.removed
  }

  /** The second of two execs given `p` is registered under it and picked; the first has still to end. */
  ghost predicate SecondPicked(s: State, e: nat, p: int, f: nat) {
    var c := s.core;
    && e != f && e in c.running && f in c.running && c.running[e] == c.running[f] == Some(p)
    && f in c.picked && f !in c.removed && f !in s.timedOut
  }

  lemma ReissueAndPick(s: State, e: nat, p: int, f: nat, name: string)
    requires Consistent(s.core) && OnlyRegistered(s) && e in s.core.running && s.core.running[e] == Some(p)
    requires f !in s.core.started && Unlabelled(s.core.groups, name)
    ensures Enabled(s, Spawn(f, Some(p), Some(name)))
    ensures var t := Step(s, Spawn(f, Some(p), Some(name)));
            Enabled(t, Pick(name, p)) && SecondPicked(Step(t, Pick(name, p)), e, p, f)
  {
  }

  lemma FirstHolderForgets(s: State, e: nat, p: int, f: nat)
    requires SecondPicked(s, e, p, f)
    ensures Enabled(s, EndOf(s, e))
    ensures var t := Step(s, EndOf(s, e));
            Enabled(t, Finish(f)) && Misreported(Step(t, Finish(f)).core, f)
  {
  }

  lemma RunTwo(ops: seq<Op>, a: Op, b: Op)
    requires IsRun(ops) && Enabled(Run(ops), a) && Enabled(Step(Run(ops), a), b)
    ensures IsRun(ops + [a, b]) && Run(ops + [a, b]) == Step(Step(Run(ops), a), b)
  {
    RunOn(ops, a);
    RunOn(ops + [a], b);
    assert ops + [a] + [b] == ops + [a, b];
  }

  lemma ReissueRun(ops: seq<Op>, e: nat, p: int, f: nat, name: string) returns (more: seq<Op>)
    requires IsRun(ops) && e in Run(ops).core.running && Run(ops).core.running[e] == Some(p)
    requires f !in Run(ops).core.started && Unlabelled(Run(ops).core.groups, name)
    ensures more == ops + [Spawn(f, Some(p), Some(name)), Pick(name, p)] && IsRun(more)
    ensures SecondPicked(Run(more), e, p, f)
  {
    OnlyRegisteredAreSignalled(ops);
    ReissueAndPick(Run(ops), e, p, f, name);
    RunTwo(ops, Spawn(f, Some(p), Some(name)), Pick(name, p));
    more := ops + [Spawn(f, Some(p), Some(name)), Pick(name, p)];
  }

  lemma ForgetRun(ops: seq<Op>, e: nat, p: int, f: nat) returns (more: seq<Op>)
    requires IsRun(ops) && SecondPicked(Run(ops), e, p, f)
    ensures more == ops + [EndOf(Run(ops), e), Finish(f)] && IsRun(more)
    ensures Misreported(Run(more).core, f)
  {
    FirstHolderForgets(Run(ops), e, p, f);
    RunTwo(ops, EndOf(Run(ops), e), Finish(f));
    more := ops + [EndOf(Run(ops), e), Finish(f)];
  }

  /**
    The condition cannot be weakened: from every state of every run in which
    an id is held, registered or not, reissuing it to a labelled command can
    make that command report wrongly. The first holder forgets the id on its
    way out, and a kill that did reach the second is not reported.
  */
  lemma AnyReissueCanMisreport(ops: seq<Op>, e: nat, p: int, f: nat, name: string) returns (more: seq<Op>)
    requires IsRun(ops) && e in Run(ops).core.running && Run(ops).core.running[e] == Some(p)
    requires f !in Run(ops).core.started && Unlabelled(Run(ops).core.groups, name)
    ensures more != [] && more[0] == Spawn(f, Some(p), Some(name)) && IsRun(ops + more)
    ensures Misreported(Run(ops + more).core, f)
  {
    var picked := ReissueRun(ops, e, p, f, name);
    var all := ForgetRun(picked, e, p, f);
    more := all[|ops|..];
    assert ops + more == all;
  }

  lemma RunOnTo(ops: seq<Op>, op: Op) returns (more: seq<Op>)
    requires IsRun(ops) && Enabled(Run(ops), op)
    ensures more == ops + [op] && IsRun(more) && Run(more) == Step(Run(ops), op)
    ensures HeldIdsNotReissued(more) <==> HeldIdsNotReissued(ops) && Unheld(Run(ops), op)
  {
    RunOn(ops, op);
    HeldOn(ops, op);
    more := ops + [op];
  }

  /** Exec 1 has been swept out of the map and has not returned; nothing else has happened. */
  ghost predicate SweptOnly(s: State) {
    s.core == Core(map[], map[1 := Some(7)], map[], {1}, map[], {}, {1}) && s.timedOut == {}
  }

  lemma SweptRun() returns (ops: seq<Op>)
    ensures IsRun(ops) && SweptOnly(Run(ops))
  {
    ops := RunOnTo([], Spawn(1, Some(7), None));
    ops := RunOnTo(ops, SweepStart(0, true));
    ops := RunOnTo(ops, SweepSignal(0, 7));
    ops := RunOnTo(ops, SweepForget(0, 7));
  }

  /**
    A swept exec that has not yet returned, its id reissued to a command
    that `sh.kill` picks: the first reports a kill that was not its own.
  */
  lemma ReissuedIdMisreports() returns (ops: seq<Op>)
    ensures IsRun(ops) && !HeldIdsNotReissued(ops)
    ensures var c := Run(ops).core; 1 in c.reports && c.reports[1] && 1 !in c.picked
  {
    ops := TakenOverRun();
    ops := RunOnTo(ops, Finish(1));
  }

  /** Exec 1 has still to return, and its id is now that of exec 2, which has been picked. */
  lemma TakenOverRun() returns (ops: seq<Op>)
    ensures IsRun(ops) && !HeldIdsNotReissued(ops)
    ensures Enabled(Run(ops), Finish(1)) && Run(ops).core.running[1] == Some(7)
    ensures WasKilled(Run(ops).core.groups, 7) && 1 !in Run(ops).core.picked
  {
    ops := SweptRun();
    assert Held(Run(ops).core, 7) by { assert 1 in Run(ops).core.running; }
    ops := RunOnTo(ops, Spawn(2, Some(7), Some("build")));
    ops := RunOnTo(ops, Pick("build", 7));
  }

  // ----- whom a kill still under way reaches -----

  /** No id is handed out that an exec holds or that a kill still under way goes on signalling. */
  ghost predicate Unclaimed(s: State, op: Op) {
    Unheld(s, op) && (op.Spawn? && op.own.Some? ==> op.own.value !in s.killers)
  }

  ghost predicate ClaimedIdsNotReissued(ops: seq<Op>)
    requires IsRun(ops)
  {
    ops == [] || (ClaimedIdsNotReissued(ops[..|ops| - 1]) && Unclaimed(Run(ops[..|ops| - 1]), ops[|ops| - 1]))
  }

  /** A running exec that a kill under way signals is one that `sh.kill` picked. */
  ghost predicate KillsReachPicked(s: State) {
    forall e, p :: e in s.core.running && s.core.running[e] == Some(p) && p in s.killers ==> e in s.core.picked
  }

  lemma EndLeavesOthers(c: Core, e: nat, report: bool)
    requires e in c.running
    ensures End(c, e, report).running == c.running - {e} && End(c, e, report).picked == c.picked
  {
  }

  lemma PickReachesPicked(s: State, name: string, p: int)
    requires Consistent(s.core) && OwnEntries(s.core) && KillsReachPicked(s) && Enabled(s, Pick(name, p))
    ensures KillsReachPicked(Step(s, Pick(name, p)))
  {
    forall e | e in s.core.running && s.core.running[e] == Some(p) ensures s.core.owner[p] == e {
      assert HoldsOwn(s.core, e);
    }
  }

  lemma StepReachesPicked(s: State, op: Op)
    requires Consistent(s.core) && OwnEntries(s.core) && KillsReachPicked(s) && Enabled(s, op) && Unclaimed(s, op)
    ensures KillsReachPicked(Step(s, op))
  {
    match op
    case Pick(name, p) => PickReachesPicked(s, name, p);
    case Finish(e) => EndLeavesOthers(s.core, e, true);
    case TimeoutForget(e) => EndLeavesOthers(s.core, e, false);
    case _ =>
  }

  lemma {:induction false} ClaimedIsHeld(ops: seq<Op>)
    requires IsRun(ops) && ClaimedIdsNotReissued(ops)
    ensures HeldIdsNotReissued(ops)
  {
    if ops != [] { ClaimedIsHeld(ops[..|ops| - 1]); }
  }

  /**
    In every interleaving in which no id is handed out while an exec holds
    it or a kill goes on signalling it, what a kill signals is a command
    that `sh.kill` picked, if it is a running exec at all.
  */
  lemma {:induction false} KillsReachOnlyPicked(ops: seq<Op>)
    requires IsRun(ops) && ClaimedIdsNotReissued(ops)
    ensures KillsReachPicked(Run(ops))
  {
    if ops != [] {
      var before := ops[..|ops| - 1];
      KillsReachOnlyPicked(before);
      ClaimedIsHeld(before);
      KilledReportIsExact(before);
      OnlyRegisteredAreSignalled(before);
      StepReachesPicked(Run(before), ops[|ops| - 1]);
    }
  }

  /** Nor can this condition be weakened: whoever is given an id that a kill goes on signalling is signalled unpicked. */
  lemma AnyReuseIsReached(ops: seq<Op>, p: int, f: nat, name: Option<string>) returns (more: seq<Op>)
    requires IsRun(ops) && p in Run(ops).killers && f !in Run(ops).core.started
    ensures more == ops + [Spawn(f, Some(p), name)] && IsRun(more)
    ensures Enabled(Run(more), KillSignal(p)) && f in Run(more).core.running && Run(more).core.running[f] == Some(p)
    ensures f !in Run(more).core.picked
  {
    OnlyRegisteredAreSignalled(ops);
    more := RunOnTo(ops, Spawn(f, Some(p), name));
  }

  /**
    A command that `sh.kill` picked ends within the grace period, and its id
    goes to another: the kill goes on to signal that one, which it never
    picked. No id is handed out while an exec holds it.
  */
  lemma KillReachesAnother() returns (ops: seq<Op>)
    ensures IsRun(ops) && HeldIdsNotReissued(ops)
    ensures var s := Run(ops);
            && Enabled(s, KillSignal(7)) && 2 in s.core.running && s.core.running[2] == Some(7) && 2 !in s.core.picked
            && Enabled(s, Finish(2)) && !Step(s, Finish(2)).core.reports[2]
  {
    ops := PickedAndEnded();
    ops := RunOnTo(ops, Spawn(2, Some(7), None));
  }

  lemma PickedAndEnded() returns (ops: seq<Op>)
    ensures IsRun(ops) && HeldIdsNotReissued(ops)
    ensures Run(ops).core == Core(map[], map[], map[1 := true], {1}, map[], {1}, {})
    ensures 7 in Run(ops).killers && Run(ops).timedOut == {}
  {
    ops := RunOnTo([], Spawn(1, Some(7), Some("a")));
    ops := RunOnTo(ops, Pick("a", 7));
    ops := RunOnTo(ops, Finish(1));
  }

  // ----- what each step does -----

  /** What can be seen of a step: who is signalled, entered, marked, forgotten or reported. */
  ghost predicate Does(s: State, op: Op, t: State)
    requires Enabled(s, op)
  {
    match op
    case Spawn(e, own, name) =>
      && e in t.core.running && t.core.running[e] == own && t.signalled == s.signalled && t.core.reports == s.core.reports
      && t.core.groups == (if own.Some? then s.core.groups[own.value := Group(name, false)] else s.core.groups)
    case Finish(e) =>
      var own := s.core.running[e];
      && e !in t.core.running && t.signalled == s.signalled
      && t.core.groups == (if own.Some? then s.core.groups - {own.value} else s.core.groups)
      && t.core.reports == s.core.reports[e := own.Some? && own.value in s.core.groups && s.core.groups[own.value].killed]
    case TimeoutSignal(e) =>
      t.core == s.core && t.signalled == (if s.core.running[e].Some? then s.signalled + {s.core.running[e].value} else s.signalled)
    case TimeoutForget(e) =>
      var own := s.core.running[e];
      && e !in t.core.running && t.signalled == s.signalled && t.core.reports == s.core.reports
      && t.core.groups == (if own.Some? then s.core.groups - {own.value} else s.core.groups)
    case Cancel(e) =>
      && e !in t.core.running && t.signalled == s.signalled
      && t.core.groups == s.core.groups && t.core.reports == s.core.reports
    case Pick(name, p) =>
      && t.core.groups == s.core.groups[p := Group(Some(name), true)] && p in t.killers
      && t.signalled == s.signalled && t.core.reports == s.core.reports && t.core.running == s.core.running
    case KillSignal(p) => t.core == s.core && t.signalled == s.signalled + {p} && p in t.killers
    case KillReturn(p) => t.core == s.core && t.signalled == s.signalled && t.killers[p] == s.killers[p] - 1
    case SweepStart(k, forget) =>
      t.core == s.core && t.signalled == s.signalled && k in t.sweeps && t.sweeps[k] == Sweep(s.core.groups.Keys, {}, forget)
    case SweepSignal(k, p) =>
      && t.core == s.core && t.signalled == s.signalled + {p} && k in t.sweeps && p !in t.sweeps[k].pending
      && (p in t.sweeps[k].owed <==> s.sweeps[k].forget || p in s.sweeps[k].owed)
    case SweepForget(k, p) =>
      && t.core.groups == s.core.groups - {p} && t.core.running == s.core.running && t.core.reports == s.core.reports
      && t.signalled == s.signalled && k in t.sweeps && p !in t.sweeps[k].owed
  }

  /**
    Every step does what it is for: a timeout, a kill and a sweep signal
    their group, a pick marks it, whoever forgets it removes it, and only a
    command that ended by itself reports.
  */
  lemma StepDoes(s: State, op: Op)
    requires Enabled(s, op)
    ensures Does(s, op, Step(s, op))
  {
  }
}
