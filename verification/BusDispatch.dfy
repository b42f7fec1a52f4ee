/**
  Event-bus ownership and dispatch: host handlers installed at setup, Lua
  handlers registered in two places one after the other, and a bus that is
  taken out of its slot once, by auto-serve or by `bus.serve`.
*/
module BusDispatch {
  import opened Wrappers

  /** What the bus has for a kind: a host handler, or "ask the handler VM". */
  datatype Target = Host(id: nat) | ToLua

  datatype EventBus = EventBus(handlers: map<string, Target>, any: Option<Target>)

  /** A Lua registration: `bus.on(kind, fn)` or `bus.on_any(fn)`. */
  datatype Reg = OnKind(kind: string, fn: nat) | OnAny(fn: nat)

  /** The handler VM's side: `__bus_handlers` and `__bus_on_any`. */
  datatype LuaTables = LuaTables(handlers: map<string, nat>, any: Option<nat>)

  /** What an event comes to. */
  datatype Call = CallHost(id: nat) | CallLua(fn: nat) | NoHandler | LuaHandlerMissing

  // ----- the two lookups -----

  /** `__bus_dispatch`: the kind's own function, else the fallback, else an error. */
  function LuaLookup(lua: LuaTables, kind: string): Call {
    if kind in lua.handlers then CallLua(lua.handlers[kind])
    else if lua.any.Some? then CallLua(lua.any.value)
    else LuaHandlerMissing
  }

  function BusLookup(bus: EventBus, kind: string): Option<Target> {
    if kind in bus.handlers then Some(bus.handlers[kind]) else bus.any
  }

  function Dispatch(bus: EventBus, lua: LuaTables, kind: string): Call {
    match BusLookup(bus, kind)
    case None => NoHandler
    case Some(Host(id)) => CallHost(id)
    case Some(ToLua) => LuaLookup(lua, kind)
  }

  // ----- one table: the reference -----

  datatype HostTable = Hosts(kinds: map<string, nat>, any: Option<nat>)

  /** Registrations applied to the handler VM in order, last write wins. */
  function Written(writes: seq<Reg>): LuaTables {
    if writes == [] then LuaTables(map[], None)
    else WriteOne(Written(writes[..|writes| - 1]), writes[|writes| - 1])
  }

  function WriteOne(lua: LuaTables, reg: Reg): LuaTables {
    match reg
    case OnKind(kind, fn) => lua.(handlers := lua.handlers[kind := fn])
    case OnAny(fn) => lua.(any := Some(fn))
  }

  /** One table of everything registered, the script after the host: kind-specific else fallback, last write wins. */
  function OneTable(host: HostTable, writes: seq<Reg>, kind: string): Call {
    var lua := Written(writes);
    if kind in lua.handlers then CallLua(lua.handlers[kind])
    else if kind in host.kinds then CallHost(host.kinds[kind])
    else if lua.any.Some? then CallLua(lua.any.value)
    else if host.any.Some? then CallHost(host.any.value)
    else NoHandler
  }

  // ----- setup -----

  function LastWins(hosts: seq<(string, nat)>): map<string, nat> {
    if hosts == [] then map[] else LastWins(hosts[..|hosts| - 1])[hosts[|hosts| - 1].0 := hosts[|hosts| - 1].1]
  }

  /** The same table as the bus holds it. */
  function HostHandlers(hosts: seq<(string, nat)>): map<string, Target> {
    if hosts == [] then map[]
    else HostHandlers(hosts[..|hosts| - 1])[hosts[|hosts| - 1].0 := Host(hosts[|hosts| - 1].1)]
  }

  function HostAny(any: Option<nat>): Option<Target> {
    match any case None => None case Some(id) => Some(Host(id))
  }

  /**
    The slot, the bus once taken, the handler VM, and the registrations
    that have written to the handler VM but not yet to the bus; with a
    history: all writes in order, what the bus was given, and what failed.
  */
  datatype State = State(
    slot: Option<EventBus>, taken: Option<EventBus>, serving: bool,
    lua: LuaTables, pending: multiset<Reg>,
    host: HostTable, writes: seq<Reg>, doneKinds: set<string>, doneAny: bool, failed: multiset<Reg>, takes: nat)

  /** After `setup_event_bus`; auto-serve takes the bus if there is a host handler at all. */
  function Setup(hosts: seq<(string, nat)>, any: Option<nat>, autoServe: bool): State {
    var host := Hosts(LastWins(hosts), any);
    var auto := autoServe && (hosts != [] || any.Some?);
    var bus := Some(EventBus(HostHandlers(hosts), HostAny(any)));
    State(if auto then None else bus, if auto then bus else None, false,
          LuaTables(map[], None), multiset{}, host, [], {}, false, multiset{}, if auto then 1 else 0)
  }

  method SetupEventBus(hosts: seq<(string, nat)>, any: Option<nat>, autoServe: bool)
    returns (slot: Option<EventBus>, taken: Option<EventBus>)
    ensures slot == Setup(hosts, any, autoServe).slot && taken == Setup(hosts, any, autoServe).taken
  {
    var handlers: map<string, Target> := map[];
    for i := 0 to |hosts|
      invariant handlers == HostHandlers(hosts[..i])
    {
      assert hosts[..i + 1][..i] == hosts[..i];
      handlers := handlers[hosts[i].0 := Host(hosts[i].1)];
    }
    assert hosts[..|hosts|] == hosts;
    var bus := EventBus(handlers, HostAny(any));
    if autoServe && (hosts != [] || any.Some?) {
      return None, Some(bus);
    }
    return Some(bus), None;
  }

  // ----- the calls -----

  datatype Op =
    | Write(reg: Reg)     // bus.on / bus.on_any: the function is loaded on the handler VM
    | Register(reg: Reg)  // then the bus is told, or found gone
    | Abandon(reg: Reg)   // or the call is dropped in between
    | Serve

  predicate Enabled(s: State, op: Op) {
    op.Serve? || op.Write? || op.reg in s.pending
  }

  /** The bus told of a Lua registration. */
  function BusWith(bus: EventBus, reg: Reg): EventBus {
    match reg
    case OnKind(kind, _) => bus.(handlers := bus.handlers[kind := ToLua])
    case OnAny(_) => bus.(any := Some(ToLua))
  }

  function Step(s: State, op: Op): State
    requires Enabled(s, op)
  {
    match op
    case Write(reg) =>
      s.(lua := WriteOne(s.lua, reg), pending := s.pending + multiset{reg}, writes := s.writes + [reg])
    case Register(reg) =>
      var s' := s.(pending := s.pending - multiset{reg});
      if s.slot.None? then s'.(failed := s.failed + multiset{reg})
      else
        s'.(slot := Some(BusWith(s.slot.value, reg)),
            doneKinds := if reg.OnKind? then s.doneKinds + {reg.kind} else s.doneKinds,
            doneAny := s.doneAny || reg.OnAny?)
    case Abandon(reg) => s.(pending := s.pending - multiset{reg}, failed := s.failed + multiset{reg})
    case Serve =>
      if s.serving || s.slot.None? then s
      else s.(serving := true, taken := s.slot, slot := None, takes := s.takes + 1)
  }

  /** The bus, wherever it is. */
  function BusOf(s: State): EventBus
    requires s.slot.Some? || s.taken.Some?
  {
    if s.slot.Some? then s.slot.value else s.taken.value
  }

  /** The call methods as they are written; each answers whether it succeeded. */
  class Bus {
    var slot: Option<EventBus>
    var taken: Option<EventBus>
    var serving: bool
    var lua: LuaTables

    constructor (slot: Option<EventBus>, taken: Option<EventBus>)
      ensures this.slot == slot && this.taken == taken && !serving && lua == LuaTables(map[], None)
    {
      this.slot, this.taken, serving, lua := slot, taken, false, LuaTables(map[], None);
    }

    /** Loads the function on the handler VM; `pure` is whether it is a Lua function, `loads` whether the VM takes it. */
    method LoadHandler(reg: Reg, pure: bool, loads: bool) returns (ok: bool)
      modifies this`lua
      ensures ok <==> pure && loads
      ensures lua == if ok then WriteOne(old(lua), reg) else old(lua)
    {
      if !pure || !loads {
        return false;
      }
      match reg {
        case OnKind(kind, fn) => lua := lua.(handlers := lua.handlers[kind := fn]);
        case OnAny(fn) => lua := lua.(any := Some(fn));
      }
      return true;
    }

    method RegisterHandler(reg: Reg) returns (ok: bool)
      modifies this`slot
      ensures ok <==> old(slot).Some?
      ensures slot == if ok then Some(BusWith(old(slot).value, reg)) else None
    {
      if slot.None? {
        return false;
      }
      match reg {
        case OnKind(kind, _) => slot := Some(slot.value.(handlers := slot.value.handlers[kind := ToLua]));
        case OnAny(_) => slot := Some(slot.value.(any := Some(ToLua)));
      }
      return true;
    }

    /** The guard is set first and rolled back if there is nothing to take. */
    method TakeForServe() returns (ok: bool)
      modifies this`slot, this`taken, this`serving
      ensures ok <==> !old(serving) && old(slot).Some?
      ensures ok ==> slot.None? && taken == old(slot) && serving
      ensures !ok ==> slot == old(slot) && taken == old(taken) && serving == old(serving)
    {
      if serving {
        return false;
      }
      serving := true;
      if slot.None? {
        serving := false;
        return false;
      }
      taken, slot := slot, None;
      return true;
    }
  }

  // ----- what every run keeps -----

  /** The bus is in the slot or taken, never both, and was taken at most once. */
  ghost predicate OneOwner(s: State) {
    && (s.slot.Some? <==> s.taken.None?)
    && (s.takes == 0 <==> s.slot.Some?) && s.takes <= 1
  }

  /** What the bus and the handler VM hold, in terms of the history. */
  ghost predicate Accounted(s: State)
    requires s.slot.Some? || s.taken.Some?
  {
    && s.lua == Written(s.writes)
    && Holds(BusOf(s), s.host, s.doneKinds, s.doneAny)
    && s.doneKinds <= s.lua.handlers.Keys && (s.doneAny ==> s.lua.any.Some?)
    && (forall k :: k in s.lua.handlers ==> k in s.doneKinds || exists reg :: reg in s.pending + s.failed && KindOf(reg) == Some(k))
    && (s.lua.any.Some? ==> s.doneAny || exists reg :: reg in s.pending + s.failed && reg.OnAny?)
    && (forall reg :: reg in s.pending ==> KeptBy(s.lua, reg))
  }

  /** The bus's own entry for a kind. */
  function EntryOf(bus: EventBus, kind: string): Option<Target> {
    if kind in bus.handlers then Some(bus.handlers[kind]) else None
  }

  /** A bus with the host's handlers, those kinds and the fallback overwritten that Lua has registered. */
  ghost predicate Holds(bus: EventBus, host: HostTable, doneKinds: set<string>, doneAny: bool) {
    && (forall k :: EntryOf(bus, k) ==
          if k in doneKinds then Some(ToLua)
          else if k in host.kinds then Some(Host(host.kinds[k]))
          else None)
    && bus.any == if doneAny then Some(ToLua) else HostAny(host.any)
  }

  function KindOf(reg: Reg): Option<string> {
    match reg case OnKind(kind, _) => Some(kind) case OnAny(_) => None
  }

  /** A registration that has written leaves something in its place, whoever overwrites it. */
  predicate KeptBy(lua: LuaTables, reg: Reg) {
    match reg case OnKind(kind, _) => kind in lua.handlers case OnAny(_) => lua.any.Some?
  }

  ghost predicate Inv(s: State) {
    OneOwner(s) && Accounted(s)
  }

  lemma WriteKeeps(s: State, reg: Reg)
    requires Inv(s)
    ensures Inv(Step(s, Write(reg)))
  {
    var t := Step(s, Write(reg));
    assert t.writes[..|s.writes|] == s.writes;
    assert reg in t.pending + t.failed;
    forall k | k in t.lua.handlers
      ensures k in t.doneKinds || exists r :: r in t.pending + t.failed && KindOf(r) == Some(k)
    {
      if k in s.lua.handlers && k !in s.doneKinds {
        var r :| r in s.pending + s.failed && KindOf(r) == Some(k);
        assert r in t.pending + t.failed;
      }
    }
    if s.lua.any.Some? && !s.doneAny {
      var r :| r in s.pending + s.failed && r.OnAny?;
      assert r in t.pending + t.failed;
    }
  }

  /** Moving a registration out of `pending` loses track of it only if the bus was told. */
  lemma SettleKeeps(s: State, op: Op)
    requires Inv(s) && Enabled(s, op) && (op.Register? || op.Abandon?)
    ensures Inv(Step(s, op))
  {
    var t := Step(s, op);
    var reg := op.reg;
    assert KeptBy(s.lua, reg);
    forall r | r in t.pending ensures KeptBy(t.lua, r) { assert r in s.pending; }
    forall k | k in t.lua.handlers
      ensures k in t.doneKinds || exists r :: r in t.pending + t.failed && KindOf(r) == Some(k)
    {
      if k !in s.doneKinds {
        var r :| r in s.pending + s.failed && KindOf(r) == Some(k);
        Tracked(s, op, r);
      }
    }
    if s.lua.any.Some? && !s.doneAny {
      var r :| r in s.pending + s.failed && r.OnAny?;
      Tracked(s, op, r);
    }
    BusTold(s, op);
  }

  lemma Tracked(s: State, op: Op, r: Reg)
    requires Enabled(s, op) && (op.Register? || op.Abandon?) && r in s.pending + s.failed
    ensures r in Step(s, op).pending + Step(s, op).failed || (op == Register(r) && s.slot.Some?)
  {
  }

  lemma BusTold(s: State, op: Op)
    requires Inv(s) && Enabled(s, op) && (op.Register? || op.Abandon?)
    ensures var t := Step(s, op);
            OneOwner(t) && Holds(BusOf(t), t.host, t.doneKinds, t.doneAny)
  {
    var t := Step(s, op);
    forall k ensures EntryOf(BusOf(t), k) ==
      if k in t.doneKinds then Some(ToLua)
      else if k in t.host.kinds then Some(Host(t.host.kinds[k]))
      else None
    {
      assert EntryOf(BusOf(s), k) ==
        if k in s.doneKinds then Some(ToLua)
        else if k in s.host.kinds then Some(Host(s.host.kinds[k]))
        else None;
    }
  }

  /** Whether position `i` of a list is the last for a kind. */
  ghost predicate LastFor(hosts: seq<(string, nat)>, kind: string, i: nat) {
    i < |hosts| && hosts[i].0 == kind && forall j :: i < j < |hosts| ==> hosts[j].0 != kind
  }

  /**
    The bus has a handler for a kind exactly when some entry of the list is
    for it, and it is that of the last such entry; `LastWins` is the same
    table without the bus.
  */
  lemma {:induction false} SameTable(hosts: seq<(string, nat)>, kind: string)
    ensures kind in HostHandlers(hosts) <==> exists i: nat :: LastFor(hosts, kind, i)
    ensures forall i: nat :: LastFor(hosts, kind, i) ==>
              kind in HostHandlers(hosts) && HostHandlers(hosts)[kind] == Host(hosts[i].1)
    ensures kind in HostHandlers(hosts) <==> kind in LastWins(hosts)
    ensures kind in LastWins(hosts) ==> HostHandlers(hosts)[kind] == Host(LastWins(hosts)[kind])
  {
    if hosts != [] {
      var n := |hosts| - 1;
      SameTable(hosts[..n], kind);
      if hosts[n].0 == kind {
        assert LastFor(hosts, kind, n);
      } else {
        forall i: nat ensures LastFor(hosts, kind, i) <==> LastFor(hosts[..n], kind, i) {
          LastForOneMore(hosts, kind, i);
        }
      }
    }
  }

  lemma LastForOneMore(hosts: seq<(string, nat)>, kind: string, i: nat)
    requires hosts != [] && hosts[|hosts| - 1].0 != kind
    ensures LastFor(hosts, kind, i) <==> LastFor(hosts[..|hosts| - 1], kind, i)
  {
    var init := hosts[..|hosts| - 1];
    if LastFor(init, kind, i) {
      forall j | i < j < |hosts| ensures hosts[j].0 != kind {
        if j < |init| { assert init[j] == hosts[j]; }
      }
    }
    if LastFor(hosts, kind, i) {
      forall j | i < j < |init| ensures init[j].0 != kind { assert init[j] == hosts[j]; }
    }
  }

  lemma SetupKeeps(hosts: seq<(string, nat)>, any: Option<nat>, autoServe: bool)
    ensures Inv(Setup(hosts, any, autoServe))
  {
    var s := Setup(hosts, any, autoServe);
    forall k ensures EntryOf(BusOf(s), k) == if k in s.host.kinds then Some(Host(s.host.kinds[k])) else None {
      SameTable(hosts, k);
    }
  }

  /** A run from a given setup. */
  ghost predicate IsRun(start: State, ops: seq<Op>)
    decreases |ops|, 0
  {
    ops == [] || (IsRun(start, ops[..|ops| - 1]) && Enabled(Run(start, ops[..|ops| - 1]), ops[|ops| - 1]))
  }

  ghost function Run(start: State, ops: seq<Op>): State
    requires IsRun(start, ops)
    decreases |ops|, 1
  {
    if ops == [] then start else Step(Run(start, ops[..|ops| - 1]), ops[|ops| - 1])
  }

  lemma {:induction false} RunsKeepInv(start: State, ops: seq<Op>)
    requires Inv(start) && IsRun(start, ops)
    ensures Inv(Run(start, ops))
    ensures Run(start, ops).host == start.host
  {
    if ops != [] {
      var before, op := ops[..|ops| - 1], ops[|ops| - 1];
      RunsKeepInv(start, before);
      var s := Run(start, before);
      match op
      case Write(reg) => WriteKeeps(s, reg);
      case Serve =>
      case _ => SettleKeeps(s, op);
    }
  }

  lemma StepAfterTake(s: State, op: Op)
    requires Enabled(s, op) && s.slot.None?
    ensures var t := Step(s, op);
            t.slot.None? && t.taken == s.taken && t.takes == s.takes && t.doneKinds == s.doneKinds && t.doneAny == s.doneAny
  {
  }

  /** Once taken the bus is never back in its slot, so every later registration and every later serve fails. */
  lemma {:induction false} TakenForGood(start: State, ops: seq<Op>, k: nat)
    requires IsRun(start, ops) && k <= |ops| && IsRun(start, ops[..k]) && Run(start, ops[..k]).slot.None?
    ensures Run(start, ops).slot.None? && Run(start, ops).taken == Run(start, ops[..k]).taken
    ensures Run(start, ops).takes == Run(start, ops[..k]).takes
    ensures Run(start, ops).doneKinds == Run(start, ops[..k]).doneKinds && Run(start, ops).doneAny == Run(start, ops[..k]).doneAny
    decreases |ops| - k
  {
    if k < |ops| {
      var before := ops[..|ops| - 1];
      assert before[..k] == ops[..k];
      TakenForGood(start, before, k);
      StepAfterTake(Run(start, before), ops[|ops| - 1]);
    } else {
      assert ops[..k] == ops;
    }
  }

  /** Nothing is half registered and nothing failed. */
  ghost predicate Settled(s: State) {
    s.pending == multiset{} && s.failed == multiset{}
  }

  /** The lookups in terms of what has been written and what the bus was told. */
  lemma SettledAgrees(s: State, kind: string)
    requires Inv(s)
    ensures Dispatch(BusOf(s), s.lua, kind) != LuaHandlerMissing
    ensures Settled(s) ==> Dispatch(BusOf(s), s.lua, kind) == OneTable(s.host, s.writes, kind)
  {
    if Settled(s) {
      assert s.pending + s.failed == multiset{};
      assert s.doneKinds == s.lua.handlers.Keys;
    }
  }

  /**
    In every run the bus is owned once and taken at most once, and an event
    the bus sends to Lua always finds a function there. If moreover every
    registration went through, the two lookups one after the other are one
    table of everything registered.
  */
  lemma TwoLookupsAreOneTable(hosts: seq<(string, nat)>, any: Option<nat>, autoServe: bool, ops: seq<Op>, kind: string)
    requires IsRun(Setup(hosts, any, autoServe), ops)
    ensures var s := Run(Setup(hosts, any, autoServe), ops);
            && OneOwner(s)
            && Dispatch(BusOf(s), s.lua, kind) != LuaHandlerMissing
            && (Settled(s) ==> Dispatch(BusOf(s), s.lua, kind) == OneTable(Hosts(LastWins(hosts), any), s.writes, kind))
  {
    SetupKeeps(hosts, any, autoServe);
    RunsKeepInv(Setup(hosts, any, autoServe), ops);
    SettledAgrees(Run(Setup(hosts, any, autoServe), ops), kind);
  }

  /**
    Whether everything the handler VM would call for a kind has reached the
    bus: the kind's own handler, or, where no host handler is in the way,
    the fallback.
  */
  ghost predicate Told(s: State, kind: string) {
    if kind in s.lua.handlers then kind in s.doneKinds || (kind !in s.host.kinds && s.doneAny)
    else kind in s.host.kinds || s.lua.any.None? || s.doneAny
  }

  /** In every run, settled or not, the lookups agree with the one table on a kind exactly when the bus has been told of it. */
  lemma AgreeExactlyWhenTold(hosts: seq<(string, nat)>, any: Option<nat>, autoServe: bool, ops: seq<Op>, kind: string)
    requires IsRun(Setup(hosts, any, autoServe), ops)
    ensures var s := Run(Setup(hosts, any, autoServe), ops);
            && OneOwner(s)
            && (Dispatch(BusOf(s), s.lua, kind) == OneTable(s.host, s.writes, kind) <==> Told(s, kind))
  {
    SetupKeeps(hosts, any, autoServe);
    RunsKeepInv(Setup(hosts, any, autoServe), ops);
    var s := Run(Setup(hosts, any, autoServe), ops);
    assert EntryOf(BusOf(s), kind) ==
      if kind in s.doneKinds then Some(ToLua)
      else if kind in s.host.kinds then Some(Host(s.host.kinds[kind]))
      else None;
  }

  // ----- a registration that fails late -----

  /** Whether the bus sends a kind to Lua. */
  predicate RoutesToLua(bus: EventBus, kind: string) {
    BusLookup(bus, kind) == Some(ToLua)
  }

  /** Whether the handler VM, once a registration has been written, calls its function for a kind. */
  predicate Answers(lua: LuaTables, reg: Reg, kind: string) {
    match reg case OnKind(k, _) => k == kind case OnAny(_) => kind !in lua.handlers
  }

  /**
    `bus.on` and `bus.on_any` write the handler VM before they look for the
    bus. After the take they therefore fail, and yet the running bus calls
    the new function for every kind that it sends to Lua and that the
    registration is for: its own kind, or, for a fallback, every kind without
    a function of its own. All other kinds are as before.
  */
  lemma LateRegistrationEffect(s: State, reg: Reg, kind: string)
    requires s.taken.Some? && s.slot.None?
    ensures var t := Step(Step(s, Write(reg)), Register(reg));
            && reg in t.failed && BusOf(t) == BusOf(s)
            && Dispatch(BusOf(t), t.lua, kind) ==
               if RoutesToLua(BusOf(s), kind) && Answers(s.lua, reg, kind) then CallLua(reg.fn)
               else Dispatch(BusOf(s), s.lua, kind)
  {
  }

  /** What registering a handler and serving comes to, from a state with nothing registered. */
  lemma RegisterAndServe(s: State, kind: string, fn: nat)
    requires s.slot.Some? && !s.serving
    ensures var a := OnKind(kind, fn);
            && Enabled(s, Write(a)) && Enabled(Step(s, Write(a)), Register(a))
            && var t := Step(Step(Step(s, Write(a)), Register(a)), Serve);
            t.slot.None? && t.taken.Some? && RoutesToLua(BusOf(t), kind)
  {
  }

  /** A script that registers a handler for "x" and serves. */
  lemma {:induction false} ServingRun(start: State) returns (ops: seq<Op>)
    requires start == Setup([], None, false)
    ensures IsRun(start, ops) && Run(start, ops).slot.None? && Run(start, ops).taken.Some?
    ensures RoutesToLua(BusOf(Run(start, ops)), "x")
  {
    var a := OnKind("x", 1);
    RegisterAndServe(start, "x", 1);
    RunOn(start, [], Write(a));
    ops := [] + [Write(a)];
    RunOn(start, ops, Register(a));
    ops := ops + [Register(a)];
    RunOn(start, ops, Serve);
    ops := ops + [Serve];
  }

  /** If it registers again it gets an error, and the new handler. */
  lemma {:induction false} FailedRegistrationTakesEffect(start: State) returns (ops: seq<Op>)
    requires start == Setup([], None, false)
    ensures IsRun(start, ops) && Run(start, ops).slot.None? && Run(start, ops).taken.Some?
    ensures OnKind("x", 2) in Run(start, ops).failed
    ensures Dispatch(BusOf(Run(start, ops)), Run(start, ops).lua, "x") == CallLua(2)
  {
    ops := ServingRun(start);
    var b := OnKind("x", 2);
    LateRegistrationEffect(Run(start, ops), b, "x");
    RunOn(start, ops, Write(b));
    ops := ops + [Write(b)];
    RunOn(start, ops, Register(b));
    ops := ops + [Register(b)];
  }

  lemma RunOn(start: State, ops: seq<Op>, op: Op)
    requires IsRun(start, ops) && Enabled(Run(start, ops), op)
    ensures IsRun(start, ops + [op]) && Run(start, ops + [op]) == Step(Run(start, ops), op)
  {
  }

  // ----- the handler VM and the setup, by what was asked -----

  /** Whether position `i` is the last write for a kind, or for the fallback if there is no kind. */
  ghost predicate LastWrite(writes: seq<Reg>, kind: Option<string>, i: nat) {
    i < |writes| && KindOf(writes[i]) == kind && forall j :: i < j < |writes| ==> KindOf(writes[j]) != kind
  }

  lemma LastWriteOneMore(writes: seq<Reg>, kind: Option<string>, i: nat)
    requires writes != []
    ensures var n := |writes| - 1;
            LastWrite(writes, kind, i) <==>
            if KindOf(writes[n]) == kind then i == n else LastWrite(writes[..n], kind, i)
  {
    var init := writes[..|writes| - 1];
    if LastWrite(init, kind, i) && KindOf(writes[|init|]) != kind {
      forall j | i < j < |writes| ensures KindOf(writes[j]) != kind {
        if j < |init| { assert init[j] == writes[j]; }
      }
    }
    if LastWrite(writes, kind, i) && i < |init| {
      forall j | i < j < |init| ensures KindOf(init[j]) != kind { assert init[j] == writes[j]; }
    }
  }

  function FnFor(lua: LuaTables, kind: Option<string>): Option<nat> {
    match kind
    case None => lua.any
    case Some(k) => if k in lua.handlers then Some(lua.handlers[k]) else None
  }

  /** After any registrations the handler VM has a function for a kind exactly when one was for it: that of the last. */
  lemma {:induction false} WrittenMeans(writes: seq<Reg>, kind: Option<string>)
    ensures FnFor(Written(writes), kind).Some? <==> exists i: nat :: LastWrite(writes, kind, i)
    ensures forall i: nat :: LastWrite(writes, kind, i) ==> FnFor(Written(writes), kind) == Some(writes[i].fn)
  {
    if writes != [] {
      var n := |writes| - 1;
      WrittenMeans(writes[..n], kind);
      forall i: nat
        ensures LastWrite(writes, kind, i) <==>
                if KindOf(writes[n]) == kind then i == n else LastWrite(writes[..n], kind, i)
      {
        LastWriteOneMore(writes, kind, i);
      }
      if KindOf(writes[n]) == kind { assert LastWrite(writes, kind, n); }
    }
  }

  /**
    After setup: the bus is taken exactly when auto-serve is asked for and
    there is some handler to serve, of one kind or the fallback; it has the
    fallback it was given, and nothing is registered from Lua.
  */
  lemma SetupMeans(hosts: seq<(string, nat)>, any: Option<nat>, autoServe: bool)
    ensures var s := Setup(hosts, any, autoServe);
            && (s.taken.Some? <==> autoServe && (|hosts| > 0 || any.Some?))
            && (s.slot.Some? <==> s.taken.None?) && !s.serving
            && BusOf(s).any == (if any.Some? then Some(Host(any.value)) else None)
            && (forall kind :: kind in BusOf(s).handlers <==> exists i: nat :: LastFor(hosts, kind, i))
            && (forall kind, i: nat :: LastFor(hosts, kind, i) ==>
                  kind in BusOf(s).handlers && BusOf(s).handlers[kind] == Host(hosts[i].1))
            && s.lua.handlers == map[] && s.lua.any.None?
            && s.pending == multiset{} && s.failed == multiset{}
  {
    forall kind ensures kind in HostHandlers(hosts) <==> exists i: nat :: LastFor(hosts, kind, i) {
      SameTable(hosts, kind);
    }
    forall kind, i: nat | LastFor(hosts, kind, i)
      ensures kind in HostHandlers(hosts) && HostHandlers(hosts)[kind] == Host(hosts[i].1)
    {
      SameTable(hosts, kind);
    }
  }
}
