/** The bounded notification channel: filled without waiting, drained by one task, one item at a time. */
module NotifyChannel {
  import opened Wrappers

  const CAPACITY := 128

  /**
    The queue, the item being handed to Lua, and what has been handed over;
    with a history: everything offered, in order, and the positions in it
    that were taken and that were dropped.
  */
  datatype Channel<T> = Channel(
    queue: seq<T>, inFlight: Option<T>, delivered: seq<T>,
    emitted: seq<T>, kept: seq<nat>, lost: seq<nat>)

  function Empty<T>(): Channel<T> {
    Channel([], None, [], [], [], [])
  }

  function Sent<T>(c: Channel<T>, x: T): Channel<T> {
    var n := |c.emitted|;
    if |c.queue| < CAPACITY then c.(queue := c.queue + [x], emitted := c.emitted + [x], kept := c.kept + [n])
    else c.(emitted := c.emitted + [x], lost := c.lost + [n])
  }

  predicate CanReceive<T>(c: Channel<T>) {
    c.inFlight.None? && c.queue != []
  }

  function Received<T>(c: Channel<T>): Channel<T>
    requires CanReceive(c)
  {
    c.(inFlight := Some(c.queue[0]), queue := c.queue[1..])
  }

  function Completed<T>(c: Channel<T>): Channel<T>
    requires c.inFlight.Some?
  {
    c.(inFlight := None, delivered := c.delivered + [c.inFlight.value])
  }

  /** Everything taken and not dropped, oldest first. */
  function Taken<T>(c: Channel<T>): seq<T> {
    c.delivered + AsSeq(c.inFlight) + c.queue
  }

  ghost predicate Increasing(s: seq<nat>, bound: nat) {
    && (forall i :: 0 <= i < |s| ==> s[i] < bound)
    && (forall i, j :: 0 <= i < j < |s| ==> s[i] < s[j])
  }

  /**
    What was taken is what was offered at the kept positions, in order and
    each once; kept and lost positions together are all positions.
  */
  ghost predicate Sound<T>(c: Channel<T>) {
    && |c.queue| <= CAPACITY
    && Increasing(c.kept, |c.emitted|) && Increasing(c.lost, |c.emitted|)
    && |Taken(c)| == |c.kept|
    && (forall i :: 0 <= i < |c.kept| ==> Taken(c)[i] == c.emitted[c.kept[i]])
    && (forall n :: 0 <= n < |c.emitted| ==> (n in c.kept <==> n !in c.lost))
    && |c.emitted| == |c.delivered| + |AsSeq(c.inFlight)| + |c.queue| + |c.lost|
  }

  lemma {:induction false} SendKeeps<T>(c: Channel<T>, x: T)
    requires Sound(c)
    ensures Sound(Sent(c, x)) && Sent(c, x).emitted == c.emitted + [x]
    ensures Sent(c, x).queue == if |c.queue| < 128 then c.queue + [x] else c.queue
    ensures Sent(c, x).delivered == c.delivered && Sent(c, x).inFlight == c.inFlight
    ensures Sent(c, x).lost != c.lost <==> |c.queue| == 128
  {
    var d := Sent(c, x);
    if |c.queue| < CAPACITY {
      assert Taken(d) == Taken(c) + [x];
      assert |d.lost| == |c.lost|;
    } else {
      assert Taken(d) == Taken(c);
      assert |d.lost| == |c.lost| + 1;
    }
  }

  lemma DrainKeeps<T>(c: Channel<T>)
    requires Sound(c)
    ensures CanReceive(c) ==> Sound(Received(c)) && Taken(Received(c)) == Taken(c)
    ensures c.inFlight.Some? ==> Sound(Completed(c)) && Taken(Completed(c)) == Taken(c)
  {
    if CanReceive(c) {
      assert c.queue == [c.queue[0]] + c.queue[1..];
      assert Taken(Received(c)) == Taken(c);
    }
    if c.inFlight.Some? {
      assert Taken(Completed(c)) == Taken(c);
    }
  }

  /** The delivered items are those at the first kept positions: in order, nothing twice, nothing skipped but drops. */
  lemma DeliveredIsSubsequence<T>(c: Channel<T>)
    requires Sound(c)
    ensures |c.delivered| <= |c.kept|
    ensures forall i :: 0 <= i < |c.delivered| ==> c.delivered[i] == c.emitted[c.kept[i]]
    ensures forall i, j :: 0 <= i < j < |c.delivered| ==> c.kept[i] < c.kept[j]
  {
  }

  class Queue<T> {
    var queue: seq<T>
    var inFlight: Option<T>
    var delivered: seq<T>
    ghost var emitted: seq<T>
    ghost var kept: seq<nat>
    ghost var lost: seq<nat>

    ghost function Now(): Channel<T>
      reads this
    {
      Channel(queue, inFlight, delivered, emitted, kept, lost)
    }

    constructor ()
      ensures Now() == Empty() && Sound(Now())
    {
      queue, inFlight, delivered := [], None, [];
      emitted, kept, lost := [], [], [];
    }

    /** `try_send`: takes the item, or drops it if the queue is full. */
    method TrySend(x: T) returns (taken: bool)
      requires Sound(Now())
      modifies this
      ensures Sound(Now()) && Now() == Sent(old(Now()), x)
      ensures taken <==> |old(queue)| < CAPACITY
    {
      SendKeeps(Now(), x);
      taken := |queue| < CAPACITY;
      if taken {
        queue := queue + [x];
        kept := kept + [|emitted|];
      } else {
        lost := lost + [|emitted|];
      }
      emitted := emitted + [x];
    }

    /** The dispatch task: receive, hand over, repeat, until the queue is empty. */
    method Drain()
      requires Sound(Now())
      modifies this
      ensures Sound(Now()) && queue == [] && inFlight.None?
      ensures delivered == old(Taken(Now()))
      ensures emitted == old(emitted) && kept == old(kept) && lost == old(lost)
    {
      if inFlight.Some? {
        DrainKeeps(Now());
        delivered := delivered + [inFlight.value];
        inFlight := None;
      }
      while queue != []
        invariant Sound(Now()) && inFlight.None?
        invariant Taken(Now()) == old(Taken(Now()))
        invariant emitted == old(emitted) && kept == old(kept) && lost == old(lost)
        decreases |queue|
      {
        DrainKeeps(Now());
        inFlight, queue := Some(queue[0]), queue[1..];
        DrainKeeps(Now());
        delivered, inFlight := delivered + [inFlight.value], None;
      }
    }
  }
}

/** MCP connections: who each one is, which callbacks are registered, and whose callback a notification reaches. */
module Mcp {
  import opened Wrappers
  import opened NotifyChannel

  datatype Kind = Progress | Log | ResourceUpdated | ResourceListChanged | ToolListChanged | PromptListChanged

  /** What is registered for a server name; nothing takes a kind out again. */
  datatype Flags = Flags(kinds: set<Kind>, trace: bool)

  type Registry = map<string, Flags>

  function FlagsOf(reg: Registry, name: string): Flags {
    if name in reg then reg[name] else Flags({}, false)
  }

  /** A connection's own copy of the handler: its name, and the channel of the main VM it was made for, if any. */
  datatype Handler = Handler(serverName: Option<string>, channel: Option<nat>)

  /** A notification on its way; `origin` is the connection that sent it. */
  datatype Item = Item(origin: nat, server: string, kind: Kind, payload: string)

  /**
    The manager, every handler copy ever made (they outlive a disconnect),
    the name each connection was asked for under, and the channels.
  */
  datatype System = System(
    servers: map<string, nat>,
    template: Handler,
    registry: Registry,
    handlers: map<nat, Handler>,
    askedFor: map<nat, string>,
    channels: map<nat, Channel<Item>>)

  const FRESH := System(map[], Handler(None, None), map[], map[], map[], map[])

  /** How far a connection attempt gets. */
  datatype Attempt = SpawnFailed | InitFailed | Connected

  /** The shared part of `connect` and `connect_http`: register, name the template, copy it, take the name back. */
  function Cloned(s: System, conn: nat, name: string, trace: bool): System {
    var named := s.template.(serverName := Some(name));
    s.(registry := s.registry[name := FlagsOf(s.registry, name).(trace := trace)],
       handlers := s.handlers[conn := named],
       askedFor := s.askedFor[conn := name],
       template := named.(serverName := None))
  }

  function ConnectStep(s: System, conn: nat, name: string, trace: bool, attempt: Attempt): System {
    match attempt
    case SpawnFailed => s
    case InitFailed => Cloned(s, conn, name, trace)
    case Connected => var s' := Cloned(s, conn, name, trace); s'.(servers := s'.servers[name := conn])
  }

  function MarkStep(s: System, name: string, kind: Kind): System {
    var f := FlagsOf(s.registry, name);
    s.(registry := s.registry[name := f.(kinds := f.kinds + {kind})])
  }

  /** Whether a notification arriving on a connection goes to a channel. */
  predicate Routed(s: System, conn: nat, kind: Kind) {
    && conn in s.handlers
    && var h := s.handlers[conn];
    h.channel.Some? && h.channel.value in s.channels && h.serverName.Some? && kind in FlagsOf(s.registry, h.serverName.value).kinds
  }

  function NotifyStep(s: System, conn: nat, kind: Kind, payload: string): System {
    if !Routed(s, conn, kind) then s
    else
      var h := s.handlers[conn];
      var item := Item(conn, h.serverName.value, kind, payload);
      s.(channels := s.channels[h.channel.value := Sent(s.channels[h.channel.value], item)])
  }

  datatype Op =
    | Connect(conn: nat, name: string, trace: bool, attempt: Attempt)
    | Disconnect(name: string)
    | Mark(name: string, kind: Kind)
    | SetMainIsle(channel: nat)
    | Notify(conn: nat, kind: Kind, payload: string)
    | Receive(channel: nat)
    | Complete(channel: nat)

  /** Connections and channels get ids of their own. */
  predicate Enabled(s: System, op: Op) {
    match op
    case Connect(conn, _, _, _) => conn !in s.askedFor
    case SetMainIsle(ch) => ch !in s.channels
    case Receive(ch) => ch in s.channels && CanReceive(s.channels[ch])
    case Complete(ch) => ch in s.channels && s.channels[ch].inFlight.Some?
    case _ => true
  }

  function Step(s: System, op: Op): System
    requires Enabled(s, op)
  {
    match op
    case Connect(conn, name, trace, attempt) => ConnectStep(s, conn, name, trace, attempt)
    case Disconnect(name) => s.(servers := s.servers - {name})
    case Mark(name, kind) => MarkStep(s, name, kind)
    case SetMainIsle(ch) => s.(template := s.template.(channel := Some(ch)), channels := s.channels[ch := Empty()])
    case Notify(conn, kind, payload) => NotifyStep(s, conn, kind, payload)
    case Receive(ch) => s.(channels := s.channels[ch := Received(s.channels[ch])])
    case Complete(ch) => s.(channels := s.channels[ch := Completed(s.channels[ch])])
  }

  // ----- what every run keeps -----

  /** A notification is addressed to the server its connection was asked for under, which wants it. */
  ghost predicate Addressed(s: System, item: Item) {
    && item.origin in s.askedFor && item.server == s.askedFor[item.origin]
    && item.server in s.registry && item.kind in s.registry[item.server].kinds
  }

  ghost predicate Identities(s: System) {
    && s.template.serverName.None?
    && s.handlers.Keys == s.askedFor.Keys
    && (forall c :: c in s.handlers ==> s.handlers[c].serverName == Some(s.askedFor[c]) && s.askedFor[c] in s.registry)
    && (forall n :: n in s.servers ==> s.servers[n] in s.handlers && s.askedFor[s.servers[n]] == n)
  }

  ghost predicate Traffic(s: System) {
    forall ch :: ch in s.channels ==> Sound(s.channels[ch]) && AllAddressed(s, s.channels[ch].emitted)
  }

  ghost predicate AllAddressed(s: System, items: seq<Item>) {
    forall i :: 0 <= i < |items| ==> Addressed(s, items[i])
  }

  lemma ClonedIdentities(s: System, conn: nat, name: string, trace: bool)
    requires Identities(s) && conn !in s.askedFor
    ensures Identities(Cloned(s, conn, name, trace))
    ensures conn in Cloned(s, conn, name, trace).handlers && Cloned(s, conn, name, trace).askedFor[conn] == name
  {
  }

  lemma ConnectIdentities(s: System, conn: nat, name: string, trace: bool, attempt: Attempt)
    requires Identities(s) && conn !in s.askedFor
    ensures Identities(ConnectStep(s, conn, name, trace, attempt))
  {
    ClonedIdentities(s, conn, name, trace);
  }

  lemma StepIdentities(s: System, op: Op)
    requires Identities(s) && Enabled(s, op)
    ensures Identities(Step(s, op))
  {
    match op
    case Connect(conn, name, trace, attempt) => ConnectIdentities(s, conn, name, trace, attempt);
    case _ =>
  }

  /** What was addressed right stays so: connections keep their names and flags are only added. */
  lemma AddressedStays(s: System, op: Op, item: Item)
    requires Enabled(s, op) && Addressed(s, item)
    ensures Addressed(Step(s, op), item)
  {
  }

  lemma NewItemAddressed(s: System, conn: nat, kind: Kind, payload: string)
    requires Identities(s) && Routed(s, conn, kind)
    ensures Addressed(s, Item(conn, s.handlers[conn].serverName.value, kind, payload))
  {
  }

  lemma AllAddressedStays(s: System, op: Op, items: seq<Item>)
    requires Enabled(s, op) && AllAddressed(s, items)
    ensures AllAddressed(Step(s, op), items)
  {
    forall i | 0 <= i < |items| ensures Addressed(Step(s, op), items[i]) {
      AddressedStays(s, op, items[i]);
    }
  }

  lemma {:induction false} ChannelTraffic(s: System, op: Op, ch: nat)
    requires Identities(s) && Enabled(s, op)
    requires ch in s.channels && Sound(s.channels[ch]) && AllAddressed(s, s.channels[ch].emitted)
    ensures var t := Step(s, op);
            ch in t.channels && Sound(t.channels[ch]) && AllAddressed(t, t.channels[ch].emitted)
  {
    ChannelStep(s, op, ch);
    var items := Step(s, op).channels[ch].emitted;
    if items != s.channels[ch].emitted {
      NewItemAddressed(s, op.conn, op.kind, op.payload);
    }
    AllAddressedStays(s, op, items);
  }

  lemma NewChannel(s: System, op: Op, ch: nat)
    requires Enabled(s, op) && ch in Step(s, op).channels && ch !in s.channels
    ensures Step(s, op).channels[ch] == Empty()
  {
  }

  lemma {:induction false} StepTraffic(s: System, op: Op)
    requires Identities(s) && Traffic(s) && Enabled(s, op)
    ensures Traffic(Step(s, op))
  {
    var t := Step(s, op);
    forall ch | ch in t.channels ensures Sound(t.channels[ch]) && AllAddressed(t, t.channels[ch].emitted) {
      if ch in s.channels {
        ChannelTraffic(s, op, ch);
      } else {
        NewChannel(s, op, ch);
      }
    }
  }

  /** A channel after a step: sound, and offered what a notification routed to it brings, if anything. */
  ghost predicate ChannelAfter(s: System, op: Op, ch: nat, t: System)
    requires ch in s.channels
  {
    && ch in t.channels && Sound(t.channels[ch])
    && (t.channels[ch].emitted == s.channels[ch].emitted
        || (op.Notify? && Routed(s, op.conn, op.kind)
            && t.channels[ch].emitted
               == s.channels[ch].emitted + [Item(op.conn, s.handlers[op.conn].serverName.value, op.kind, op.payload)]))
  }

  lemma {:induction false} ChannelNotified(s: System, conn: nat, kind: Kind, payload: string, ch: nat)
    requires ch in s.channels && Sound(s.channels[ch])
    ensures ChannelAfter(s, Notify(conn, kind, payload), ch, NotifyStep(s, conn, kind, payload))
  {
    if Routed(s, conn, kind) {
      SendKeeps(s.channels[ch], Item(conn, s.handlers[conn].serverName.value, kind, payload));
    }
  }

  /** What one step does to a channel that is there. */
  lemma {:induction false} ChannelStep(s: System, op: Op, ch: nat)
    requires Enabled(s, op) && ch in s.channels && Sound(s.channels[ch])
    ensures ChannelAfter(s, op, ch, Step(s, op))
  {
    match op
    case Notify(conn, kind, payload) => ChannelNotified(s, conn, kind, payload, ch);
    case Receive(_) => DrainKeeps(s.channels[ch]);
    case Complete(_) => DrainKeeps(s.channels[ch]);
    case _ =>
  }

  ghost predicate IsRun(ops: seq<Op>)
    decreases |ops|, 0
  {
    ops == [] || (IsRun(ops[..|ops| - 1]) && Enabled(Run(ops[..|ops| - 1]), ops[|ops| - 1]))
  }

  ghost function Run(ops: seq<Op>): System
    requires IsRun(ops)
    decreases |ops|, 1
  {
    if ops == [] then FRESH else Step(Run(ops[..|ops| - 1]), ops[|ops| - 1])
  }

  /**
    In every run of connects (failed ones included), disconnects,
    registrations, notifications and dispatch steps: the manager's entry
    for a name is a connection that calls itself by that name, the template
    has no name between calls, connected names are registered, and every
    channel delivers in order what it took and drops only when full.
  */
  lemma {:induction false} RunsKeepIdentity(ops: seq<Op>)
    requires IsRun(ops)
    ensures Identities(Run(ops)) && Traffic(Run(ops))
  {
    if ops != [] {
      var before := ops[..|ops| - 1];
      RunsKeepIdentity(before);
      StepIdentities(Run(before), ops[|ops| - 1]);
      StepTraffic(Run(before), ops[|ops| - 1]);
    }
  }

  /** So a delivered notification reaches the callback of the server that sent it, and of no other. */
  lemma DeliveredToItsOwnServer(ops: seq<Op>, ch: nat, i: nat)
    requires IsRun(ops) && ch in Run(ops).channels && i < |Run(ops).channels[ch].delivered|
    ensures var s := Run(ops);
            var item := s.channels[ch].delivered[i];
            && item.origin in s.askedFor && item.server == s.askedFor[item.origin]
            && item.server in s.registry && item.kind in s.registry[item.server].kinds
  {
    RunsKeepIdentity(ops);
    DeliveredIsSubsequence(Run(ops).channels[ch]);
    var c := Run(ops).channels[ch];
    assert Addressed(Run(ops), c.emitted[c.kept[i]]);
  }

  lemma FlagStays(s: System, op: Op, name: string, kind: Kind)
    requires Enabled(s, op) && kind in FlagsOf(s.registry, name).kinds
    ensures kind in FlagsOf(Step(s, op).registry, name).kinds
  {
  }

  /** A registration outlives every disconnect and reconnect under the name. */
  lemma {:induction false} RegistrationIsSticky(ops: seq<Op>, k: nat, name: string, kind: Kind)
    requires IsRun(ops) && k < |ops| && ops[k] == Mark(name, kind)
    ensures kind in FlagsOf(Run(ops).registry, name).kinds
    decreases |ops|
  {
    if k < |ops| - 1 {
      RegistrationIsSticky(ops[..|ops| - 1], k, name, kind);
      FlagStays(Run(ops[..|ops| - 1]), ops[|ops| - 1], name, kind);
    }
  }

  // ----- a full queue is within reach -----

  lemma RunOn(ops: seq<Op>, op: Op) returns (more: seq<Op>)
    requires IsRun(ops) && Enabled(Run(ops), op)
    ensures more == ops + [op] && IsRun(more) && Run(more) == Step(Run(ops), op)
  {
    more := ops + [op];
    assert more[..|ops|] == ops;
  }

  /** Connection 0 is routed to channel 0, where `n` items have arrived and none has been received. */
  ghost predicate Flooded(s: System, n: nat) {
    && Routed(s, 0, Log) && s.handlers[0].channel == Some(0)
    && |s.channels[0].emitted| == n
    && |s.channels[0].queue| == (if n < CAPACITY then n else CAPACITY)
    && |s.channels[0].lost| == (if n < CAPACITY then 0 else n - CAPACITY)
  }

  lemma NotifyFloods(s: System, n: nat, payload: string)
    requires Flooded(s, n)
    ensures Flooded(NotifyStep(s, 0, Log, payload), n + 1)
  {
  }

  /** A channel, a connection, a callback, and a server that emits `n` times before anything is received. */
  lemma {:induction false} FloodRun(n: nat, payload: string) returns (ops: seq<Op>)
    ensures IsRun(ops) && Flooded(Run(ops), n)
  {
    if n == 0 {
      ops := RunOn([], SetMainIsle(0));
      ops := RunOn(ops, Op.Connect(0, "server", false, Connected));
      ops := RunOn(ops, Mark("server", Log));
    } else {
      ops := FloodRun(n - 1, payload);
      NotifyFloods(Run(ops), n - 1, payload);
      ops := RunOn(ops, Notify(0, Log, payload));
    }
  }

  /** The 129th notification is dropped, and only that one. */
  lemma OneTooMany(payload: string) returns (ops: seq<Op>)
    ensures IsRun(ops)
    ensures 0 in Run(ops).channels && |Run(ops).channels[0].emitted| == 129
    ensures Run(ops).channels[0].lost == [128]
  {
    ops := FloodRun(128, payload);
    RunsKeepIdentity(ops);
    var s := Run(ops);
    SendKeeps(s.channels[0], Item(0, s.handlers[0].serverName.value, Log, payload));
    ops := RunOn(ops, Notify(0, Log, payload));
  }

  // ----- the manager as it is written -----

  class Manager {
    var servers: map<string, nat>
    var template: Handler
    var registry: Registry
    ghost var handlers: map<nat, Handler>
    ghost var askedFor: map<nat, string>
    ghost var channels: map<nat, Channel<Item>>

    ghost function Now(): System
      reads this
    {
      System(servers, template, registry, handlers, askedFor, channels)
    }

    constructor ()
      ensures Now() == FRESH
    {
      servers, template, registry := map[], Handler(None, None), map[];
      handlers, askedFor, channels := map[], map[], map[];
    }

    method EnsureServer(name: string)
      modifies this`registry
      ensures registry == old(registry)[name := FlagsOf(old(registry), name)]
    {
      if name !in registry {
        registry := registry[name := Flags({}, false)];
      }
    }

    method SetTraceContext(name: string, enabled: bool)
      modifies this`registry
      ensures registry == old(registry)[name := FlagsOf(old(registry), name).(trace := enabled)]
    {
      if name !in registry {
        registry := registry[name := Flags({}, false)];
      }
      registry := registry[name := registry[name].(trace := enabled)];
    }

    method MarkKind(name: string, kind: Kind)
      modifies this`registry
      ensures Now() == MarkStep(old(Now()), name, kind)
    {
      if name !in registry {
        registry := registry[name := Flags({}, false)];
      }
      registry := registry[name := registry[name].(kinds := registry[name].kinds + {kind})];
    }

    /** `connect`; `conn` is the new connection, `attempt` how far its transport gets. */
    method Connect(conn: nat, name: string, trace: bool, attempt: Attempt) returns (ok: bool)
      requires Enabled(Now(), Op.Connect(conn, name, trace, attempt))
      modifies this
      ensures Now() == ConnectStep(old(Now()), conn, name, trace, attempt)
      ensures ok <==> attempt.Connected?
      ensures servers == if ok then old(servers)[name := conn] else old(servers)
      ensures attempt.SpawnFailed? ==> registry == old(registry) && template == old(template)
      ensures !attempt.SpawnFailed? ==>
                && template == Handler(None, old(template).channel)
                && registry == old(registry)[name := Flags(if name in old(registry) then old(registry)[name].kinds else {}, trace)]
    {
      if attempt.SpawnFailed? {
        return false;
      }
      ghost var before := registry;
      EnsureServer(name);
      SetTraceContext(name, trace);
      assert registry == before[name := FlagsOf(before, name).(trace := trace)];
      template := template.(serverName := Some(name));
      var handler := template;
      template := template.(serverName := None);
      handlers, askedFor := handlers[conn := handler], askedFor[conn := name];
      if attempt.InitFailed? {
        return false;
      }
      servers := servers[name := conn];
      return true;
    }

    /** Takes the entry out first, then cancels; `cancel` is what the cancellation answers, if there is one to make. */
    method Disconnect(name: string, cancel: Option<string>) returns (err: Option<string>)
      modifies this`servers
      ensures servers == old(servers) - {name}
      ensures err == if name in old(servers) then cancel else None
    {
      if name !in servers {
        return None;
      }
      servers := servers - {name};
      return cancel;
    }

    /** Every server goes, whatever fails; the answer is the first error met, if any. */
    method DisconnectAll(cancel: string -> Option<string>) returns (err: Option<string>)
      modifies this`servers
      ensures servers == map[]
      ensures err.None? <==> forall n :: n in old(servers) ==> cancel(n).None?
      ensures err.Some? ==> exists n :: n in old(servers) && cancel(n) == err
    {
      err := None;
      var names := servers.Keys;
      while names != {}
        invariant names <= old(servers).Keys && servers.Keys == names
        invariant err.None? <==> forall n :: n in old(servers) && n !in names ==> cancel(n).None?
        invariant err.Some? ==> exists n :: n in old(servers) && cancel(n) == err
        decreases |names|
      {
        var name :| name in names;
        names := names - {name};
        var e := Disconnect(name, cancel(name));
        if e.Some? && err.None? {
          err := e;
        }
      }
    }
  }
}
