/** What the manager holds after any run, in terms of the calls that were made. */
module McpRuns {
  import opened Wrappers
  import opened NotifyChannel
  import opened Mcp

  /** Whether position `i` is the last of its kind, with nothing after it that undoes it. */
  ghost predicate Last(made: Op -> bool, undone: Op -> bool, ops: seq<Op>, i: nat) {
    i < |ops| && made(ops[i]) && forall j :: i < j < |ops| ==> !made(ops[j]) && !undone(ops[j])
  }

  lemma LastOneMore(made: Op -> bool, undone: Op -> bool, ops: seq<Op>, i: nat)
    requires ops != []
    ensures var before, op := ops[..|ops| - 1], ops[|ops| - 1];
            Last(made, undone, ops, i) <==>
            if made(op) then i == |before| else !undone(op) && Last(made, undone, before, i)
  {
    var before, op := ops[..|ops| - 1], ops[|ops| - 1];
    if !made(op) && !undone(op) && Last(made, undone, before, i) {
      forall j | i < j < |ops| ensures !made(ops[j]) && !undone(ops[j]) {
        if j < |before| { assert before[j] == ops[j]; }
      }
    }
    if Last(made, undone, ops, i) && i < |before| {
      forall j | i < j < |before| ensures !made(before[j]) && !undone(before[j]) { assert before[j] == ops[j]; }
    }
  }

  lemma AnyLastOneMore(made: Op -> bool, undone: Op -> bool, ops: seq<Op>)
    requires ops != []
    ensures var before, op := ops[..|ops| - 1], ops[|ops| - 1];
            (exists i: nat :: Last(made, undone, ops, i)) <==>
            made(op) || (!undone(op) && exists i: nat :: Last(made, undone, before, i))
  {
    var before, op := ops[..|ops| - 1], ops[|ops| - 1];
    LastOneMore(made, undone, ops, |before|);
    forall i: nat ensures Last(made, undone, ops, i) <==>
      if made(op) then i == |before| else !undone(op) && Last(made, undone, before, i)
    {
      LastOneMore(made, undone, ops, i);
    }
  }

  function Opens(name: string): Op -> bool {
    (op: Op) => op.Connect? && op.name == name && op.attempt.Connected?
  }

  function Closes(name: string): Op -> bool {
    (op: Op) => op == Disconnect(name)
  }

  function Asks(name: string): Op -> bool {
    (op: Op) => op.Connect? && op.name == name && !op.attempt.SpawnFailed?
  }

  function Never(): Op -> bool {
    (op: Op) => false
  }

  function SetsIsle(): Op -> bool {
    (op: Op) => op.SetMainIsle?
  }

  // ----- connections -----

  lemma StepServers(s: System, op: Op, name: string)
    requires Enabled(s, op)
    ensures name in Step(s, op).servers <==> Opens(name)(op) || (!Closes(name)(op) && name in s.servers)
    ensures name in Step(s, op).servers ==> Step(s, op).servers[name] == if Opens(name)(op) then op.conn else s.servers[name]
  {
  }

  /**
    In every run the manager has a connection under a name exactly when some
    connect under it succeeded that no disconnect followed, and it is that
    of the last one.
  */
  lemma {:induction false} ServersAreLastConnects(ops: seq<Op>, name: string)
    requires IsRun(ops)
    ensures name in Run(ops).servers <==> exists i: nat :: Last(Opens(name), Closes(name), ops, i)
    ensures forall i: nat :: Last(Opens(name), Closes(name), ops, i) ==>
              name in Run(ops).servers && Run(ops).servers[name] == ops[i].conn
  {
    if ops != [] {
      var before, op := ops[..|ops| - 1], ops[|ops| - 1];
      ServersAreLastConnects(before, name);
      StepServers(Run(before), op, name);
      AnyLastOneMore(Opens(name), Closes(name), ops);
      forall i: nat | Last(Opens(name), Closes(name), ops, i)
        ensures name in Run(ops).servers && Run(ops).servers[name] == ops[i].conn
      {
        LastOneMore(Opens(name), Closes(name), ops, i);
      }
    }
  }

  lemma StepTemplate(s: System, op: Op)
    requires Enabled(s, op) && Identities(s)
    ensures Step(s, op).template == if op.SetMainIsle? then Handler(None, Some(op.channel)) else s.template
  {
  }

  /** New connections go to the channel of the last main VM that was set, or to none. */
  lemma {:induction false} TemplateIsLastIsle(ops: seq<Op>)
    requires IsRun(ops)
    ensures Run(ops).template.channel.Some? <==> exists i: nat :: Last(SetsIsle(), Never(), ops, i)
    ensures forall i: nat :: Last(SetsIsle(), Never(), ops, i) ==> Run(ops).template.channel == Some(ops[i].channel)
  {
    if ops != [] {
      var before, op := ops[..|ops| - 1], ops[|ops| - 1];
      TemplateIsLastIsle(before);
      RunsKeepIdentity(before);
      StepTemplate(Run(before), op);
      AnyLastOneMore(SetsIsle(), Never(), ops);
      forall i: nat | Last(SetsIsle(), Never(), ops, i) ensures Run(ops).template.channel == Some(ops[i].channel) {
        LastOneMore(SetsIsle(), Never(), ops, i);
      }
    }
  }

  lemma {:induction false} PrefixIsRun(ops: seq<Op>, i: nat)
    requires IsRun(ops) && i <= |ops|
    ensures IsRun(ops[..i])
    decreases |ops|
  {
    if i < |ops| {
      PrefixIsRun(ops[..|ops| - 1], i);
      assert ops[..|ops| - 1][..i] == ops[..i];
    } else {
      assert ops[..i] == ops;
    }
  }

  lemma StepHandler(s: System, op: Op)
    requires Enabled(s, op) && Identities(s) && op.Connect? && !op.attempt.SpawnFailed?
    ensures var t := Step(s, op);
            && op.conn in t.handlers && op.conn in t.askedFor && t.askedFor[op.conn] == op.name
            && t.handlers[op.conn] == Handler(Some(op.name), s.template.channel)
  {
  }

  lemma OthersKeepHandlers(s: System, op: Op)
    requires Enabled(s, op) && !op.Connect?
    ensures Step(s, op).handlers == s.handlers && Step(s, op).askedFor == s.askedFor
  {
  }

  lemma ConnectKeepsHandlers(s: System, made: nat, name: string, trace: bool, attempt: Attempt, conn: nat)
    requires made !in s.handlers && conn in s.handlers && conn in s.askedFor
    ensures var t := ConnectStep(s, made, name, trace, attempt);
            && conn in t.handlers && t.handlers[conn] == s.handlers[conn]
            && conn in t.askedFor && t.askedFor[conn] == s.askedFor[conn]
  {
  }

  lemma HandlerStays(s: System, op: Op, conn: nat)
    requires Enabled(s, op) && Identities(s) && conn in s.handlers
    ensures var t := Step(s, op);
            && conn in t.handlers && t.handlers[conn] == s.handlers[conn]
            && conn in t.askedFor && t.askedFor[conn] == s.askedFor[conn]
  {
    if op.Connect? {
      ConnectKeepsHandlers(s, op.conn, op.name, op.trace, op.attempt, conn);
    } else {
      OthersKeepHandlers(s, op);
    }
  }

  /** For good, a connection has the name it was asked for under and the channel there was at that moment. */
  lemma {:induction false} HandlerOfConnection(ops: seq<Op>, i: nat)
    requires IsRun(ops) && i < |ops| && ops[i].Connect? && !ops[i].attempt.SpawnFailed?
    ensures IsRun(ops[..i])
    ensures var s := Run(ops);
            && ops[i].conn in s.handlers && ops[i].conn in s.askedFor && s.askedFor[ops[i].conn] == ops[i].name
            && s.handlers[ops[i].conn] == Handler(Some(ops[i].name), Run(ops[..i]).template.channel)
    decreases |ops|
  {
    PrefixIsRun(ops, i);
    var before, op := ops[..|ops| - 1], ops[|ops| - 1];
    RunsKeepIdentity(before);
    if i == |ops| - 1 {
      StepHandler(Run(before), op);
    } else {
      assert before[i] == ops[i] && before[..i] == ops[..i];
      HandlerOfConnection(before, i);
      HandlerStays(Run(before), op, ops[i].conn);
    }
  }

  // ----- registrations -----

  lemma OthersKeepRegistry(s: System, op: Op)
    requires Enabled(s, op) && !op.Connect? && !op.Mark?
    ensures Step(s, op).registry == s.registry
  {
  }

  lemma ConnectFlags(s: System, conn: nat, asked: string, trace: bool, attempt: Attempt, name: string)
    ensures var was, now := FlagsOf(s.registry, name), FlagsOf(ConnectStep(s, conn, asked, trace, attempt).registry, name);
            && now.kinds == was.kinds
            && now.trace == if asked == name && !attempt.SpawnFailed? then trace else was.trace
  {
  }

  lemma MarkFlags(s: System, marked: string, kind: Kind, name: string)
    ensures var was, now := FlagsOf(s.registry, name), FlagsOf(MarkStep(s, marked, kind).registry, name);
            now.kinds == (if marked == name then was.kinds + {kind} else was.kinds) && now.trace == was.trace
  {
  }

  lemma StepFlags(s: System, op: Op, name: string)
    requires Enabled(s, op)
    ensures var was, now := FlagsOf(s.registry, name), FlagsOf(Step(s, op).registry, name);
            && (forall kind :: kind in now.kinds <==> kind in was.kinds || op == Mark(name, kind))
            && now.trace == if Asks(name)(op) then op.trace else was.trace
  {
    match op
    case Connect(conn, asked, trace, attempt) => ConnectFlags(s, conn, asked, trace, attempt, name);
    case Mark(marked, kind) => MarkFlags(s, marked, kind, name);
    case _ => OthersKeepRegistry(s, op);
  }

  /** A kind is registered for a name exactly when some call registered it. */
  lemma {:induction false} KindsAreMarks(ops: seq<Op>, name: string, kind: Kind)
    requires IsRun(ops)
    ensures kind in FlagsOf(Run(ops).registry, name).kinds <==> Mark(name, kind) in ops
  {
    if ops != [] {
      var before, op := ops[..|ops| - 1], ops[|ops| - 1];
      KindsAreMarks(before, name, kind);
      StepFlags(Run(before), op, name);
      assert ops == before + [op];
    }
  }

  /** Trace context is as the last connect under the name asked, failed handshakes included; off if none did. */
  lemma {:induction false} TraceIsLastAsked(ops: seq<Op>, name: string)
    requires IsRun(ops)
    ensures forall i: nat :: Last(Asks(name), Never(), ops, i) ==> FlagsOf(Run(ops).registry, name).trace == ops[i].trace
    ensures (forall i :: 0 <= i < |ops| ==> !Asks(name)(ops[i])) ==> !FlagsOf(Run(ops).registry, name).trace
  {
    if ops != [] {
      var before, op := ops[..|ops| - 1], ops[|ops| - 1];
      TraceIsLastAsked(before, name);
      StepFlags(Run(before), op, name);
      forall i: nat | Last(Asks(name), Never(), ops, i) ensures FlagsOf(Run(ops).registry, name).trace == ops[i].trace {
        LastOneMore(Asks(name), Never(), ops, i);
      }
      if forall i :: 0 <= i < |ops| ==> !Asks(name)(ops[i]) {
        forall i | 0 <= i < |before| ensures !Asks(name)(before[i]) { assert before[i] == ops[i]; }
      }
    }
  }

  // ----- notifications -----

  ghost predicate ChannelsThere(s: System) {
    && (s.template.channel.Some? ==> s.template.channel.value in s.channels)
    && (forall c :: c in s.handlers && s.handlers[c].channel.Some? ==> s.handlers[c].channel.value in s.channels)
  }

  lemma ChannelsStay(s: System, op: Op)
    requires Enabled(s, op)
    ensures forall ch :: ch in s.channels ==> ch in Step(s, op).channels
  {
  }

  lemma ConnectChannelsThere(s: System, conn: nat, name: string, trace: bool, attempt: Attempt)
    requires ChannelsThere(s)
    ensures ChannelsThere(ConnectStep(s, conn, name, trace, attempt))
  {
  }

  lemma StepChannelsThere(s: System, op: Op)
    requires ChannelsThere(s) && Enabled(s, op)
    ensures ChannelsThere(Step(s, op))
  {
    if op.Connect? {
      ConnectChannelsThere(s, op.conn, op.name, op.trace, op.attempt);
    } else {
      ChannelsStay(s, op);
      OthersKeepHandlers(s, op);
    }
  }

  lemma {:induction false} RunsKeepChannels(ops: seq<Op>)
    requires IsRun(ops)
    ensures ChannelsThere(Run(ops))
  {
    if ops != [] {
      RunsKeepChannels(ops[..|ops| - 1]);
      StepChannelsThere(Run(ops[..|ops| - 1]), ops[|ops| - 1]);
    }
  }

  /** Whether a step offers exactly this item to channel `ch`, or nothing, and does nothing else. */
  ghost predicate Offers(s: System, t: System, ch: nat, item: Option<Item>)
    requires ch in s.channels
  {
    && t == s.(channels := t.channels) && t.channels.Keys == s.channels.Keys
    && (forall c :: c in s.channels && c != ch ==> t.channels[c] == s.channels[c])
    && match item
       case None => t.channels[ch] == s.channels[ch]
       case Some(x) => t.channels[ch] == Sent(s.channels[ch], x)
  }

  lemma StepNotify(s: System, conn: nat, kind: Kind, payload: string, ch: nat)
    requires Identities(s) && conn in s.handlers && s.handlers[conn].channel == Some(ch) && ch in s.channels
    ensures var name := s.askedFor[conn];
            Offers(s, Step(s, Notify(conn, kind, payload)), ch,
                   if kind in FlagsOf(s.registry, name).kinds then Some(Item(conn, name, kind, payload)) else None)
  {
  }

  /**
    In every run, a notification on a connection is offered to the channel
    that was there when the connection was made, under the name it was made
    for, exactly when that name has registered its kind at some time.
  */
  lemma {:induction false} NotificationsAreOffered(ops: seq<Op>, i: nat, kind: Kind, payload: string, ch: nat)
    requires IsRun(ops) && i < |ops| && ops[i].Connect? && !ops[i].attempt.SpawnFailed?
    requires IsRun(ops[..i]) && Run(ops[..i]).template.channel == Some(ch)
    ensures var s, c := Run(ops), ops[i];
            && ch in s.channels
            && Offers(s, Step(s, Notify(c.conn, kind, payload)), ch,
                      if Mark(c.name, kind) in ops then Some(Item(c.conn, c.name, kind, payload)) else None)
  {
    RunsKeepIdentity(ops);
    RunsKeepChannels(ops);
    HandlerOfConnection(ops, i);
    KindsAreMarks(ops, ops[i].name, kind);
    StepNotify(Run(ops), ops[i].conn, kind, payload, ch);
  }
}
