/** Safety of the executor over every run: any deliveries, write failures, handler outcomes and crashes. */
module ExecutorRuns {
  import opened Bytes
  import opened Protocol
  import opened Wrappers
  import opened Executor
  import Signing

  datatype Event =
    | Deliver(cmd: Command, now: int, w: Effect)
    | Call(startWrite: Effect)
    | Return(run: HandlerRun, finishWrite: Effect)
    | Crash(handlers: set<Octets>)

  /** One atomic section of the agent; an event that does not fit the phase changes nothing. */
  function Next(cfg: Config, a: Agent, e: Event): (Agent, Option<CommandResult>) {
    match e
    case Deliver(cmd, now, w) => if a.phase.Idle? then Receive(cfg, a, cmd, now, w) else (a, None)
    case Call(w) => if a.phase.Admitted? && a.phase.index < |a.image.records| then Start(a, w) else (a, None)
    case Return(run, w) =>
      if a.phase.InHandler? && a.phase.index < |a.image.records| then
        var (next, result) := Complete(cfg, a, run, w);
        (next, Some(result))
      else (a, None)
    case Crash(handlers) => (Restart(a, handlers), None)
  }

  function After(cfg: Config, a: Agent, events: seq<Event>): Agent
    decreases |events|
  {
    if events == [] then a else After(cfg, Next(cfg, a, events[0]).0, events[1..])
  }

  /** An uninterrupted Execute is these three events. */
  lemma ExecuteIsThreeEvents(cfg: Config, a: Agent, cmd: Command, env: Env)
    requires a.phase.Idle?
    ensures After(cfg, a,
                  [Deliver(cmd, env.now, env.admitWrite), Call(env.startWrite), Return(env.run, env.finishWrite)])
            == Delivered(cfg, a, cmd, env).0
  {
    hide Screen, Digest, Concluded;
    var e0, e1, e2 := Deliver(cmd, env.now, env.admitWrite), Call(env.startWrite), Return(env.run, env.finishWrite);
    var a1 := Next(cfg, a, e0).0;
    var a2 := Next(cfg, a1, e1).0;
    var a3 := Next(cfg, a2, e2).0;
    assert [e0, e1, e2][1..] == [e1, e2] && [e1, e2][1..] == [e2] && [e2][1..] == [];
    assert After(cfg, a, [e0, e1, e2]) == After(cfg, a1, [e1, e2]);
    assert After(cfg, a1, [e1, e2]) == After(cfg, a2, [e2]);
    assert After(cfg, a2, [e2]) == After(cfg, a3, []);
  }

  function Installed(handlers: set<Octets>): Agent {
    Agent(handlers, EMPTY_IMAGE, EMPTY_IMAGE, 0, [], Idle, [], [])
  }

  lemma NextKeepsInv(cfg: Config, a: Agent, e: Event)
    requires AgentInv(cfg, a)
    ensures AgentInv(cfg, Next(cfg, a, e).0)
  {
    hide AgentInv;
    match e
    case Deliver(cmd, now, w) => if a.phase.Idle? { ReceiveKeepsInv(cfg, a, cmd, now, w); }
    case Call(w) => if a.phase.Admitted? { StartKeepsInv(cfg, a, w); }
    case Return(run, w) => if a.phase.InHandler? { CompleteKeepsInv(cfg, a, run, w); }
    case Crash(handlers) => RestartKeepsInv(cfg, a, handlers);
  }

  /** The bookkeeping invariant holds in every state an installed agent can reach. */
  lemma {:induction false} InvAlways(cfg: Config, handlers: set<Octets>, events: seq<Event>)
    ensures AgentInv(cfg, After(cfg, Installed(handlers), events))
  {
    InvFrom(cfg, Installed(handlers), events);
  }

  lemma {:induction false} InvFrom(cfg: Config, a: Agent, events: seq<Event>)
    requires AgentInv(cfg, a)
    ensures AgentInv(cfg, After(cfg, a, events))
    decreases |events|
  {
    if events != [] {
      NextKeepsInv(cfg, a, events[0]);
      InvFrom(cfg, Next(cfg, a, events[0]).0, events[1..]);
    }
  }

  /** The only record memory or disk may hold under d's sequence is d itself. */
  ghost predicate Settled(a: Agent, d: Record) {
    && Terminal(d.state)
    && d.sequence <= a.disk.highestSeen
    && (forall r :: r in a.image.records && r.sequence == d.sequence ==> r == d)
    && (forall r :: r in a.disk.records && r.sequence == d.sequence ==> r == d)
  }

  lemma OnDiskIsSettled(cfg: Config, a: Agent, d: Record)
    requires AgentInv(cfg, a) && d in a.disk.records && Terminal(d.state)
    ensures Settled(a, d)
  {
  }

  ghost predicate CallsOnlyOthers(before: Agent, after: Agent, sequence: nat) {
    && before.calls <= after.calls
    && (forall k :: |before.calls| <= k < |after.calls| ==> after.calls[k].sequence != sequence)
  }

  lemma DeliverKeepsSettled(cfg: Config, a: Agent, d: Record, cmd: Command, now: int, w: Effect)
    requires AgentInv(cfg, a) && Settled(a, d) && a.phase.Idle?
    ensures Settled(Receive(cfg, a, cmd, now, w).0, d)
  {
    hide Digest, Signing.SigningBytes, FindRecord;
    if Screen(cfg, a, cmd, now) == Admit {
      var all := a.image.records + [AcceptedRecord(cfg, cmd)];
      assert forall r :: r in Newest(all) ==> r in all;
    }
  }

  lemma RewriteKeepsSettled(records: seq<Record>, index: nat, r: Record, d: Record)
    requires index < |records| && r.sequence == records[index].sequence && !Terminal(records[index].state)
             && Terminal(d.state)
    requires forall x :: x in records && x.sequence == d.sequence ==> x == d
    ensures forall x :: x in records[index := r] && x.sequence == d.sequence ==> x == d
  {
    assert records[index] in records;
  }

  lemma CallKeepsSettled(cfg: Config, a: Agent, d: Record, w: Effect)
    requires AgentInv(cfg, a) && Settled(a, d)
    ensures Settled(Next(cfg, a, Call(w)).0, d) && CallsOnlyOthers(a, Next(cfg, a, Call(w)).0, d.sequence)
  {
    hide Digest, Signing.SigningBytes;
    if a.phase.Admitted? {
      var records, index := a.image.records, a.phase.index;
      assert records[index] in records;
      RewriteKeepsSettled(records, index, MarkRunning(a.image, index).records[index], d);
    }
  }

  lemma ReturnKeepsSettled(cfg: Config, a: Agent, d: Record, run: HandlerRun, w: Effect)
    requires AgentInv(cfg, a) && Settled(a, d)
    ensures Settled(Next(cfg, a, Return(run, w)).0, d) && CallsOnlyOthers(a, Next(cfg, a, Return(run, w)).0, d.sequence)
  {
    hide Digest, Signing.SigningBytes;
    if a.phase.InHandler? {
      var records, index := a.image.records, a.phase.index;
      assert records[index] in records;
      var image := Concluded(a.image, index, a.phase.cmd, Conclude(run, cfg.prims));
      RewriteKeepsSettled(records, index, image.records[index], d);
    }
  }

  lemma NextKeepsSettled(cfg: Config, a: Agent, e: Event, d: Record)
    requires AgentInv(cfg, a) && Settled(a, d)
    ensures Settled(Next(cfg, a, e).0, d) && CallsOnlyOthers(a, Next(cfg, a, e).0, d.sequence)
  {
    hide Start, Complete, AgentInv;
    match e
    case Deliver(cmd, now, w) => if a.phase.Idle? { DeliverKeepsSettled(cfg, a, d, cmd, now, w); }
    case Call(w) => CallKeepsSettled(cfg, a, d, w);
    case Return(run, w) => ReturnKeepsSettled(cfg, a, d, run, w);
    case Crash(handlers) =>
  }

  lemma {:induction false} SettledFrom(cfg: Config, a: Agent, events: seq<Event>, d: Record)
    requires AgentInv(cfg, a) && Settled(a, d)
    ensures Settled(After(cfg, a, events), d) && CallsOnlyOthers(a, After(cfg, a, events), d.sequence)
    decreases |events|
  {
    if events != [] {
      var next := Next(cfg, a, events[0]).0;
      NextKeepsInv(cfg, a, events[0]);
      NextKeepsSettled(cfg, a, events[0], d);
      SettledFrom(cfg, next, events[1..], d);
    }
  }

  /** Replay safety: once a terminal result is on disk, no continuation of the run calls a handler
      for that sequence again, whatever is redelivered, lost, evicted or crashes. */
  lemma NeverCalledAgain(cfg: Config, a: Agent, events: seq<Event>, d: Record)
    requires AgentInv(cfg, a) && d in a.disk.records && Terminal(d.state)
    ensures forall k :: |a.calls| <= k < |After(cfg, a, events).calls| ==>
              After(cfg, a, events).calls[k].sequence != d.sequence
  {
    OnDiskIsSettled(cfg, a, d);
    SettledFrom(cfg, a, events, d);
  }

  /** A kept record carries d's identifier under another sequence. */
  ghost predicate ReusedId(a: Agent, d: Record) {
    exists r :: r in a.image.records && r.commandId == d.commandId && r.sequence != d.sequence
  }

  /** A redelivery then changes nothing; it is answered with the stored result while the record is kept, and
      afterwards only with a refusal (a mismatch needs another kept command that reuses the identifier). */
  lemma RedeliveryAnswer(cfg: Config, a: Agent, events: seq<Event>, d: Record, cmd: Command, now: int, w: Effect)
    requires AgentInv(cfg, a) && d in a.disk.records && Terminal(d.state)
    requires Authentic(cfg, cmd) && cmd.commandId == d.commandId && cmd.sequence == d.sequence
             && Digest(cfg, cmd) == d.digest
    requires After(cfg, a, events).phase.Idle?
    ensures var later := After(cfg, a, events);
            var (next, answer) := Receive(cfg, later, cmd, now, w);
            && next == later && answer.Some?
            && (d in later.image.records ==> answer.value == d.result)
            && (d !in later.image.records ==>
                  (exists code ::
                     && code in {"stale_sequence", "expired", "issued_in_future", "duplicate_mismatch"}
                     && answer.value == FailedResult(cmd, code)
                     && (code == "duplicate_mismatch" ==> ReusedId(later, d))))
  {
    hide Digest, Signing.SigningBytes, After, PhaseOk, DiskAgrees;
    OnDiskIsSettled(cfg, a, d);
    SettledFrom(cfg, a, events, d);
    InvFrom(cfg, a, events);
    var later := After(cfg, a, events);
    var i := FindRecord(later.image.records, cmd.commandId);
    if i < |later.image.records| {
      var r := later.image.records[i];
      assert r in later.image.records;
    }
    if d in later.image.records {
      var k :| 0 <= k < |later.image.records| && later.image.records[k] == d;
      assert i == k;
    } else {
      var code := Screen(cfg, later, cmd, now).code;
      assert Receive(cfg, later, cmd, now, w).1 == Some(FailedResult(cmd, code));
    }
  }

  /** What heartbeats have announced as completed is on disk and never taken back, crashes included. */
  lemma {:induction false} CompletedNeverRetreats(cfg: Config, a: Agent, events: seq<Event>)
    requires AgentInv(cfg, a)
    ensures a.completed <= After(cfg, a, events).completed <= After(cfg, a, events).disk.highestCompleted
    decreases |events|
  {
    hide AgentInv, Next;
    CompletedIsOnDisk(cfg, a);
    if events != [] {
      CompletedStep(cfg, a, events[0]);
      NextKeepsInv(cfg, a, events[0]);
      CompletedNeverRetreats(cfg, Next(cfg, a, events[0]).0, events[1..]);
    }
  }

  lemma CompletedIsOnDisk(cfg: Config, a: Agent)
    requires AgentInv(cfg, a)
    ensures a.completed <= a.disk.highestCompleted
  {
  }

  lemma CompletedStep(cfg: Config, a: Agent, e: Event)
    requires AgentInv(cfg, a)
    ensures a.completed <= Next(cfg, a, e).0.completed
  {
    hide Digest, Signing.SigningBytes, FindRecord;
  }

  // ---------- when a delivery runs its handler ----------

  predicate Timely(cmd: Command, now: int) {
    cmd.issuedAt <= now + CLOCK_SKEW && now < cmd.expiresAt && cmd.issuedAt < cmd.expiresAt
  }

  predicate Known(a: Agent, cmd: Command) {
    exists r :: r in a.image.records && r.commandId == cmd.commandId
  }

  /** The kept record of this very command has no terminal result yet. */
  predicate Unfinished(cfg: Config, a: Agent, cmd: Command) {
    exists r :: r in a.image.records && r.commandId == cmd.commandId && r.sequence == cmd.sequence
                && r.digest == Digest(cfg, cmd) && !Terminal(r.state)
  }

  /** One delivery calls the handler, once and with that command, if and only if it is authentic and handled, was left
      unfinished or is new, timely and beyond every sequence seen, and the writes before the call succeed. */
  lemma HandlerRunsIff(cfg: Config, a: Agent, cmd: Command, env: Env)
    requires AgentInv(cfg, a) && a.phase.Idle?
    ensures var calls := Delivered(cfg, a, cmd, env).0.calls;
            && (calls == a.calls + [cmd] || calls == a.calls)
            && (calls == a.calls + [cmd] <==>
                  Authentic(cfg, cmd) && cmd.action in a.handlers && env.startWrite.Done?
                  && if Known(a, cmd) then Unfinished(cfg, a, cmd)
                     else Timely(cmd, env.now) && cmd.sequence > a.image.highestSeen && env.admitWrite.Done?)
  {
    hide Digest, Signing.SigningBytes, FindRecord, Newest, DiskAgrees;
    var records, i := a.image.records, FindRecord(a.image.records, cmd.commandId);
    assert Known(a, cmd) <==> i < |records| by {
      if i < |records| { assert records[i] in records; }
    }
    if i < |records| {
      assert records[i] in records;
      OnlyRecord(a.image, i);
    }
    CallsOfDelivery(cfg, a, cmd, env);
    hide AgentInv, Delivered, WellFormed;
  }

  lemma OnlyRecord(image: Image, i: nat)
    requires ImageOk(image) && i < |image.records|
    ensures forall r :: r in image.records && r.commandId == image.records[i].commandId ==> r == image.records[i]
  {
  }

  lemma CallsOfDelivery(cfg: Config, a: Agent, cmd: Command, env: Env)
    requires a.phase.Idle?
    ensures var screened := Screen(cfg, a, cmd, env.now);
            Delivered(cfg, a, cmd, env).0.calls ==
              if (screened.Resume? || (screened.Admit? && env.admitWrite.Done?)) && cmd.action in a.handlers
                  && env.startWrite.Done?
              then a.calls + [cmd] else a.calls
  {
    hide Screen, Newest;
  }

  // ---------- the limit of replay safety ----------

  ghost predicate CalledAgain(cfg: Config, a: Agent, events: seq<Event>, cmd: Command) {
    cmd in After(cfg, a, events).calls[if |a.calls| <= |After(cfg, a, events).calls| then |a.calls| else 0..]
  }

  /** The events that run a command a second time after its outcome failed to reach the disk. */
  function SecondCall(cmd: Command): seq<Event> {
    [Crash({cmd.action}), Deliver(cmd, 0, Done), Call(Done)]
  }

  /** A command whose record on disk is not terminal can always be run again: crash, redelivery, call. */
  lemma UnfinishedRunsAgain(cfg: Config, a: Agent, cmd: Command, d: Record)
    requires ImageOk(a.disk) && Authentic(cfg, cmd) && d in a.disk.records && !Terminal(d.state)
    requires d.commandId == cmd.commandId && d.sequence == cmd.sequence && d.digest == Digest(cfg, cmd)
    ensures After(cfg, a, SecondCall(cmd)).calls == a.calls + [cmd]
  {
    hide Digest, Signing.SigningBytes;
    var crashed := Restart(a, {cmd.action});
    var k :| 0 <= k < |crashed.image.records| && crashed.image.records[k] == d;
    assert FindRecord(crashed.image.records, cmd.commandId) == k;
    var resumed := Receive(cfg, crashed, cmd, 0, Done).0;
    assert resumed == crashed.(phase := Admitted(cmd, k));
    var called := Start(resumed, Done).0;
    var events := SecondCall(cmd);
    assert events[1..] == [Deliver(cmd, 0, Done), Call(Done)];
    assert events[1..][1..] == [Call(Done)];
    assert After(cfg, a, events) == After(cfg, crashed, events[1..]);
    assert After(cfg, crashed, events[1..]) == After(cfg, resumed, [Call(Done)]);
    assert After(cfg, resumed, [Call(Done)]) == After(cfg, called, []);
  }

  /** The sequence is behind the disk and every record kept under it, in memory or on disk, is terminal. */
  ghost predicate Shut(a: Agent, sequence: nat) {
    && sequence <= a.disk.highestSeen
    && (forall r :: r in a.image.records && r.sequence == sequence ==> Terminal(r.state))
    && (forall r :: r in a.disk.records && r.sequence == sequence ==> Terminal(r.state))
  }

  /** What the disk has seen and memory still keeps, the disk keeps too. */
  ghost predicate SeenOnDisk(a: Agent) {
    forall r :: r in a.image.records && r.sequence <= a.disk.highestSeen ==>
      exists d :: d in a.disk.records && d.sequence == r.sequence
  }

  /** Replacing a record by one of the same sequence leaves the sequences and all other records alone. */
  lemma RewriteMeans(records: seq<Record>, index: nat, r: Record)
    requires index < |records| && r.sequence == records[index].sequence
    ensures forall x :: x in records[index := r] ==> x == r || x in records
    ensures forall x :: x in records ==> exists y :: y in records[index := r] && y.sequence == x.sequence
  {
    forall x | x in records ensures exists y :: y in records[index := r] && y.sequence == x.sequence {
      var i :| 0 <= i < |records| && records[i] == x;
      assert records[index := r][i] in records[index := r];
    }
  }

  lemma DeliverKeepsShut(cfg: Config, a: Agent, cmd: Command, now: int, w: Effect, sequence: nat)
    requires AgentInv(cfg, a)
    ensures var a' := Receive(cfg, a, cmd, now, w).0;
            && (Shut(a, sequence) ==> Shut(a', sequence)) && (SeenOnDisk(a) ==> SeenOnDisk(a')) && a'.calls == a.calls
  {
    hide Screen, AgentInv, Shut, SeenOnDisk;
    if Screen(cfg, a, cmd, now) == Admit {
      AdmitKeepsShut(cfg, a, cmd, now, w, sequence);
    } else {
      SameImages(a, Receive(cfg, a, cmd, now, w).0, sequence);
    }
  }

  lemma SameImages(a: Agent, a': Agent, sequence: nat)
    requires a'.image == a.image && a'.disk == a.disk
    ensures Shut(a', sequence) == Shut(a, sequence) && SeenOnDisk(a') == SeenOnDisk(a)
  {
  }

  lemma AdmitKeepsShut(cfg: Config, a: Agent, cmd: Command, now: int, w: Effect, sequence: nat)
    requires AgentInv(cfg, a) && Screen(cfg, a, cmd, now) == Admit
    ensures var a' := Receive(cfg, a, cmd, now, w).0;
            && (Shut(a, sequence) ==> Shut(a', sequence)) && (SeenOnDisk(a) ==> SeenOnDisk(a')) && a'.calls == a.calls
  {
    hide Screen, Newest, AcceptedRecord, AgentInv, Terminal;
    AdmittedIsNew(cfg, a, cmd, now);
    var all := a.image.records + [AcceptedRecord(cfg, cmd)];
    NewestIsPart(all);
    assert forall r :: r in all ==> r in a.image.records || r == AcceptedRecord(cfg, cmd);
  }

  lemma AdmittedIsNew(cfg: Config, a: Agent, cmd: Command, now: int)
    requires AgentInv(cfg, a) && Screen(cfg, a, cmd, now) == Admit
    ensures a.disk.highestSeen <= a.image.highestSeen < cmd.sequence
            && AcceptedRecord(cfg, cmd).sequence == cmd.sequence
  {
    hide Digest, Signing.SigningBytes, FindRecord;
  }

  lemma NewestIsPart(records: seq<Record>)
    ensures forall r :: r in Newest(records) ==> r in records
  {
  }

  /** A step that rewrites one record that is not terminal, in memory, on disk, in both or in neither. */
  lemma RewriteKeepsShut(a: Agent, a': Agent, index: nat, r: Record, sequence: nat)
    requires index < |a.image.records| && r.sequence == a.image.records[index].sequence
             && !Terminal(a.image.records[index].state)
    requires a.disk.highestSeen <= a.image.highestSeen
    requires a'.image.records == a.image.records || a'.image.records == a.image.records[index := r]
    requires a'.disk == a.disk
             || (a'.disk.records == a.image.records[index := r] && a'.disk.highestSeen == a.image.highestSeen)
    ensures (Shut(a, sequence) ==> Shut(a', sequence) && a.image.records[index].sequence != sequence)
            && (SeenOnDisk(a) ==> SeenOnDisk(a'))
  {
    var records := a.image.records;
    assert records[index] in records;
    RewriteMeans(records, index, r);
    var rewritten := records[index := r];
    if SeenOnDisk(a) {
      forall x | x in a'.image.records && x.sequence <= a'.disk.highestSeen
        ensures exists d :: d in a'.disk.records && d.sequence == x.sequence
      {
        assert exists y :: y in records && y.sequence == x.sequence;
      }
    }
  }

  lemma CallKeepsShut(cfg: Config, a: Agent, w: Effect, sequence: nat)
    requires AgentInv(cfg, a)
    ensures var a' := Next(cfg, a, Call(w)).0;
            && (SeenOnDisk(a) ==> SeenOnDisk(a'))
            && (Shut(a, sequence) ==> Shut(a', sequence) && CallsOnlyOthers(a, a', sequence))
  {
    hide Digest, Signing.SigningBytes, Shut, SeenOnDisk;
    var a' := Next(cfg, a, Call(w)).0;
    if a.phase.Admitted? {
      var index := a.phase.index;
      RewriteKeepsShut(a, a', index, MarkRunning(a.image, index).records[index], sequence);
    }
  }

  lemma ReturnKeepsShut(cfg: Config, a: Agent, run: HandlerRun, w: Effect, sequence: nat)
    requires AgentInv(cfg, a)
    ensures var a' := Next(cfg, a, Return(run, w)).0;
            && (SeenOnDisk(a) ==> SeenOnDisk(a')) && (Shut(a, sequence) ==> Shut(a', sequence)) && a'.calls == a.calls
  {
    hide Digest, Signing.SigningBytes, Shut, SeenOnDisk, Conclude;
    var a' := Next(cfg, a, Return(run, w)).0;
    if a.phase.InHandler? {
      var index, v := a.phase.index, Conclude(run, cfg.prims);
      RewriteKeepsShut(a, a', index, Concluded(a.image, index, a.phase.cmd, v).records[index], sequence);
    }
  }

  lemma NextKeepsShut(cfg: Config, a: Agent, e: Event, sequence: nat)
    requires AgentInv(cfg, a)
    ensures SeenOnDisk(a) ==> SeenOnDisk(Next(cfg, a, e).0)
    ensures Shut(a, sequence) ==> Shut(Next(cfg, a, e).0, sequence) && CallsOnlyOthers(a, Next(cfg, a, e).0, sequence)
  {
    hide Start, Complete, AgentInv, Receive;
    match e
    case Deliver(cmd, now, w) => if a.phase.Idle? { DeliverKeepsShut(cfg, a, cmd, now, w, sequence); }
    case Call(w) => CallKeepsShut(cfg, a, w, sequence);
    case Return(run, w) => ReturnKeepsShut(cfg, a, run, w, sequence);
    case Crash(handlers) =>
  }

  lemma {:induction false} ShutFrom(cfg: Config, a: Agent, events: seq<Event>, sequence: nat)
    requires AgentInv(cfg, a)
    ensures SeenOnDisk(a) ==> SeenOnDisk(After(cfg, a, events))
    ensures Shut(a, sequence) ==> CallsOnlyOthers(a, After(cfg, a, events), sequence)
    decreases |events|
  {
    hide AgentInv, Next, Shut, SeenOnDisk;
    if events != [] {
      var next := Next(cfg, a, events[0]).0;
      NextKeepsInv(cfg, a, events[0]);
      NextKeepsShut(cfg, a, events[0], sequence);
      ShutFrom(cfg, next, events[1..], sequence);
    }
  }

  lemma FinishedIsShut(cfg: Config, a: Agent, sequence: nat)
    requires AgentInv(cfg, a) && SeenOnDisk(a) && sequence <= a.disk.highestSeen
    requires forall d :: d in a.disk.records && d.sequence == sequence ==> Terminal(d.state)
    ensures Shut(a, sequence)
  {
    hide Digest, Signing.SigningBytes, Authentic, PhaseOk;
  }

  /** The exact limit of exactly-once. Of a command the agent's disk has passed, in any state of any run (idle,
      admitted, inside its handler, pending or finished): it can be run again if and only if the disk keeps its record
      and that record is not terminal. */
  lemma RunsAgainIffUnfinishedOnDisk(cfg: Config, handlers: set<Octets>, before: seq<Event>, cmd: Command)
    requires var a := After(cfg, Installed(handlers), before);
             && Authentic(cfg, cmd) && cmd.sequence <= a.disk.highestSeen
             && forall d :: d in a.disk.records && d.sequence == cmd.sequence ==>
                   d.commandId == cmd.commandId && d.digest == Digest(cfg, cmd)
    ensures var a := After(cfg, Installed(handlers), before);
            (exists d :: d in a.disk.records && d.sequence == cmd.sequence && !Terminal(d.state))
            <==> exists events :: CalledAgain(cfg, a, events, cmd)
  {
    var a := After(cfg, Installed(handlers), before);
    InvAlways(cfg, handlers, before);
    ShutFrom(cfg, Installed(handlers), before, 0);
    hide Digest, After, Shut, SeenOnDisk, Authentic;
    if d :| d in a.disk.records && d.sequence == cmd.sequence && !Terminal(d.state) {
      UnfinishedRunsAgain(cfg, a, cmd, d);
      assert CalledAgain(cfg, a, SecondCall(cmd), cmd);
    } else {
      FinishedIsShut(cfg, a, cmd.sequence);
      forall events ensures !CalledAgain(cfg, a, events, cmd) { ShutFrom(cfg, a, events, cmd.sequence); }
    }
  }

  /** In particular of a command that has just finished without its outcome reaching the disk. */
  lemma LostOutcomeRunsAgain(cfg: Config, a: Agent, run: HandlerRun)
    requires AgentInv(cfg, a) && a.phase.InHandler?
    ensures var done := Complete(cfg, a, run, NotDone).0;
            After(cfg, done, SecondCall(a.phase.cmd)).calls == done.calls + [a.phase.cmd]
  {
    var r := a.image.records[a.phase.index];
    UnfinishedRunsAgain(cfg, Complete(cfg, a, run, NotDone).0, a.phase.cmd, r);
  }
}
