/** The Panel, one agent and everything between them. Commands travel over a network that may lose, repeat,
    delay, reorder or invent messages; only signatures are trusted. Results travel from the agent's own
    authenticated connection, each as often and as late as the network likes; other agents report whatever
    they want on theirs. Panel transactions interleave freely with all of it. */
module EndToEnd {
  import opened Bytes
  import opened Protocol
  import opened Wrappers
  import opened Panel
  import opened PanelStore
  import PanelResults
  import Executor
  import ExecutorRuns
  import Signing

  datatype System = System(db: Tables, agent: Executor.Agent, replies: set<CommandResult>)

  datatype Event =
    | Create(batch: Batch)
    /** Dispatch, expiry or revocation of one row. */
    | Move(id: Octets, to: State, actor: Actor, reason: string, code: string, data: Octets, now: int)
    /** One transaction of ApplyAgentResult for a result of this agent. */
    | Advance(to: State, actor: Actor, result: CommandResult, now: int)
    /** The same for a result that came in on another agent's connection. */
    | Foreign(agentId: Octets, to: State, actor: Actor, result: CommandResult, now: int)
    | Local(event: ExecutorRuns.Event)
    /** The agent's session queue is full. */
    | Backpressure(cmd: Command)

  /** A Panel row holds this command, signature aside. */
  ghost predicate Genuine(db: Tables, cmd: Command) {
    exists i :: 0 <= i < |db.rows| && db.rows[i].command.(signature := cmd.signature) == cmd
  }

  /** Ed25519 signatures cannot be forged: what verifies was signed when some row was created. */
  ghost predicate Unforgeable(cfg: Executor.Config, db: Tables, cmd: Command) {
    cfg.prims.verify(Signing.SigningBytes(cmd, cfg.prims.sha256), cmd.signature) ==>
      exists i :: 0 <= i < |db.rows|
          && Signing.SigningBytes(db.rows[i].command, cfg.prims.sha256) == Signing.SigningBytes(cmd, cfg.prims.sha256)
  }

  /** No payload the Panel signed collides with the delivered one under SHA-256. */
  ghost predicate CollisionFree(cfg: Executor.Config, db: Tables, cmd: Command) {
    forall i :: 0 <= i < |db.rows| ==> NoCollision(cfg.prims.sha256, cmd.payload, db.rows[i].command.payload)
  }

  /** The row a result from agentId's connection is allowed to touch. */
  predicate Answers(db: Tables, agentId: Octets, r: CommandResult) {
    var i := FindRow(db.rows, r.commandId);
    i < |db.rows| && db.rows[i].command.agentId == agentId && db.rows[i].command.sequence == r.sequence
  }

  predicate ReportedStep(prims: Primitives, db: Tables, agentId: Octets, r: CommandResult, to: State) {
    PanelResults.WellFormedResult(prims, r) && Answers(db, agentId, r)
    && (to == State.Accepted || to == State.Running || to == PanelResults.AsState(r.state))
  }

  ghost predicate AllEncodable(rows: seq<Row>) {
    forall i :: 0 <= i < |rows| ==> Signing.Encodable(rows[i].command)
  }

  ghost predicate Possible(cfg: Executor.Config, s: System, e: Event) {
    match e
    case Create(b) =>
      |b.agentIds| == |b.ids| && BatchAccepted(cfg.prims, s.db, b, seq(|b.ids|, _ => false), false)
      && (forall k :: 0 <= k < |b.ids| ==> b.ids[k] != []) && AllEncodable(BatchOf(s.db, b, |b.ids|).rows)
    case Move(id, to, actor, reason, code, data, now) =>
      to == State.Dispatched || to == State.Expired || to == State.Failed
    case Advance(to, actor, r, now) => r in s.replies && ReportedStep(cfg.prims, s.db, cfg.agentId, r, to)
    case Foreign(agentId, to, actor, r, now) => agentId != cfg.agentId && ReportedStep(cfg.prims, s.db, agentId, r, to)
    case Local(local) => local.Deliver? ==>
      Signing.Encodable(local.cmd) && Unforgeable(cfg, s.db, local.cmd) && CollisionFree(cfg, s.db, local.cmd)
    case Backpressure(cmd) => true
  }

  function OrSame(t: Option<Tables>, db: Tables): Tables {
    if t.Some? then t.value else db
  }

  function Next(cfg: Executor.Config, s: System, e: Event): System {
    match e
    case Create(b) => if |b.agentIds| == |b.ids| then s.(db := BatchOf(s.db, b, |b.ids|)) else s
    case Move(id, to, actor, reason, code, data, now) =>
      s.(db := OrSame(Transition(cfg.prims, s.db, id, to, actor, reason, code, data, now), s.db))
    case Advance(to, actor, r, now) => s.(db := OrSame(PanelResults.Step(cfg.prims, s.db, to, actor, r, now), s.db))
    case Foreign(_, to, actor, r, now) => s.(db := OrSame(PanelResults.Step(cfg.prims, s.db, to, actor, r, now), s.db))
    case Local(local) =>
      var (agent, answer) := ExecutorRuns.Next(cfg, s.agent, local);
      s.(agent := agent, replies := s.replies + if answer.Some? then {answer.value} else {})
    case Backpressure(cmd) => s.(replies := s.replies + {Executor.FailedResult(cmd, "command_backpressure")})
  }

  function After(cfg: Executor.Config, s: System, events: seq<Event>): System
    decreases |events|
  {
    if events == [] then s else After(cfg, Next(cfg, s, events[0]), events[1..])
  }

  ghost predicate AllPossible(cfg: Executor.Config, s: System, events: seq<Event>)
    decreases |events|
  {
    events == [] || (Possible(cfg, s, events[0]) && AllPossible(cfg, Next(cfg, s, events[0]), events[1..]))
  }

  function Initial(handlers: set<Octets>): System {
    System(Tables([], []), ExecutorRuns.Installed(handlers), {})
  }

  // ---------- the invariant ----------

  /** The k-th handler run of the agent ended in this verdict for this identifier and sequence. */
  ghost predicate RunProves(cfg: Executor.Config, runs: seq<Executor.Run>, k: nat, id: Octets, sequence: nat,
                            code: string, data: Octets) {
    && k < |runs| && runs[k].cmd.commandId == id && runs[k].cmd.sequence == sequence
    && Executor.Conclude(runs[k].run, cfg.prims) == Executor.Verdict(ResultState.Succeeded, code, data)
  }

  ghost predicate ResultProved(cfg: Executor.Config, runs: seq<Executor.Run>, r: CommandResult) {
    r.state == ResultState.Succeeded ==>
      r.data != [] && exists k: nat :: RunProves(cfg, runs, k, r.commandId, r.sequence, r.code, r.data)
  }

  ghost predicate RowProved(cfg: Executor.Config, runs: seq<Executor.Run>, row: Row) {
    row.command.agentId == cfg.agentId && row.state == State.Succeeded ==>
      exists k: nat :: RunProves(cfg, runs, k, row.command.commandId, row.command.sequence, row.code, row.data)
                  && runs[k].cmd == row.command.(signature := runs[k].cmd.signature)
  }

  /** The command being executed, every command executed before and every record stem from Panel rows. */
  ghost predicate AllGenuine(cfg: Executor.Config, db: Tables, a: Executor.Agent) {
    && (!a.phase.Idle? ==> Genuine(db, a.phase.cmd))
    && (forall k :: 0 <= k < |a.calls| ==> Genuine(db, a.calls[k]) && Executor.Authentic(cfg, a.calls[k]))
    && (forall k :: 0 <= k < |a.runs| ==> Genuine(db, a.runs[k].cmd))
    && (forall d :: d in a.image.records || d in a.disk.records ==> GenuineRecord(cfg, db, d))
  }

  ghost predicate GenuineRecord(cfg: Executor.Config, db: Tables, d: Executor.Record) {
    exists i :: 0 <= i < |db.rows| && db.rows[i].command.commandId == d.commandId
        && db.rows[i].command.sequence == d.sequence
                && Executor.Digest(cfg, db.rows[i].command) == d.digest
  }

  ghost predicate AgentProved(cfg: Executor.Config, a: Executor.Agent) {
    forall d :: d in a.image.records || d in a.disk.records ==> ResultProved(cfg, a.runs, d.result)
  }

  ghost predicate RepliesProved(cfg: Executor.Config, s: System) {
    forall r :: r in s.replies ==> ResultProved(cfg, s.agent.runs, r)
  }

  ghost predicate RowsProved(cfg: Executor.Config, s: System) {
    forall i :: 0 <= i < |s.db.rows| ==> RowProved(cfg, s.agent.runs, s.db.rows[i])
  }

  ghost predicate Inv(cfg: Executor.Config, s: System) {
    && DbInv(s.db) && AllEncodable(s.db.rows)
    && Executor.AgentInv(cfg, s.agent)
    && AllGenuine(cfg, s.db, s.agent)
    && AgentProved(cfg, s.agent) && RepliesProved(cfg, s) && RowsProved(cfg, s)
  }

  // ---------- what a verified command is ----------

  lemma SignatureIsNotSigned(cmd: Command, signature: Octets, sha256: Octets -> Octets)
    ensures Signing.SigningBytes(cmd, sha256) == Signing.SigningBytes(cmd.(signature := signature), sha256)
  {
    hide Signing.Concat;
  }

  /** A delivered command that verifies is, field for field, a command some row holds. */
  lemma VerifiedIsGenuine(cfg: Executor.Config, db: Tables, cmd: Command)
    requires FixedWidth(cfg.prims.sha256) && AllEncodable(db.rows) && Signing.Encodable(cmd)
    requires Unforgeable(cfg, db, cmd) && CollisionFree(cfg, db, cmd)
    requires cfg.prims.verify(Signing.SigningBytes(cmd, cfg.prims.sha256), cmd.signature)
    ensures Genuine(db, cmd)
  {
    hide Signing.SigningBytes;
    var i :| 0 <= i < |db.rows|
        && Signing.SigningBytes(db.rows[i].command, cfg.prims.sha256) == Signing.SigningBytes(cmd, cfg.prims.sha256);
    Signing.SigningBytesInjective(cmd, db.rows[i].command, cfg.prims.sha256);
  }

  lemma GenuineGivesRecord(cfg: Executor.Config, db: Tables, cmd: Command)
    requires Genuine(db, cmd)
    ensures GenuineRecord(cfg, db, Executor.AcceptedRecord(cfg, cmd))
  {
    hide Signing.SigningBytes;
    var i :| 0 <= i < |db.rows| && db.rows[i].command.(signature := cmd.signature) == cmd;
    SignatureIsNotSigned(db.rows[i].command, cmd.signature, cfg.prims.sha256);
    assert Executor.Digest(cfg, db.rows[i].command) == Executor.Digest(cfg, cmd);
  }

  // ---------- Panel steps ----------

  /** The rows of db' continue those of db: same commands, ends stay ends, no new success for this agent
      unless it is proved. */
  ghost predicate Continues(cfg: Executor.Config, runs: seq<Executor.Run>, db: Tables, db': Tables) {
    && |db.rows| <= |db'.rows|
    && (forall i :: 0 <= i < |db.rows| ==> db'.rows[i].command == db.rows[i].command)
    && (forall i :: 0 <= i < |db'.rows| ==> RowProved(cfg, runs, db'.rows[i]))
  }

  lemma GenuineStays(db: Tables, db': Tables, cmd: Command)
    requires |db.rows| <= |db'.rows| && forall i :: 0 <= i < |db.rows| ==> db'.rows[i].command == db.rows[i].command
    requires Genuine(db, cmd)
    ensures Genuine(db', cmd)
  {
    var i :| 0 <= i < |db.rows| && db.rows[i].command.(signature := cmd.signature) == cmd;
    assert db'.rows[i].command.(signature := cmd.signature) == cmd;
  }

  lemma GenuineRecordStays(cfg: Executor.Config, db: Tables, db': Tables, d: Executor.Record)
    requires |db.rows| <= |db'.rows| && forall i :: 0 <= i < |db.rows| ==> db'.rows[i].command == db.rows[i].command
    requires GenuineRecord(cfg, db, d)
    ensures GenuineRecord(cfg, db', d)
  {
    hide Executor.Digest;
    var i :| 0 <= i < |db.rows| && db.rows[i].command.commandId == d.commandId
        && db.rows[i].command.sequence == d.sequence
             && Executor.Digest(cfg, db.rows[i].command) == d.digest;
    assert db'.rows[i].command == db.rows[i].command;
  }

  lemma PanelStepKeepsInv(cfg: Executor.Config, s: System, db': Tables)
    requires Inv(cfg, s) && DbInv(db') && AllEncodable(db'.rows) && Continues(cfg, s.agent.runs, s.db, db')
    ensures Inv(cfg, s.(db := db'))
  {
    hide DbInv, Executor.AgentInv, RowProved, ResultProved, Executor.Authentic, Genuine, GenuineRecord, AllEncodable;
    var a := s.agent;
    if !a.phase.Idle? { GenuineStays(s.db, db', a.phase.cmd); }
    forall k | 0 <= k < |a.calls| ensures Genuine(db', a.calls[k]) { GenuineStays(s.db, db', a.calls[k]); }
    forall k | 0 <= k < |a.runs| ensures Genuine(db', a.runs[k].cmd) { GenuineStays(s.db, db', a.runs[k].cmd); }
    forall d | d in a.image.records || d in a.disk.records ensures GenuineRecord(cfg, db', d) {
      GenuineRecordStays(cfg, s.db, db', d);
    }
  }

  /** A transition changes one row, which was not at an end. */
  lemma TransitionRows(prims: Primitives, db: Tables, id: Octets, to: State, actor: Actor, reason: string, code: string,
                       data: Octets, now: int)
    requires Transition(prims, db, id, to, actor, reason, code, data, now).Some?
    ensures var i, db' := FindRow(db.rows, id), Transition(prims, db, id, to, actor, reason, code, data, now).value;
            && i < |db.rows| && AllowedTransition(db.rows[i].state, to) && db.rows[i].command.commandId == id
            && db'.rows == db.rows[i := Moved(db.rows[i], to, now, code, OrEmptyObject(data))]
  {
  }

  lemma MoveKeepsInv(cfg: Executor.Config, s: System, id: Octets, to: State, actor: Actor, reason: string, code: string,
                     data: Octets, now: int)
    requires Inv(cfg, s) && to != State.Succeeded
    requires Transition(cfg.prims, s.db, id, to, actor, reason, code, data, now).Some?
    ensures Inv(cfg, s.(db := Transition(cfg.prims, s.db, id, to, actor, reason, code, data, now).value))
  {
    hide DbInv, Transition, FindRow, Inv;
    assert DbInv(s.db) && RowsProved(cfg, s) && AllEncodable(s.db.rows) by { InvParts(cfg, s); }
    var db' := Transition(cfg.prims, s.db, id, to, actor, reason, code, data, now).value;
    TransitionKeepsInv(cfg.prims, s.db, id, to, actor, reason, code, data, now);
    TransitionRows(cfg.prims, s.db, id, to, actor, reason, code, data, now);
    assert Continues(cfg, s.agent.runs, s.db, db') by { hide RunProves; }
    PanelStepKeepsInv(cfg, s, db');
  }

  lemma InvParts(cfg: Executor.Config, s: System)
    requires Inv(cfg, s)
    ensures DbInv(s.db) && AllEncodable(s.db.rows) && RowsProved(cfg, s) && RepliesProved(cfg, s)
    ensures Executor.AgentInv(cfg, s.agent) && AllGenuine(cfg, s.db, s.agent) && AgentProved(cfg, s.agent)
    ensures forall d :: d in s.agent.image.records ==> Executor.RecordOk(d)
  {
  }

  /** A success recorded for a result of this agent is the outcome of a run of that very command. */
  lemma ReportProvesRow(cfg: Executor.Config, s: System, i: nat, r: CommandResult, row': Row)
    requires Inv(cfg, s) && i < |s.db.rows| && r in s.replies && r.state == ResultState.Succeeded
    requires s.db.rows[i].command.commandId == r.commandId && s.db.rows[i].command.sequence == r.sequence
    requires row'.command == s.db.rows[i].command && row'.code == r.code && row'.data == OrEmptyObject(r.data)
    ensures RowProved(cfg, s.agent.runs, row')
  {
    InvParts(cfg, s);
    hide Inv, Executor.AgentInv, AllEncodable, RowsProved, AgentProved, Executor.Conclude, Executor.Authentic;
    assert ResultProved(cfg, s.agent.runs, r);
    var k: nat :| RunProves(cfg, s.agent.runs, k, r.commandId, r.sequence, r.code, r.data);
    var cmd := s.agent.runs[k].cmd;
    assert Genuine(s.db, cmd);
    var j :| 0 <= j < |s.db.rows| && s.db.rows[j].command.(signature := cmd.signature) == cmd;
    FindRowOfRow(s.db.rows, i);
    FindRowOfRow(s.db.rows, j);
    assert j == i;
  }

  lemma ReportedRows(prims: Primitives, db: Tables, to: State, actor: Actor, r: CommandResult, now: int)
    requires PanelResults.Step(prims, db, to, actor, r, now).Some?
    ensures var i, db' := FindRow(db.rows, r.commandId), PanelResults.Step(prims, db, to, actor, r, now).value;
            && i < |db.rows| && AllowedTransition(db.rows[i].state, to) && db.rows[i].command.commandId == r.commandId
            && |db'.rows| == |db.rows| && (forall k :: 0 <= k < |db.rows| && k != i ==> db'.rows[k] == db.rows[k])
            && db'.rows[i].command == db.rows[i].command && db'.rows[i].state == to
            && (HasResult(to) ==> db'.rows[i].code == r.code && db'.rows[i].data == OrEmptyObject(r.data))
  {
    hide FindRow;
  }

  lemma ReportedStepKeepsInv(cfg: Executor.Config, s: System, agentId: Octets, to: State, actor: Actor,
                             r: CommandResult, now: int)
    requires Inv(cfg, s) && ReportedStep(cfg.prims, s.db, agentId, r, to)
    requires agentId == cfg.agentId ==> r in s.replies
    requires PanelResults.Step(cfg.prims, s.db, to, actor, r, now).Some?
    ensures Inv(cfg, s.(db := PanelResults.Step(cfg.prims, s.db, to, actor, r, now).value))
  {
    hide Inv, DbInv, PanelResults.Step, FindRow, RunProves, Executor.AgentInv, AllGenuine, AgentProved, RepliesProved,
         Signing.Encodable;
    InvParts(cfg, s);
    StepKeepsInv(cfg.prims, s.db, to, actor, r, now);
    ReportedRows(cfg.prims, s.db, to, actor, r, now);
    var db' := PanelResults.Step(cfg.prims, s.db, to, actor, r, now).value;
    var i := FindRow(s.db.rows, r.commandId);
    if to == State.Succeeded && agentId == cfg.agentId {
      ReportProvesRow(cfg, s, i, r, db'.rows[i]);
    }
    assert RowProved(cfg, s.agent.runs, db'.rows[i]);
    hide RowProved;
    assert Continues(cfg, s.agent.runs, s.db, db');
    PanelStepKeepsInv(cfg, s, db');
  }

  lemma {:induction false} BatchContinues(cfg: Executor.Config, s: System, b: Batch, n: nat)
    requires Inv(cfg, s) && n <= |b.agentIds| == |b.ids| && Distinct(b.ids)
    requires forall k :: 0 <= k < n ==> b.ids[k] != [] && FindRow(s.db.rows, b.ids[k]) == |s.db.rows|
    ensures var db' := BatchOf(s.db, b, n);
            && DbInv(db') && |db'.rows| == |s.db.rows| + n
            && (forall i :: 0 <= i < |s.db.rows| ==> db'.rows[i] == s.db.rows[i])
            && (forall i :: |s.db.rows| <= i < |db'.rows| ==>
                  db'.rows[i].state == State.Queued && db'.rows[i].command.commandId == b.ids[i - |s.db.rows|])
  {
    hide Inv, DbInv, BatchOf, BatchRowAt, MaxSequence, FindRow, Created;
    if n == 0 {
      BatchStart(s.db, b);
      InvParts(cfg, s);
    } else {
      BatchContinues(cfg, s, b, n - 1);
      var front := BatchOf(s.db, b, n - 1);
      BatchStep(s.db, b, n - 1);
      BatchRowFields(front.rows, b, n - 1);
      BatchRowQueued(front.rows, b, n - 1);
      var added := front.rows[|s.db.rows|..];
      assert front.rows == s.db.rows + added;
      KeyFree(s.db.rows, added, b.ids[n - 1]);
      forall k | 0 <= k < |added| ensures added[k].command.commandId != b.ids[n - 1] {
        assert added[k] == front.rows[|s.db.rows| + k];
      }
      CreateKeepsInv(front, BatchRowAt(front.rows, b, n - 1).command, b.actor, b.now);
    }
  }

  lemma BatchRowQueued(front: seq<Row>, b: Batch, k: nat)
    requires k < |b.agentIds| == |b.ids|
    ensures BatchRowAt(front, b, k).state == State.Queued
  {
  }

  lemma CreateBatchKeepsInv(cfg: Executor.Config, s: System, b: Batch)
    requires Inv(cfg, s) && Possible(cfg, s, Create(b))
    ensures Inv(cfg, Next(cfg, s, Create(b)))
  {
    hide Inv, DbInv, BatchOf, RunProves, FindRow, BatchShape, Executor.AgentInv, AllGenuine, AgentProved, RepliesProved,
         Signing.Encodable;
    BatchContinues(cfg, s, b, |b.ids|);
    InvParts(cfg, s);
    var db' := BatchOf(s.db, b, |b.ids|);
    forall i | 0 <= i < |db'.rows| ensures RowProved(cfg, s.agent.runs, db'.rows[i]) {
      assert i < |s.db.rows| ==> db'.rows[i] == s.db.rows[i];
    }
    hide RowProved;
    assert Continues(cfg, s.agent.runs, s.db, db');
    PanelStepKeepsInv(cfg, s, db');
  }

  // ---------- agent steps ----------

  lemma ProofStays(cfg: Executor.Config, runs: seq<Executor.Run>, run: Executor.Run, r: CommandResult)
    requires ResultProved(cfg, runs, r)
    ensures ResultProved(cfg, runs + [run], r)
  {
    if r.state == ResultState.Succeeded {
      var k: nat :| RunProves(cfg, runs, k, r.commandId, r.sequence, r.code, r.data);
      assert RunProves(cfg, runs + [run], k, r.commandId, r.sequence, r.code, r.data);
    }
  }

  lemma RowProofStays(cfg: Executor.Config, runs: seq<Executor.Run>, run: Executor.Run, row: Row)
    requires RowProved(cfg, runs, row)
    ensures RowProved(cfg, runs + [run], row)
  {
    if row.command.agentId == cfg.agentId && row.state == State.Succeeded {
      var k: nat :| RunProves(cfg, runs, k, row.command.commandId, row.command.sequence, row.code, row.data)
                    && runs[k].cmd == row.command.(signature := runs[k].cmd.signature);
      assert RunProves(cfg, runs + [run], k, row.command.commandId, row.command.sequence, row.code, row.data);
    }
  }

  /** Memory and disk of a' hold nothing but old records and one new one. */
  ghost predicate RecordsFrom(a: Executor.Agent, a': Executor.Agent, d': Executor.Record) {
    forall d :: d in a'.image.records || d in a'.disk.records ==> d in a.image.records || d in a.disk.records || d == d'
  }

  ghost predicate CallsFrom(cfg: Executor.Config, a: Executor.Agent, a': Executor.Agent) {
    a'.calls == a.calls
        || (!a.phase.Idle? && Executor.Authentic(cfg, a.phase.cmd) && a'.calls == a.calls + [a.phase.cmd])
  }

  ghost predicate RunsFrom(a: Executor.Agent, a': Executor.Agent) {
    a'.runs == a.runs || (!a.phase.Idle? && exists run :: a'.runs == a.runs + [Executor.Run(a.phase.cmd, run)])
  }

  lemma StepStaysGenuine(cfg: Executor.Config, db: Tables, a: Executor.Agent, a': Executor.Agent, d': Executor.Record)
    requires AllGenuine(cfg, db, a) && RecordsFrom(a, a', d') && CallsFrom(cfg, a, a') && RunsFrom(a, a')
    requires GenuineRecord(cfg, db, d') && (!a'.phase.Idle? ==> Genuine(db, a'.phase.cmd))
    ensures AllGenuine(cfg, db, a')
  {
    hide GenuineRecord, Genuine, Executor.Authentic;
  }

  lemma StepStaysProved(cfg: Executor.Config, s: System, a': Executor.Agent)
    requires RepliesProved(cfg, s) && RowsProved(cfg, s) && AgentProved(cfg, s.agent) && RunsFrom(s.agent, a')
    ensures RepliesProved(cfg, System(s.db, a', s.replies)) && RowsProved(cfg, System(s.db, a', s.replies))
    ensures forall d :: d in s.agent.image.records || d in s.agent.disk.records ==> ResultProved(cfg, a'.runs, d.result)
  {
    hide ResultProved, RowProved;
    if a'.runs != s.agent.runs {
      var run :| a'.runs == s.agent.runs + [Executor.Run(s.agent.phase.cmd, run)];
      var entry := Executor.Run(s.agent.phase.cmd, run);
      forall d | d in s.agent.image.records || d in s.agent.disk.records ensures ResultProved(cfg, a'.runs, d.result) {
        ProofStays(cfg, s.agent.runs, entry, d.result);
      }
      forall r | r in s.replies ensures ResultProved(cfg, a'.runs, r) { ProofStays(cfg, s.agent.runs, entry, r); }
      forall i | 0 <= i < |s.db.rows|
        ensures RowProved(cfg, a'.runs, s.db.rows[i]) { RowProofStays(cfg, s.agent.runs, entry, s.db.rows[i]); }
    }
  }

  lemma AgentStepKeepsInv(cfg: Executor.Config, s: System, a': Executor.Agent, d': Executor.Record,
                          replies: set<CommandResult>)
    requires Inv(cfg, s) && Executor.AgentInv(cfg, a') && RecordsFrom(s.agent, a', d')
    requires GenuineRecord(cfg, s.db, d') && ResultProved(cfg, a'.runs, d'.result)
    requires !a'.phase.Idle? ==> Genuine(s.db, a'.phase.cmd)
    requires CallsFrom(cfg, s.agent, a') && RunsFrom(s.agent, a')
    requires forall r :: r in replies ==> ResultProved(cfg, a'.runs, r)
    ensures Inv(cfg, System(s.db, a', s.replies + replies))
  {
    InvParts(cfg, s);
    StepStaysGenuine(cfg, s.db, s.agent, a', d');
    StepStaysProved(cfg, s, a');
    hide Executor.AgentInv, DbInv, AllEncodable, AllGenuine, GenuineRecord, Genuine, ResultProved, RowProved, CallsFrom,
         RunsFrom;
    assert AgentProved(cfg, a');
  }

  lemma DeliverKeepsInv(cfg: Executor.Config, s: System, cmd: Command, now: int, w: Effect)
    requires FixedWidth(cfg.prims.sha256) && Inv(cfg, s) && s.agent.phase.Idle?
    requires Signing.Encodable(cmd) && Unforgeable(cfg, s.db, cmd) && CollisionFree(cfg, s.db, cmd)
    ensures Inv(cfg, Next(cfg, s, Local(ExecutorRuns.Deliver(cmd, now, w))))
  {
    hide Inv, Executor.AgentInv, DbInv, AllEncodable, AllGenuine, AgentProved, RepliesProved, RowsProved,
         Executor.Digest,
         Signing.SigningBytes, Executor.FindRecord, Genuine, GenuineRecord, ResultProved, Signing.Encodable,
         Unforgeable, CollisionFree, FixedWidth;
    var a := s.agent;
    var (a', answer) := Executor.Receive(cfg, a, cmd, now, w);
    InvParts(cfg, s);
    Executor.ReceiveKeepsInv(cfg, a, cmd, now, w);
    AnswerIsProved(cfg, s, cmd, now, w);
    ReceiveShape(cfg, a, cmd, now, w);
    if a' == a {
      assert s.(replies := s.replies + if answer.Some? then {answer.value} else {})
          == Next(cfg, s, Local(ExecutorRuns.Deliver(cmd, now, w)));
      RepliesKeepInv(cfg, s, if answer.Some? then {answer.value} else {});
    } else {
      VerifiedIsGenuine(cfg, s.db, cmd);
      GenuineGivesRecord(cfg, s.db, cmd);
      ReceivedRecords(cfg, a, cmd, now, w);
      AcceptedIsProved(cfg, a'.runs, cmd);
      AgentStepKeepsInv(cfg, s, a', Executor.AcceptedRecord(cfg, cmd), if answer.Some? then {answer.value} else {});
    }
  }

  lemma AcceptedIsProved(cfg: Executor.Config, runs: seq<Executor.Run>, cmd: Command)
    ensures ResultProved(cfg, runs, Executor.AcceptedRecord(cfg, cmd).result)
  {
    hide Executor.Digest;
  }

  lemma RepliesKeepInv(cfg: Executor.Config, s: System, replies: set<CommandResult>)
    requires Inv(cfg, s) && forall r :: r in replies ==> ResultProved(cfg, s.agent.runs, r)
    ensures Inv(cfg, s.(replies := s.replies + replies))
  {
    hide Executor.AgentInv, DbInv, AllEncodable, AllGenuine, AgentProved, ResultProved, RowProved;
  }

  lemma AnswerIsProved(cfg: Executor.Config, s: System, cmd: Command, now: int, w: Effect)
    requires AgentProved(cfg, s.agent) && (forall d :: d in s.agent.image.records ==> Executor.RecordOk(d))
    ensures var answer := Executor.Receive(cfg, s.agent, cmd, now, w).1;
            answer.Some? ==> ResultProved(cfg, s.agent.runs, answer.value)
  {
    hide RunProves, Executor.WithAccepted, Signing.SigningBytes, Executor.Digest;
    var records := s.agent.image.records;
    var i := Executor.FindRecord(records, cmd.commandId);
    hide Executor.FindRecord;
    if i < |records| { assert records[i] in records; }
  }

  lemma ReceiveShape(cfg: Executor.Config, a: Executor.Agent, cmd: Command, now: int, w: Effect)
    requires a.phase.Idle?
    ensures var a' := Executor.Receive(cfg, a, cmd, now, w).0;
            && (a' != a ==> Executor.Authentic(cfg, cmd))
            && CallsFrom(cfg, a, a') && RunsFrom(a, a') && (!a'.phase.Idle? ==> a'.phase.cmd == cmd)
  {
    hide Signing.SigningBytes, Executor.Digest, Executor.FindRecord, Executor.WithAccepted;
  }

  lemma ReceivedRecords(cfg: Executor.Config, a: Executor.Agent, cmd: Command, now: int, w: Effect)
    ensures RecordsFrom(a, Executor.Receive(cfg, a, cmd, now, w).0, Executor.AcceptedRecord(cfg, cmd))
  {
    hide Executor.AcceptedRecord, Executor.Screen;
    var all := a.image.records + [Executor.AcceptedRecord(cfg, cmd)];
    assert forall d :: d in Executor.Newest(all) ==> d in all;
  }

  /** Rewriting a record in place keeps where it came from. */
  lemma RewrittenIsGenuine(cfg: Executor.Config, s: System, index: nat, d': Executor.Record)
    requires Inv(cfg, s) && index < |s.agent.image.records|
    requires var d := s.agent.image.records[index];
             d'.commandId == d.commandId && d'.sequence == d.sequence && d'.digest == d.digest
    ensures GenuineRecord(cfg, s.db, d')
  {
    InvParts(cfg, s);
    hide Inv, Executor.AgentInv, Executor.Digest, DbInv, AllEncodable, RowsProved, RepliesProved, AgentProved;
    var d := s.agent.image.records[index];
    assert d in s.agent.image.records;
    assert GenuineRecord(cfg, s.db, d);
  }

  lemma StartedRecords(cfg: Executor.Config, a: Executor.Agent, w: Effect)
    requires a.phase.Admitted? && a.phase.index < |a.image.records|
    ensures var a', d' := Executor.Start(a, w).0, Executor.MarkRunning(a.image, a.phase.index).records[a.phase.index];
            RecordsFrom(a, a', d') && ResultProved(cfg, a'.runs, d'.result)
  {
  }

  lemma ConcludedRecords(cfg: Executor.Config, a: Executor.Agent, run: Executor.HandlerRun, w: Effect)
    requires a.phase.InHandler? && a.phase.index < |a.image.records|
    ensures var d' := Executor.Concluded(a.image, a.phase.index, a.phase.cmd,
                               Executor.Conclude(run, cfg.prims)).records[a.phase.index];
            RecordsFrom(a, Executor.Complete(cfg, a, run, w).0, d')
  {
    hide Executor.Conclude;
  }

  lemma CallFacts(cfg: Executor.Config, s: System, w: Effect)
    requires Inv(cfg, s) && s.agent.phase.Admitted?
    ensures var a := s.agent;
            && a.phase.index < |a.image.records|
            && var (a', answer) := Executor.Start(a, w);
               && Executor.AgentInv(cfg, a') && CallsFrom(cfg, a, a') && RunsFrom(a, a')
               && (!a'.phase.Idle? ==> Genuine(s.db, a'.phase.cmd))
               && (answer.Some? ==> ResultProved(cfg, a'.runs, answer.value))
  {
    var a := s.agent;
    InvParts(cfg, s);
    assert a.phase.index < |a.image.records| && Executor.Authentic(cfg, a.phase.cmd) && Genuine(s.db, a.phase.cmd);
    hide Inv, Executor.AgentInv, DbInv, AllEncodable, AllGenuine, AgentProved, RepliesProved, RowsProved,
         Executor.Digest,
         Executor.Authentic, Genuine, Executor.PhaseOk, Executor.MarkRunning;
    Executor.StartKeepsInv(cfg, a, w);
  }

  lemma CallKeepsInv(cfg: Executor.Config, s: System, w: Effect)
    requires Inv(cfg, s) && s.agent.phase.Admitted?
    ensures Inv(cfg, Next(cfg, s, Local(ExecutorRuns.Call(w))))
  {
    hide Inv, Executor.AgentInv, Genuine, GenuineRecord, RecordsFrom, CallsFrom, RunsFrom, ResultProved;
    var a := s.agent;
    CallFacts(cfg, s, w);
    StartedRecords(cfg, a, w);
    var (a', answer) := Executor.Start(a, w);
    var d' := Executor.MarkRunning(a.image, a.phase.index).records[a.phase.index];
    RewrittenIsGenuine(cfg, s, a.phase.index, d');
    AgentStepKeepsInv(cfg, s, a', d', if answer.Some? then {answer.value} else {});
  }

  lemma ReturnFacts(cfg: Executor.Config, s: System, run: Executor.HandlerRun, w: Effect)
    requires Inv(cfg, s) && s.agent.phase.InHandler?
    ensures var a := s.agent;
            && a.phase.index < |a.image.records| && Executor.Holds(cfg, a.image, a.phase.cmd, a.phase.index)
            && var (a', answer) := Executor.Complete(cfg, a, run, w);
               && Executor.AgentInv(cfg, a') && CallsFrom(cfg, a, a') && RunsFrom(a, a') && a'.phase.Idle?
               && ResultProved(cfg, a'.runs, answer)
  {
    var a := s.agent;
    InvParts(cfg, s);
    assert a.phase.index < |a.image.records| && Executor.Holds(cfg, a.image, a.phase.cmd, a.phase.index);
    hide Inv, Executor.AgentInv, DbInv, AllEncodable, AllGenuine, AgentProved, RepliesProved, RowsProved,
         Executor.Digest,
         Executor.Authentic, Genuine, Executor.PhaseOk, Executor.Conclude, ResultProved;
    Executor.CompleteKeepsInv(cfg, a, run, w);
    var a' := Executor.Complete(cfg, a, run, w).0;
    assert a'.runs == a.runs + [Executor.Run(a.phase.cmd, run)];
    FailureIsProved(cfg, a'.runs, a.phase.cmd, "state_write_failed");
    ReturnedIsProved(cfg, a, run,
      Executor.Concluded(a.image, a.phase.index, a.phase.cmd,
                         Executor.Conclude(run, cfg.prims)).records[a.phase.index].result);
  }

  lemma ReturnKeepsInv(cfg: Executor.Config, s: System, run: Executor.HandlerRun, w: Effect)
    requires Inv(cfg, s) && s.agent.phase.InHandler?
    ensures Inv(cfg, Next(cfg, s, Local(ExecutorRuns.Return(run, w))))
  {
    hide Inv, Executor.AgentInv, Genuine, GenuineRecord, RecordsFrom, CallsFrom, RunsFrom, ResultProved,
         Executor.Conclude, Executor.Digest;
    var a := s.agent;
    ReturnFacts(cfg, s, run, w);
    ConcludedRecords(cfg, a, run, w);
    var (a', answer) := Executor.Complete(cfg, a, run, w);
    var v := Executor.Conclude(run, cfg.prims);
    var d' := Executor.Concluded(a.image, a.phase.index, a.phase.cmd, v).records[a.phase.index];
    RewrittenIsGenuine(cfg, s, a.phase.index, d');
    ReturnedIsProved(cfg, a, run, d'.result);
    AgentStepKeepsInv(cfg, s, a', d', {answer});
  }

  lemma FailureIsProved(cfg: Executor.Config, runs: seq<Executor.Run>, cmd: Command, code: string)
    ensures ResultProved(cfg, runs, Executor.FailedResult(cmd, code))
  {
  }

  lemma ReturnedIsProved(cfg: Executor.Config, a: Executor.Agent, run: Executor.HandlerRun, r: CommandResult)
    requires a.phase.InHandler? && a.phase.index < |a.image.records|
    requires r
             == Executor.Concluded(a.image, a.phase.index, a.phase.cmd,
                                   Executor.Conclude(run, cfg.prims)).records[a.phase.index].result
    ensures ResultProved(cfg, a.runs + [Executor.Run(a.phase.cmd, run)], r)
  {
    if r.state == ResultState.Succeeded {
      assert RunProves(cfg, a.runs + [Executor.Run(a.phase.cmd, run)], |a.runs|, r.commandId, r.sequence, r.code,
                       r.data);
    }
  }

  lemma CrashKeepsInv(cfg: Executor.Config, s: System, handlers: set<Octets>)
    requires Inv(cfg, s)
    ensures Inv(cfg, Next(cfg, s, Local(ExecutorRuns.Crash(handlers))))
  {
    Executor.RestartKeepsInv(cfg, s.agent, handlers);
    hide Executor.AgentInv, DbInv, AllEncodable, GenuineRecord, Genuine, RunProves, Executor.Authentic;
  }

  lemma BackpressureKeepsInv(cfg: Executor.Config, s: System, cmd: Command)
    requires Inv(cfg, s)
    ensures Inv(cfg, Next(cfg, s, Backpressure(cmd)))
  {
    FailureIsProved(cfg, s.agent.runs, cmd, "command_backpressure");
    hide Executor.AgentInv, DbInv, AllEncodable, GenuineRecord, Genuine, ResultProved, Executor.FailedResult, RowProved,
         Executor.Authentic;
  }

  // ---------- every run ----------

  lemma NextKeepsInv(cfg: Executor.Config, s: System, e: Event)
    requires FixedWidth(cfg.prims.sha256) && Inv(cfg, s) && Possible(cfg, s, e)
    ensures Inv(cfg, Next(cfg, s, e))
  {
    match e
    case Create(b) => CreateBatchKeepsInv(cfg, s, b);
    case Move(id, to, actor, reason, code, data, now) =>
      hide Inv, Transition;
      if Transition(cfg.prims, s.db, id, to, actor, reason, code, data, now).Some? {
        MoveKeepsInv(cfg, s, id, to, actor, reason, code, data, now);
      }
    case Advance(to, actor, r, now) =>
      hide Inv, PanelResults.Step;
      if PanelResults.Step(cfg.prims, s.db, to, actor, r, now).Some? {
        ReportedStepKeepsInv(cfg, s, cfg.agentId, to, actor, r, now);
      }
    case Foreign(agentId, to, actor, r, now) =>
      hide Inv, PanelResults.Step;
      if PanelResults.Step(cfg.prims, s.db, to, actor, r, now).Some? {
        ReportedStepKeepsInv(cfg, s, agentId, to, actor, r, now);
      }
    case Local(local) => LocalKeepsInv(cfg, s, local);
    case Backpressure(cmd) => BackpressureKeepsInv(cfg, s, cmd);
  }

  lemma LocalKeepsInv(cfg: Executor.Config, s: System, e: ExecutorRuns.Event)
    requires FixedWidth(cfg.prims.sha256) && Inv(cfg, s) && Possible(cfg, s, Local(e))
    ensures Inv(cfg, Next(cfg, s, Local(e)))
  {
    hide Inv;
    match e
    case Deliver(cmd, now, w) =>
      if s.agent.phase.Idle? {
        DeliverKeepsInv(cfg, s, cmd, now, w);
      } else {
        SameSystem(cfg, s, e);
      }
    case Call(w) =>
      if s.agent.phase.Admitted? {
        CallKeepsInv(cfg, s, w);
      } else {
        SameSystem(cfg, s, e);
      }
    case Return(run, w) =>
      if s.agent.phase.InHandler? {
        ReturnKeepsInv(cfg, s, run, w);
      } else {
        SameSystem(cfg, s, e);
      }
    case Crash(handlers) => CrashKeepsInv(cfg, s, handlers);
  }

  /** An event that does not fit the agent's phase changes nothing. */
  lemma SameSystem(cfg: Executor.Config, s: System, e: ExecutorRuns.Event)
    requires (e.Deliver? && !s.agent.phase.Idle?) || (e.Call? && !s.agent.phase.Admitted?)
             || (e.Return? && !s.agent.phase.InHandler?)
    ensures Next(cfg, s, Local(e)) == s
  {
    assert s.replies + {} == s.replies;
  }

  lemma {:induction false} InvFrom(cfg: Executor.Config, s: System, events: seq<Event>)
    requires FixedWidth(cfg.prims.sha256) && Inv(cfg, s) && AllPossible(cfg, s, events)
    ensures Inv(cfg, After(cfg, s, events))
    decreases |events|
  {
    if events != [] {
      hide Inv, Possible, Next;
      NextKeepsInv(cfg, s, events[0]);
      InvFrom(cfg, Next(cfg, s, events[0]), events[1..]);
    }
  }

  lemma InitialInv(cfg: Executor.Config, handlers: set<Octets>)
    ensures Inv(cfg, Initial(handlers))
  {
  }

  /** End-to-end agreement: whatever is lost, repeated, reordered, forged, expired or crashes, a row of this agent
      says succeeded with (code, data) only if the agent's handler ran for that very command (equal in every
      signed field) and returned an outcome that was neither failed nor pending and reads (code, data). */
  lemma Agreement(cfg: Executor.Config, handlers: set<Octets>, events: seq<Event>, i: nat)
    requires FixedWidth(cfg.prims.sha256) && AllPossible(cfg, Initial(handlers), events)
    requires var s := After(cfg, Initial(handlers), events);
             i < |s.db.rows| && s.db.rows[i].command.agentId == cfg.agentId && s.db.rows[i].state == State.Succeeded
    ensures var s := After(cfg, Initial(handlers), events);
            var row := s.db.rows[i];
            exists k :: 0 <= k < |s.agent.runs| && HandledAs(s.agent.runs[k], row)
  {
    InitialInv(cfg, handlers);
    InvFrom(cfg, Initial(handlers), events);
    var s := After(cfg, Initial(handlers), events);
    InvParts(cfg, s);
    hide Inv, After, AllPossible, Executor.Conclude;
    assert RowProved(cfg, s.agent.runs, s.db.rows[i]);
    var row := s.db.rows[i];
    var k: nat :| RunProves(cfg, s.agent.runs, k, row.command.commandId, row.command.sequence, row.code, row.data)
                  && s.agent.runs[k].cmd == row.command.(signature := s.agent.runs[k].cmd.signature);
    assert HandledAs(s.agent.runs[k], row);
  }

  /** The handler ran for the row's command and its plain outcome is the row's result. */
  ghost predicate HandledAs(run: Executor.Run, row: Row) {
    && run.cmd == row.command.(signature := run.cmd.signature)
    && run.run.Returned? && !run.run.outcome.failed && !run.run.outcome.pending
    && row.code == (if run.run.outcome.code == "" then "succeeded" else run.run.outcome.code)
    && row.data == (if run.run.outcome.data == [] then EMPTY_OBJECT else run.run.outcome.data)
  }

  /** In every run each row's log is a path of allowed transitions from its creation to its state, with at most five
      entries and at most one attempt, and the sequences of each agent are exactly 1 to its largest. */
  lemma LogsAndSequences(cfg: Executor.Config, handlers: set<Octets>, events: seq<Event>, i: nat, sequence: nat)
    requires FixedWidth(cfg.prims.sha256) && AllPossible(cfg, Initial(handlers), events)
    requires i < |After(cfg, Initial(handlers), events).db.rows|
    ensures var db := After(cfg, Initial(handlers), events).db; var row := db.rows[i];
            var es := EventsOf(db.events, row.command.commandId);
            && Path(es) && 1 <= |es| <= 5 && es[|es| - 1].to == row.state && row.attempts <= 1 && StampsMatch(row, es)
            && (1 <= sequence <= MaxSequence(db.rows, row.command.agentId) <==>
                  HasSequence(db.rows, row.command.agentId, sequence))
            && (forall j :: 0 <= j < |db.rows| && j != i && db.rows[j].command.agentId == row.command.agentId ==>
                  db.rows[j].command.sequence != row.command.sequence)
  {
    hide Inv, After, AllPossible, EventsOf, Path, StampsMatch, MaxSequence, HasSequence;
    InitialInv(cfg, handlers);
    InvFrom(cfg, Initial(handlers), events);
    var db := After(cfg, Initial(handlers), events).db;
    InvParts(cfg, After(cfg, Initial(handlers), events));
    HistoryIsShort(db, i);
    SequencesExact(db.rows, i, sequence);
  }

  /** No handler is ever called for anything but a command the Panel created for this agent. */
  lemma OnlyPanelCommandsRun(cfg: Executor.Config, handlers: set<Octets>, events: seq<Event>, k: nat)
    requires FixedWidth(cfg.prims.sha256) && AllPossible(cfg, Initial(handlers), events)
    requires k < |After(cfg, Initial(handlers), events).agent.calls|
    ensures var s := After(cfg, Initial(handlers), events);
            Genuine(s.db, s.agent.calls[k]) && s.agent.calls[k].agentId == cfg.agentId
  {
    InitialInv(cfg, handlers);
    InvFrom(cfg, Initial(handlers), events);
    InvParts(cfg, After(cfg, Initial(handlers), events));
    hide Inv, After, AllPossible;
  }

  /** With the Panel's unique identifiers, no verified delivery is ever refused as a mismatching duplicate. */
  lemma NoMismatchEndToEnd(cfg: Executor.Config, s: System, cmd: Command, now: int)
    requires FixedWidth(cfg.prims.sha256) && Inv(cfg, s)
             && Possible(cfg, s, Local(ExecutorRuns.Deliver(cmd, now, Done)))
    ensures Executor.Screen(cfg, s.agent, cmd, now) != Executor.Refuse("duplicate_mismatch")
  {
    hide Inv, Executor.AgentInv, Signing.SigningBytes, Executor.Digest, Signing.Encodable, AllEncodable, AgentProved,
         RowsProved,
         RepliesProved, Unforgeable, CollisionFree, FixedWidth, DbInv, Genuine, GenuineRecord;
    InvParts(cfg, s);
    var records := s.agent.image.records;
    var n := Executor.FindRecord(records, cmd.commandId);
    hide Executor.FindRecord;
    if Executor.Authentic(cfg, cmd) && n < |records| {
      VerifiedIsGenuine(cfg, s.db, cmd);
      assert records[n] in records;
      SameIdSameRecord(cfg, s.db, cmd, records[n]);
    }
  }

  lemma SameIdSameRecord(cfg: Executor.Config, db: Tables, cmd: Command, d: Executor.Record)
    requires DbInv(db) && Genuine(db, cmd) && GenuineRecord(cfg, db, d) && d.commandId == cmd.commandId
    ensures d.sequence == cmd.sequence && d.digest == Executor.Digest(cfg, cmd)
  {
    hide Signing.SigningBytes, HistoriesMatch, Contiguous, NoStrayEvents;
    var i :| 0 <= i < |db.rows| && db.rows[i].command.(signature := cmd.signature) == cmd;
    var j :| 0 <= j < |db.rows| && db.rows[j].command.commandId == d.commandId
        && db.rows[j].command.sequence == d.sequence
             && Executor.Digest(cfg, db.rows[j].command) == d.digest;
    assert i == j;
    SignatureIsNotSigned(db.rows[i].command, cmd.signature, cfg.prims.sha256);
  }

  // ---------- ApplyAgentResult is made of these steps ----------

  lemma {:induction false} FollowIsAdvances(cfg: Executor.Config, s: System, path: seq<State>, actor: Actor,
                                            r: CommandResult, now: int, budget: nat)
      returns (events: seq<Event>)
    requires r in s.replies && PanelResults.WellFormedResult(cfg.prims, r) && Answers(s.db, cfg.agentId, r)
    requires forall k :: 0 <= k < |path| ==>
               path[k] == State.Accepted || path[k] == State.Running || path[k] == PanelResults.AsState(r.state)
    ensures AllPossible(cfg, s, events)
    ensures After(cfg, s, events) == s.(db := PanelResults.Follow(cfg.prims, s.db, path, actor, r, now, budget).0)
    decreases |path|
  {
    hide PanelResults.Step, PanelResults.WellFormedResult, FindRow;
    if path == [] || budget == 0 || PanelResults.Step(cfg.prims, s.db, path[0], actor, r, now).None? {
      events := [];
    } else {
      var e := Advance(path[0], actor, r, now);
      var next := Next(cfg, s, e);
      ReportedRows(cfg.prims, s.db, path[0], actor, r, now);
      PanelResults.SameCommandsSameRow(s.db.rows, next.db.rows, r.commandId);
      var rest := FollowIsAdvances(cfg, next, path[1..], actor, r, now, budget - 1);
      events := [e] + rest;
      assert events[1..] == rest;
    }
  }

  /** A whole call of ApplyAgentResult, complete or cut short, is a run of Advance events of this system. */
  lemma ApplyIsAdvances(cfg: Executor.Config, s: System, users: map<int, Role>, r: CommandResult, now: int, budget: nat)
      returns (events: seq<Event>)
    requires r in s.replies
    ensures AllPossible(cfg, s, events)
    ensures After(cfg, s, events)
            == s.(db := PanelResults.ApplyResult(cfg.prims, users, s.db, cfg.agentId, r, now, budget).0)
  {
    var i := FindRow(s.db.rows, r.commandId);
    hide PanelResults.Follow, FindRow;
    if PanelResults.WellFormedResult(cfg.prims, r) && i < |s.db.rows|
        && PanelResults.Addressed(users, s.db.rows[i], cfg.agentId, r)
       && PanelResults.Delivered(s.db.rows[i].state) {
      events :=
          FollowIsAdvances(cfg, s, PanelResults.TargetPath(s.db.rows[i].state, r.state),
                           PanelResults.Creator(s.db.rows[i]), r, now, budget);
    } else {
      events := [];
    }
  }
}
