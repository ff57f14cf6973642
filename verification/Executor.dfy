/** The agent's durable command executor (internal/agent/commands.go).
    Its three atomic sections (screening and admission, marking as running, recording the outcome) are
    functions on an Agent value, so that a crash can fall between any two of them; class CommandExecutor
    performs them in the source's imperative form and is proved to compose exactly these functions. */
module Executor {
  import opened Bytes
  import opened Protocol
  import opened Wrappers
  import Signing

  const MAX_RECORDS: nat := 256
  const CLOCK_SKEW: int := 60
  const MAX_CODE: nat := 128
  const MAX_DATA: nat := 16384

  datatype Record = Record(commandId: Octets, sequence: nat, digest: Octets, state: ResultState, result: CommandResult)

  /** executorState: what is held in memory and written to commands.json. */
  datatype Image = Image(highestSeen: nat, highestCompleted: nat, records: seq<Record>)

  const EMPTY_IMAGE: Image := Image(0, 0, [])

  datatype Outcome = Outcome(code: string, data: Octets, failed: bool, pending: bool)
  datatype HandlerRun = Returned(outcome: Outcome) | Panicked
  datatype Verdict = Verdict(state: ResultState, code: string, data: Octets)

  /** Where the one executing command stands while the execution mutex is held. */
  datatype Phase = Idle | Admitted(cmd: Command, index: nat) | InHandler(cmd: Command, index: nat)

  /** One handler call that returned (or panicked). */
  datatype Run = Run(cmd: Command, run: HandlerRun)

  /** The process and its file; calls and runs record every handler invocation and every return so far. */
  datatype Agent = Agent(handlers: set<Octets>, image: Image, disk: Image, completed: nat, currentId: Octets,
                         phase: Phase,
                         calls: seq<Command>, runs: seq<Run>)

  datatype Config = Config(agentId: Octets, prims: Primitives)

  predicate Terminal(state: ResultState) {
    state == Succeeded || state == Failed
  }

  /** commandDigest without its hexadecimal spelling. */
  function Digest(cfg: Config, cmd: Command): Octets {
    cfg.prims.sha256(Signing.SigningBytes(cmd, cfg.prims.sha256))
  }

  function FailedResult(cmd: Command, code: string): CommandResult {
    CommandResult(VERSION, RESULT_TYPE, cmd.commandId, cmd.sequence, Failed, code, EMPTY_OBJECT)
  }

  /** Index of the record with this id, or the number of records. */
  function FindRecord(records: seq<Record>, id: Octets): (i: nat)
    ensures i <= |records|
    ensures i < |records| ==> records[i].commandId == id
    ensures forall k :: 0 <= k < i ==> records[k].commandId != id
  {
    if records == [] || records[0].commandId == id then 0
    else
      var rest := FindRecord(records[1..], id);
      assert forall k :: 1 <= k < 1 + rest ==> records[k] == records[1..][k - 1];
      1 + rest
  }

  datatype Decision = Refuse(code: string) | Replay(result: CommandResult) | Resume(index: nat) | Admit

  predicate WellFormed(cfg: Config, cmd: Command) {
    cmd.controlVersion == VERSION && cmd.messageType == COMMAND_TYPE && TTL(cmd.action) > 0
        && cfg.prims.ValidJson(cmd.payload)
  }

  /** A command this agent may listen to at all: well formed, signed by the Panel and addressed to it. */
  predicate Authentic(cfg: Config, cmd: Command) {
    WellFormed(cfg, cmd) && cfg.prims.verify(Signing.SigningBytes(cmd, cfg.prims.sha256), cmd.signature)
        && cmd.agentId == cfg.agentId
  }

  function Screen(cfg: Config, a: Agent, cmd: Command, now: int): Decision {
    if !WellFormed(cfg, cmd) then Refuse("invalid_command")
    else if !cfg.prims.verify(Signing.SigningBytes(cmd, cfg.prims.sha256), cmd.signature) then
        Refuse("invalid_signature")
    else if cmd.agentId != cfg.agentId then Refuse("wrong_agent")
    else
      var i := FindRecord(a.image.records, cmd.commandId);
      if i < |a.image.records| then
        var record := a.image.records[i];
        if record.sequence != cmd.sequence || record.digest != Digest(cfg, cmd) then Refuse("duplicate_mismatch")
        else if Terminal(record.state) then Replay(record.result)
        else Resume(i)
      else if cmd.issuedAt > now + CLOCK_SKEW then Refuse("issued_in_future")
      else if cmd.expiresAt <= now || cmd.expiresAt <= cmd.issuedAt then Refuse("expired")
      else if cmd.sequence <= a.image.highestSeen then Refuse("stale_sequence")
      else if cmd.action !in a.handlers then Refuse("unsupported_action")
      else Admit
  }

  function AcceptedRecord(cfg: Config, cmd: Command): Record {
    Record(cmd.commandId, cmd.sequence, Digest(cfg, cmd), Accepted,
           CommandResult(VERSION, RESULT_TYPE, cmd.commandId, cmd.sequence, Accepted, "accepted", EMPTY_OBJECT))
  }

  /** The newest records that fit; ImageOk makes the source's sort before the cut superfluous. */
  function Newest(records: seq<Record>): (r: seq<Record>)
    ensures |r| <= MAX_RECORDS && (records != [] ==> r != [])
  {
    if |records| <= MAX_RECORDS then records else records[|records| - MAX_RECORDS..]
  }

  function WithAccepted(cfg: Config, image: Image, cmd: Command): Image {
    image.(highestSeen := cmd.sequence, records := Newest(image.records + [AcceptedRecord(cfg, cmd)]))
  }

  /** What commands.json holds after persist(image). */
  function Persisted(w: Effect, image: Image, disk: Image): Image {
    if w.NotDone? then disk else image
  }

  /** Execute up to the point where a record to run is chosen. */
  function Receive(cfg: Config, a: Agent, cmd: Command, now: int, w: Effect): (r: (Agent, Option<CommandResult>))
    ensures r.1.None? ==> r.0.phase.Admitted? && r.0.phase.index < |r.0.image.records|
  {
    match Screen(cfg, a, cmd, now)
    case Refuse(code) => (a, Some(FailedResult(cmd, code)))
    case Replay(result) => (a, Some(result))
    case Resume(index) => (a.(phase := Admitted(cmd, index)), None)
    case Admit =>
      var image := WithAccepted(cfg, a.image, cmd);
      var next := a.(image := image, disk := Persisted(w, image, a.disk));
      if w.Done? then (next.(phase := Admitted(cmd, |image.records| - 1)), None)
      else (next, Some(FailedResult(cmd, "state_write_failed")))
  }

  function MarkRunning(image: Image, index: nat): Image
    requires index < |image.records|
  {
    var r := image.records[index];
    var running := r.result.(state := Running, code := "running");
    image.(records := image.records[index := r.(state := Running, result := running)])
  }

  /** resumeLocked up to the call of the handler. */
  function Start(a: Agent, w: Effect): (r: (Agent, Option<CommandResult>))
    requires a.phase.Admitted? && a.phase.index < |a.image.records|
    ensures r.1.None? ==> r.0.phase.InHandler? && r.0.phase.index < |r.0.image.records|
  {
    var cmd := a.phase.cmd;
    if cmd.action !in a.handlers then (a.(phase := Idle), Some(FailedResult(cmd, "unsupported_action")))
    else
      var image := MarkRunning(a.image, a.phase.index);
      var disk := Persisted(w, image, a.disk);
      if w.Done? then
          (a.(image := image, disk := disk, currentId := cmd.commandId, phase := InHandler(cmd, a.phase.index),
                              calls := a.calls + [cmd]), None)
      else (a.(disk := disk, phase := Idle), Some(FailedResult(cmd, "state_write_failed")))
  }

  function StateName(state: ResultState): string {
    match state
    case Accepted => "accepted"
    case Running => "running"
    case Succeeded => "succeeded"
    case Failed => "failed"
    case Other => ""
  }

  /** How a handler's outcome is cleaned up before it is recorded. */
  function Conclude(run: HandlerRun, prims: Primitives): (v: Verdict)
    ensures v.state == Succeeded <==>
              && run.Returned? && !run.outcome.failed && !run.outcome.pending && |run.outcome.code| <= 128
              && |run.outcome.data| <= 16384 && (run.outcome.data == [] || prims.ValidJson(run.outcome.data))
    ensures v.state == Succeeded ==>
              && v.code == (if run.outcome.code == "" then "succeeded" else run.outcome.code)
              && v.data == (if run.outcome.data == [] then EMPTY_OBJECT else run.outcome.data)
    ensures v.state == Succeeded || v.state == Failed || v.state == Running
    ensures 0 < |v.code| <= MAX_CODE && 0 < |v.data| <= MAX_DATA
    ensures prims.ValidJson(v.data)
  {
    var returned := if run.Panicked? then Outcome("handler_failed", EMPTY_OBJECT, true, false) else run.outcome;
    var o := if returned.pending && returned.failed then Outcome("invalid_handler_result", EMPTY_OBJECT, true, false)
             else returned;
    var state := if o.pending then Running else if o.failed then Failed else Succeeded;
    var code := if o.code == "" then StateName(state) else o.code;
    if |code| > MAX_CODE || |o.data| > MAX_DATA || (|o.data| > 0 && !prims.ValidJson(o.data))
    then Verdict(Failed, "invalid_handler_result", EMPTY_OBJECT)
    else Verdict(state, code, if o.data == [] then EMPTY_OBJECT else o.data)
  }

  /** An outcome within the bounds keeps its code and data and decides the state; one outside them, or one that failed
      and is pending at once, is an invalid result; a panic is a failed handler. */
  lemma ConcludeMeans(run: HandlerRun, prims: Primitives)
    ensures var v := Conclude(run, prims);
            && (run.Panicked? ==> v == Verdict(Failed, "handler_failed", Ascii("{}")))
            && (run.Returned? ==>
                  var o := run.outcome;
                  var valid := && |o.code| <= 128 && |o.data| <= 16384 && (o.data == [] || prims.ValidJson(o.data))
                               && !(o.failed && o.pending);
                  && (valid ==>
                        && v.state == (if o.failed then Failed else if o.pending then Running else Succeeded)
                        && v.code == (if o.code != "" then o.code else if o.failed then "failed"
                                      else if o.pending then "running" else "succeeded")
                        && v.data == (if o.data == [] then Ascii("{}") else o.data))
                  && (!valid ==> v == Verdict(Failed, "invalid_handler_result", Ascii("{}"))))
  {
  }

  function Concluded(image: Image, index: nat, cmd: Command, v: Verdict): Image
    requires index < |image.records|
  {
    var result := CommandResult(VERSION, RESULT_TYPE, cmd.commandId, cmd.sequence, v.state, v.code, v.data);
    Image(image.highestSeen,
          if v.state != Running && cmd.sequence > image.highestCompleted then cmd.sequence else image.highestCompleted,
          image.records[index := image.records[index].(state := v.state, result := result)])
  }

  /** resumeLocked from the handler's return on. */
  function Complete(cfg: Config, a: Agent, run: HandlerRun, w: Effect): (Agent, CommandResult)
    requires a.phase.InHandler? && a.phase.index < |a.image.records|
  {
    var cmd, index := a.phase.cmd, a.phase.index;
    var image := Concluded(a.image, index, cmd, Conclude(run, cfg.prims));
    var next := a.(image := image, disk := Persisted(w, image, a.disk), currentId := [], phase := Idle,
                   runs := a.runs + [Run(cmd, run)]);
    if w.Done? then (next.(completed := image.highestCompleted), image.records[index].result)
    else (next, FailedResult(cmd, "state_write_failed"))
  }

  /** A crash at any moment and the restart after it, with whatever handlers the new process has. */
  function Restart(a: Agent, handlers: set<Octets>): Agent {
    Agent(handlers, a.disk, a.disk, a.disk.highestCompleted, [], Idle, a.calls, a.runs)
  }

  /** Everything one delivery depends on beyond the executor: the clock, the three writes and the handler. */
  datatype Env = Env(now: int, admitWrite: Effect, startWrite: Effect, finishWrite: Effect, run: HandlerRun)

  /** One uninterrupted Execute: the three sections in turn, stopping at the first that answers. */
  function Delivered(cfg: Config, a: Agent, cmd: Command, env: Env): (Agent, CommandResult)
  {
    var (admitted, refusal) := Receive(cfg, a, cmd, env.now, env.admitWrite);
    if refusal.Some? then (admitted, refusal.value) else Resumed(cfg, admitted, env)
  }

  /** The two sections of resumeLocked. */
  function Resumed(cfg: Config, a: Agent, env: Env): (Agent, CommandResult)
    requires a.phase.Admitted? && a.phase.index < |a.image.records|
  {
    var (started, failure) := Start(a, env.startWrite);
    if failure.Some? then (started, failure.value) else Complete(cfg, started, env.run, env.finishWrite)
  }

  // ---------- the inductive invariant ----------

  predicate RecordOk(r: Record) {
    r.result.commandId == r.commandId && r.result.sequence == r.sequence && r.result.state == r.state
        && r.state != Other
  }

  ghost predicate Ascending(records: seq<Record>) {
    forall i, j :: 0 <= i < j < |records| ==> records[i].sequence < records[j].sequence
  }

  ghost predicate DistinctIds(records: seq<Record>) {
    forall i, j :: 0 <= i < j < |records| ==> records[i].commandId != records[j].commandId
  }

  ghost predicate ImageOk(image: Image) {
    && |image.records| <= MAX_RECORDS
    && Ascending(image.records)
    && DistinctIds(image.records)
    && (forall r :: r in image.records ==> RecordOk(r) && r.sequence <= image.highestSeen)
    && image.highestCompleted <= image.highestSeen
  }

  /** A terminal record on disk is never contradicted by a record in memory. */
  ghost predicate DiskAgrees(image: Image, disk: Image) {
    forall d, r :: d in disk.records && r in image.records && Terminal(d.state) && d.sequence == r.sequence ==> r == d
  }

  ghost predicate Holds(cfg: Config, image: Image, cmd: Command, index: nat) {
    && index < |image.records|
    && image.records[index].commandId == cmd.commandId
    && image.records[index].sequence == cmd.sequence
    && image.records[index].digest == Digest(cfg, cmd)
  }

  ghost predicate PhaseOk(cfg: Config, a: Agent) {
    match a.phase
    case Idle => true
    case Admitted(cmd, index) =>
      Authentic(cfg, cmd) && Holds(cfg, a.image, cmd, index) && !Terminal(a.image.records[index].state)
    case InHandler(cmd, index) =>
      && Authentic(cfg, cmd) && Holds(cfg, a.image, cmd, index) && a.image.records[index].state == Running
      && a.image.records[index] in a.disk.records
  }

  ghost predicate AgentInv(cfg: Config, a: Agent) {
    && ImageOk(a.image) && ImageOk(a.disk)
    && DiskAgrees(a.image, a.disk)
    && a.disk.highestSeen <= a.image.highestSeen
    && a.completed <= a.disk.highestCompleted <= a.image.highestCompleted
    && PhaseOk(cfg, a)
  }

  lemma AppendKeepsOrder(records: seq<Record>, r: Record, highest: nat)
    requires Ascending(records) && DistinctIds(records)
    requires forall x :: x in records ==> x.sequence <= highest && x.commandId != r.commandId
    requires highest < r.sequence
    ensures Ascending(records + [r]) && DistinctIds(records + [r])
  {
    assert forall i :: 0 <= i < |records| ==> records[i] in records;
  }

  lemma CutKeepsOrder(records: seq<Record>, from: nat)
    requires from <= |records| && Ascending(records) && DistinctIds(records)
    ensures Ascending(records[from..]) && DistinctIds(records[from..])
    ensures forall r :: r in records[from..] ==> r in records
  {
  }

  lemma AcceptedIsSound(cfg: Config, cmd: Command)
    ensures var r := AcceptedRecord(cfg, cmd); RecordOk(r) && r.sequence == cmd.sequence && r.commandId == cmd.commandId
  {
    hide Digest;
  }

  /** The admitted record is always the last one kept. */
  lemma AdmissionKeepsImageOk(cfg: Config, image: Image, cmd: Command)
    requires ImageOk(image) && cmd.sequence > image.highestSeen
    requires FindRecord(image.records, cmd.commandId) == |image.records|
    ensures ImageOk(WithAccepted(cfg, image, cmd))
    ensures var records := WithAccepted(cfg, image, cmd).records;
            && records != [] && records[|records| - 1] == AcceptedRecord(cfg, cmd)
            && (forall r :: r in records ==> r == AcceptedRecord(cfg, cmd) || r in image.records)
  {
    hide Digest, Ascending, DistinctIds, FindRecord;
    var all := image.records + [AcceptedRecord(cfg, cmd)];
    AcceptedIsSound(cfg, cmd);
    AppendKeepsOrder(image.records, AcceptedRecord(cfg, cmd), image.highestSeen);
    var from := if |all| <= MAX_RECORDS then 0 else |all| - MAX_RECORDS;
    CutKeepsOrder(all, from);
    hide AcceptedRecord, RecordOk;
    var records := WithAccepted(cfg, image, cmd).records;
    assert records == all[from..] && records[|records| - 1] == all[|all| - 1];
    assert forall r :: r in all ==> r == AcceptedRecord(cfg, cmd) || r in image.records;
  }

  lemma LastIsFound(records: seq<Record>, id: Octets)
    requires records != [] && DistinctIds(records) && records[|records| - 1].commandId == id
    ensures FindRecord(records, id) == |records| - 1
  {
  }

  lemma ReceiveKeepsInv(cfg: Config, a: Agent, cmd: Command, now: int, w: Effect)
    requires AgentInv(cfg, a) && a.phase.Idle?
    ensures AgentInv(cfg, Receive(cfg, a, cmd, now, w).0)
  {
    if Screen(cfg, a, cmd, now) == Admit {
      AdmissionKeepsInv(cfg, a, cmd, now, w);
    }
  }

  lemma AdmissionKeepsInv(cfg: Config, a: Agent, cmd: Command, now: int, w: Effect)
    requires AgentInv(cfg, a) && a.phase.Idle? && Screen(cfg, a, cmd, now) == Admit
    ensures AgentInv(cfg, Receive(cfg, a, cmd, now, w).0)
  {
    var image := WithAccepted(cfg, a.image, cmd);
    AdmissionKeepsImageOk(cfg, a.image, cmd);
    hide Newest, Ascending, DistinctIds, FindRecord, Digest, Signing.SigningBytes;
    SelfAgreement(image);
    assert DiskAgrees(image, a.disk);
  }

  lemma RewriteKeepsImageOk(image: Image, index: nat, r: Record, hc: nat)
    requires ImageOk(image) && index < |image.records| && RecordOk(r)
    requires r.commandId == image.records[index].commandId && r.sequence == image.records[index].sequence
    requires hc <= image.highestSeen
    ensures ImageOk(Image(image.highestSeen, hc, image.records[index := r]))
  {
    var records := image.records[index := r];
    assert image.records[index] in image.records;
    forall x | x in records ensures RecordOk(x) && x.sequence <= image.highestSeen {
      assert x == r || x in image.records;
    }
  }

  /** Rewriting a record that is not terminal cannot contradict the disk. */
  lemma RewriteKeepsAgreement(image: Image, disk: Image, index: nat, r: Record, hc: nat)
    requires ImageOk(image) && DiskAgrees(image, disk) && index < |image.records|
    requires r.sequence == image.records[index].sequence && !Terminal(image.records[index].state)
    ensures DiskAgrees(Image(image.highestSeen, hc, image.records[index := r]), disk)
  {
    assert image.records[index] in image.records;
    forall d, x | d in disk.records && x in image.records[index := r] && Terminal(d.state) && d.sequence == x.sequence
      ensures x == d
    {
      assert x == r || x in image.records;
    }
  }

  lemma SelfAgreement(image: Image)
    requires ImageOk(image)
    ensures DiskAgrees(image, image)
  {
  }

  lemma StartKeepsInv(cfg: Config, a: Agent, w: Effect)
    requires AgentInv(cfg, a) && a.phase.Admitted?
    ensures AgentInv(cfg, Start(a, w).0)
  {
    var index := a.phase.index;
    var image := MarkRunning(a.image, index);
    RewriteKeepsImageOk(a.image, index, image.records[index], a.image.highestCompleted);
    RewriteKeepsAgreement(a.image, a.disk, index, image.records[index], a.image.highestCompleted);
    SelfAgreement(image);
    RestoredAgrees(a.image, index);
  }

  /** The image restored after a failed write agrees with the marked image that may have reached the disk. */
  lemma RestoredAgrees(image: Image, index: nat)
    requires ImageOk(image) && index < |image.records|
    ensures DiskAgrees(image, MarkRunning(image, index))
  {
    var marked := MarkRunning(image, index);
    forall d, r | d in marked.records && r in image.records && Terminal(d.state) && d.sequence == r.sequence
      ensures r == d
    {
      var i :| 0 <= i < |marked.records| && marked.records[i] == d;
      assert i != index;
      assert image.records[i] == d;
    }
  }

  lemma CompleteKeepsInv(cfg: Config, a: Agent, run: HandlerRun, w: Effect)
    requires AgentInv(cfg, a) && a.phase.InHandler?
    ensures AgentInv(cfg, Complete(cfg, a, run, w).0)
  {
    var index := a.phase.index;
    assert a.image.records[index] in a.image.records;
    var image := Concluded(a.image, index, a.phase.cmd, Conclude(run, cfg.prims));
    RewriteKeepsImageOk(a.image, index, image.records[index], image.highestCompleted);
    RewriteKeepsAgreement(a.image, a.disk, index, image.records[index], image.highestCompleted);
    SelfAgreement(image);
  }

  lemma RestartKeepsInv(cfg: Config, a: Agent, handlers: set<Octets>)
    requires AgentInv(cfg, a)
    ensures AgentInv(cfg, Restart(a, handlers))
  {
    SelfAgreement(a.disk);
  }

  lemma ResumedKeepsInv(cfg: Config, a: Agent, env: Env)
    requires AgentInv(cfg, a) && a.phase.Admitted?
    ensures AgentInv(cfg, Resumed(cfg, a, env).0)
  {
    assert a.phase.index < |a.image.records|;
    hide AgentInv;
    StartKeepsInv(cfg, a, env.startWrite);
    var started := Start(a, env.startWrite).0;
    if started.phase.InHandler? {
      CompleteKeepsInv(cfg, started, env.run, env.finishWrite);
    }
  }
}
