/** CommandExecutor in the source's form: fields updated in place by Execute, resumeLocked, trimRecords and persist. */
module CommandExecution {
  import opened Bytes
  import opened Protocol
  import opened Wrappers
  import opened Executor
  import opened ExecutorRuns
  import opened ExecutorAnswers
  import Signing

  predicate BySequence(records: seq<Record>) {
    forall i, j :: 0 <= i < j < |records| ==> records[i].sequence <= records[j].sequence
  }

  function Insert(sorted: seq<Record>, r: Record): (out: seq<Record>)
    requires BySequence(sorted)
    ensures multiset(out) == multiset(sorted) + multiset{r} && BySequence(out)
    decreases |sorted|
  {
    var n := |sorted| - 1;
    if n < 0 || sorted[n].sequence <= r.sequence then sorted + [r]
    else
      var front := Insert(sorted[..n], r);
      SplitsLast(sorted);
      AppendsLargest(sorted[..n], r, front, sorted[n]);
      front + [sorted[n]]
  }

  lemma AppendsLargest(rest: seq<Record>, r: Record, front: seq<Record>, last: Record)
    requires multiset(front) == multiset(rest) + multiset{r} && BySequence(front) && r.sequence <= last.sequence
    requires forall x :: x in rest ==> x.sequence <= last.sequence
    ensures BySequence(front + [last])
  {
    forall i | 0 <= i < |front| ensures front[i].sequence <= last.sequence {
      assert front[i] in multiset(front);
    }
  }

  /** sort.Slice on the sequence; which of the possible orders of equal keys it picks does not matter. */
  method SortBySequence(records: seq<Record>) returns (sorted: seq<Record>)
    ensures multiset(sorted) == multiset(records) && BySequence(sorted)
  {
    sorted := [];
    for n := 0 to |records|
      invariant multiset(sorted) == multiset(records[..n]) && BySequence(sorted)
    {
      assert records[..n + 1] == records[..n] + [records[n]];
      sorted := Insert(sorted, records[n]);
    }
    assert records[..|records|] == records;
  }

  lemma LastIsLast(records: seq<Record>, sorted: seq<Record>)
    requires records != [] && |sorted| == |records|
    requires Ascending(records) && BySequence(sorted) && multiset(sorted) == multiset(records)
    ensures records[|records| - 1] == sorted[|sorted| - 1]
  {
    var n := |records| - 1;
    assert records[n] in multiset(sorted) && sorted[n] in multiset(records);
    var i :| 0 <= i <= n && sorted[i] == records[n];
    var j :| 0 <= j <= n && records[j] == sorted[n];
  }

  lemma DropLast(s: seq<Record>)
    requires s != []
    ensures multiset(s[..|s| - 1]) == multiset(s) - multiset{s[|s| - 1]}
  {
    assert s == s[..|s| - 1] + [s[|s| - 1]];
  }

  lemma SameSize(a: seq<Record>, b: seq<Record>)
    requires multiset(a) == multiset(b)
    ensures |a| == |b|
  {
    assert |multiset(a)| == |a|;
  }

  lemma PrefixesSorted(records: seq<Record>, sorted: seq<Record>, n: nat)
    requires Ascending(records) && BySequence(sorted) && n <= |records| && n <= |sorted|
    ensures Ascending(records[..n]) && BySequence(sorted[..n])
  {
  }

  lemma SplitsLast(s: seq<Record>)
    requires s != []
    ensures s == s[..|s| - 1] + [s[|s| - 1]]
  {
  }

  /** Any sorted permutation of strictly ascending records is those records. */
  lemma {:induction false} SortIsIdentity(records: seq<Record>, sorted: seq<Record>)
    requires Ascending(records) && BySequence(sorted) && multiset(sorted) == multiset(records)
    ensures sorted == records
  {
    hide Ascending, BySequence;
    SameSize(sorted, records);
    if records != [] {
      LastIsLast(records, sorted);
      DropLast(records);
      DropLast(sorted);
      PrefixesSorted(records, sorted, |records| - 1);
      SortIsIdentity(records[..|records| - 1], sorted[..|records| - 1]);
      SplitsLast(records);
      SplitsLast(sorted);
    }
  }

  lemma AdmissionFacts(cfg: Config, a: Agent, cmd: Command, now: int, w: Effect)
    requires AgentInv(cfg, a) && a.phase.Idle? && Screen(cfg, a, cmd, now) == Admit
    ensures AgentInv(cfg, Receive(cfg, a, cmd, now, w).0)
    ensures Ascending(a.image.records + [AcceptedRecord(cfg, cmd)])
    ensures var records := WithAccepted(cfg, a.image, cmd).records;
            records != [] && FindRecord(records, cmd.commandId) == |records| - 1
  {
    hide Digest, Signing.SigningBytes, AgentInv;
    assert ImageOk(a.image)
        && FindRecord(a.image.records, cmd.commandId) == |a.image.records| by { InvGivesImage(cfg, a); }
    ReceiveKeepsInv(cfg, a, cmd, now, w);
    AdmissionKeepsImageOk(cfg, a.image, cmd);
    AppendKeepsOrder(a.image.records, AcceptedRecord(cfg, cmd), a.image.highestSeen);
    LastIsFound(WithAccepted(cfg, a.image, cmd).records, cmd.commandId);
  }

  lemma InvGivesImage(cfg: Config, a: Agent)
    requires AgentInv(cfg, a)
    ensures ImageOk(a.image)
  {
  }

  /** commands.json as a new process finds it. */
  datatype StateFile = Absent | Undecodable | Decoded(version: string, image: Image)

  function Loaded(file: StateFile): Option<Image> {
    match file
    case Absent => Some(EMPTY_IMAGE)
    case Undecodable => None
    case Decoded(version, image) => if version == "1" && |image.records| <= MAX_RECORDS then Some(image) else None
  }

  /** A missing file is an empty image; a file is taken as it is exactly if it decodes, is of version 1 and holds at
      most 256 records. */
  lemma LoadedMeans(file: StateFile)
    ensures file == Absent ==> Loaded(file) == Some(Image(0, 0, []))
    ensures file != Absent ==>
              (Loaded(file).Some? <==> file.Decoded? && file.version == "1" && |file.image.records| <= 256)
              && (Loaded(file).Some? ==> Loaded(file).value == file.image)
  {
  }

  /** What an executor leaves on disk in any run, its successor accepts, and starts from with all its invariants. */
  lemma OwnFileIsAccepted(cfg: Config, handlers: set<Octets>, events: seq<Event>)
    ensures var disk := After(cfg, Installed(handlers), events).disk;
            Loaded(Decoded("1", disk)) == Some(disk) && ImageOk(disk)
  {
    InvAlways(cfg, handlers, events);
    hide After;
  }

  class CommandExecutor {
    const cfg: Config
    var handlers: set<Octets>
    var highestSeen: nat
    var highestCompleted: nat
    var records: seq<Record>
    var completed: nat
    var currentId: Octets
    /** commands.json. */
    var disk: Image
    /** The handler calls and returns of the agent's whole life. */
    var calls: seq<Command>
    var runs: seq<Run>

    ghost function ViewAt(phase: Phase): Agent
      reads this
    {
      Agent(handlers, Image(highestSeen, highestCompleted, records), disk, completed, currentId, phase, calls, runs)
    }

    ghost predicate Valid()
      reads this
    {
      AgentInv(cfg, ViewAt(Idle))
    }

    /** The executor on an image that load accepted, whatever it holds. */
    constructor (cfg: Config, handlers: set<Octets>, disk: Image, calls: seq<Command>, runs: seq<Run>)
      ensures this.cfg == cfg && (ImageOk(disk) ==> Valid())
      ensures forall a: Agent :: a.disk == disk && a.calls == calls && a.runs == runs ==>
                ViewAt(Idle) == Restart(a, handlers)
      ensures this.handlers == handlers && this.disk == disk && this.calls == calls && this.runs == runs
      ensures highestSeen == disk.highestSeen && highestCompleted == disk.highestCompleted && records == disk.records
      ensures completed == disk.highestCompleted && currentId == []
    {
      this.cfg, this.handlers, this.disk := cfg, handlers, disk;
      highestSeen, highestCompleted, records := disk.highestSeen, disk.highestCompleted, disk.records;
      completed, currentId := disk.highestCompleted, [];
      this.calls, this.runs := calls, runs;
      new;
      if ImageOk(disk) { SelfAgreement(disk); }
    }

    /** OpenCommandExecutor: a missing file is an empty image; a file that does not decode, has another version or more
        than 256 records is refused, as is a handler for an unknown action; the records are taken as they are. */
    static method Open(cfg: Config, handlers: set<Octets>, file: StateFile, calls: seq<Command>, runs: seq<Run>)
        returns (e: CommandExecutor?)
      ensures e != null <==> Loaded(file).Some? && forall action :: action in handlers ==> TTL(action) > 0
      ensures e != null ==> e.cfg == cfg && (ImageOk(Loaded(file).value) ==> e.Valid())
      ensures e != null ==> forall a: Agent :: a.disk == Loaded(file).value && a.calls == calls && a.runs == runs ==>
                              e.ViewAt(Idle) == Restart(a, handlers)
    {
      hide TTL, ImageOk;
      if exists action :: action in handlers && TTL(action) <= 0 {
        return null;
      }
      match file
      case Absent => e := new CommandExecutor(cfg, handlers, EMPTY_IMAGE, calls, runs);
      case Undecodable => return null;
      case Decoded(version, image) =>
        if version != "1" || |image.records| > MAX_RECORDS {
          return null;
        }
        e := new CommandExecutor(cfg, handlers, image, calls, runs);
    }

    method Persist(w: Effect) returns (ok: bool)
      modifies this`disk
      ensures ok == w.Done?
      ensures disk == Persisted(w, Image(highestSeen, highestCompleted, records), old(disk))
    {
      if !w.NotDone? {
        disk := Image(highestSeen, highestCompleted, records);
      }
      ok := w.Done?;
    }

    method TrimRecords()
      requires Ascending(records)
      modifies this`records
      ensures records == Newest(old(records))
    {
      if |records| <= MAX_RECORDS {
        return;
      }
      var sorted := SortBySequence(records);
      SortIsIdentity(records, sorted);
      records := sorted[|sorted| - MAX_RECORDS..];
    }

    method Execute(cmd: Command, env: Env) returns (result: CommandResult)
      requires Valid()
      modifies this
      ensures Valid()
      ensures (ViewAt(Idle), result) == Delivered(cfg, old(ViewAt(Idle)), cmd, env)
      ensures SuccessIsExact(cfg, old(ViewAt(Idle)), cmd, env, (ViewAt(Idle), result))
    {
      hide AgentInv, SuccessIsExact, Receive, Resumed, Delivered, Digest, Signing.SigningBytes;
      InvGivesImage(cfg, ViewAt(Idle));
      SucceedsIff(cfg, ViewAt(Idle), cmd, env);
      UnauthenticIsRefused(cfg, ViewAt(Idle), cmd, env);
      if cmd.controlVersion != VERSION || cmd.messageType != COMMAND_TYPE || TTL(cmd.action) <= 0
          || !cfg.prims.ValidJson(cmd.payload) {
        return FailedResult(cmd, "invalid_command");
      }
      if !cfg.prims.verify(Signing.SigningBytes(cmd, cfg.prims.sha256), cmd.signature) {
        return FailedResult(cmd, "invalid_signature");
      }
      if cmd.agentId != cfg.agentId {
        return FailedResult(cmd, "wrong_agent");
      }
      result := ExecuteLocked(cmd, env);
    }

    /** Execute from the acquisition of the execution mutex on. */
    method ExecuteLocked(cmd: Command, env: Env) returns (result: CommandResult)
      requires Valid() && Authentic(cfg, cmd)
      modifies this
      ensures Valid()
      ensures (ViewAt(Idle), result) == Delivered(cfg, old(ViewAt(Idle)), cmd, env)
    {
      ghost var before := ViewAt(Idle);
      hide AgentInv;
      ReceiveKeepsInv(cfg, before, cmd, env.now, env.admitWrite);
      var digest := Digest(cfg, cmd);
      for index := 0 to |records|
        invariant forall k :: 0 <= k < index ==> records[k].commandId != cmd.commandId
        invariant ViewAt(Idle) == before
      {
        if records[index].commandId != cmd.commandId {
          continue;
        }
        assert FindRecord(records, cmd.commandId) == index;
        if records[index].sequence != cmd.sequence || records[index].digest != digest {
          return FailedResult(cmd, "duplicate_mismatch");
        }
        if Terminal(records[index].state) {
          return records[index].result;
        }
        result := ResumeLocked(cmd, index, env);
        return;
      }
      assert FindRecord(records, cmd.commandId) == |records|;
      if cmd.issuedAt > env.now + CLOCK_SKEW {
        return FailedResult(cmd, "issued_in_future");
      }
      if cmd.expiresAt <= env.now || cmd.expiresAt <= cmd.issuedAt {
        return FailedResult(cmd, "expired");
      }
      if cmd.sequence <= highestSeen {
        return FailedResult(cmd, "stale_sequence");
      }
      if cmd.action !in handlers {
        return FailedResult(cmd, "unsupported_action");
      }
      result := AdmitAndResume(cmd, digest, env);
    }

    /** Execute from the construction of the accepted record on. */
    method AdmitAndResume(cmd: Command, digest: Octets, env: Env) returns (result: CommandResult)
      requires Valid() && digest == Digest(cfg, cmd) && Screen(cfg, ViewAt(Idle), cmd, env.now) == Admit
      modifies this
      ensures Valid()
      ensures (ViewAt(Idle), result) == Delivered(cfg, old(ViewAt(Idle)), cmd, env)
    {
      ghost var before := ViewAt(Idle);
      hide AgentInv, ImageOk, Ascending, DistinctIds, DiskAgrees, PhaseOk, Newest, Digest, Signing.SigningBytes,
           FindRecord;
      AdmissionFacts(cfg, before, cmd, env.now, env.admitWrite);
      highestSeen := cmd.sequence;
      records := records + [AcceptedRecord(cfg, cmd)];
      TrimRecords();
      var ok := Persist(env.admitWrite);
      if !ok {
        return FailedResult(cmd, "state_write_failed");
      }
      assert ViewAt(Admitted(cmd, |records| - 1)) == Receive(cfg, before, cmd, env.now, env.admitWrite).0;
      result := ResumeAdmitted(cmd, env);
    }

    /** The search for the record just admitted; it is never cut, so the search cannot fall through. */
    method ResumeAdmitted(cmd: Command, env: Env) returns (result: CommandResult)
      requires records != [] && AgentInv(cfg, ViewAt(Admitted(cmd, |records| - 1)))
      requires FindRecord(records, cmd.commandId) == |records| - 1
      modifies this
      ensures Valid()
      ensures (ViewAt(Idle), result) == Resumed(cfg, old(ViewAt(Admitted(cmd, |records| - 1))), env)
    {
      hide AgentInv, Resumed;
      for index := 0 to |records|
        invariant ViewAt(Idle) == old(ViewAt(Idle))
        invariant index <= FindRecord(records, cmd.commandId)
      {
        if records[index].commandId == cmd.commandId {
          result := ResumeLocked(cmd, index, env);
          return;
        }
      }
      assert false;
    }

    method ResumeLocked(cmd: Command, index: nat, env: Env) returns (result: CommandResult)
      requires index < |records| && AgentInv(cfg, ViewAt(Admitted(cmd, index)))
      modifies this
      ensures Valid()
      ensures (ViewAt(Idle), result) == Resumed(cfg, old(ViewAt(Admitted(cmd, index))), env)
    {
      ghost var admitted := ViewAt(Admitted(cmd, index));
      hide AgentInv;
      ResumedKeepsInv(cfg, admitted, env);
      if cmd.action !in handlers {
        return FailedResult(cmd, "unsupported_action");
      }
      var previous := records[index];
      var running := previous.result.(state := Running, code := "running");
      records := records[index := previous.(state := Running, result := running)];
      var ok := Persist(env.startWrite);
      if !ok {
        records := records[index := previous];
        assert records == admitted.image.records;
        return FailedResult(cmd, "state_write_failed");
      }
      currentId := cmd.commandId;
      calls := calls + [cmd];
      ghost var started := ViewAt(InHandler(cmd, index));
      assert started == Start(admitted, env.startWrite).0;
      var run := env.run;
      runs := runs + [Run(cmd, run)];
      currentId := [];
      var v := Conclude(run, cfg.prims);
      records := records[index := records[index].(state := v.state,
          result := CommandResult(VERSION, RESULT_TYPE, cmd.commandId, cmd.sequence, v.state, v.code, v.data))];
      if v.state != Running && cmd.sequence > highestCompleted {
        highestCompleted := cmd.sequence;
      }
      ok := Persist(env.finishWrite);
      if !ok {
        return FailedResult(cmd, "state_write_failed");
      }
      completed := highestCompleted;
      result := records[index].result;
    }
  }
}
