/** What Execute answers and leaves behind, case by case, in terms of the command, the records and the file alone. */
module ExecutorAnswers {
  import opened Bytes
  import opened Protocol
  import opened Wrappers
  import opened Executor
  import Signing

  /** The record with this identifier that the search meets first. */
  ghost predicate FirstWithId(records: seq<Record>, id: Octets, i: nat) {
    i < |records| && records[i].commandId == id && forall k :: 0 <= k < i ==> records[k].commandId != id
  }

  ghost predicate Unknown(records: seq<Record>, id: Octets) {
    forall k :: 0 <= k < |records| ==> records[k].commandId != id
  }

  lemma FirstIsFound(records: seq<Record>, id: Octets, i: nat)
    requires FirstWithId(records, id, i)
    ensures FindRecord(records, id) == i
  {
  }

  lemma UnknownIsNotFound(records: seq<Record>, id: Octets)
    requires Unknown(records, id)
    ensures FindRecord(records, id) == |records|
  {
  }

  /** Every refusal is a failed result for that command with the empty object. */
  lemma RefusalFields(cmd: Command, code: string)
    ensures FailedResult(cmd, code) == CommandResult(Ascii("1"), Ascii("command_result"), cmd.commandId, cmd.sequence,
                                                     ResultState.Failed, code, Ascii("{}"))
  {
  }

  /** A command of this protocol, for one of the four actions, with a JSON payload. */
  lemma WellFormedMeans(cfg: Config, cmd: Command)
    ensures WellFormed(cfg, cmd) <==>
            && cmd.controlVersion == Ascii("1") && cmd.messageType == Ascii("command")
            && (cmd.action == Ascii("collect_now") || cmd.action == Ascii("reload_config")
                || cmd.action == Ascii("self_check") || cmd.action == Ascii("upgrade"))
            && cfg.prims.ValidJson(cmd.payload)
    ensures Authentic(cfg, cmd) <==>
            && WellFormed(cfg, cmd) && cfg.prims.verify(Signing.SigningBytes(cmd, cfg.prims.sha256), cmd.signature)
            && cmd.agentId == cfg.agentId
  {
  }

  /** The three checks before the records are searched, in their order; a refusal changes nothing. */
  lemma UnauthenticIsRefused(cfg: Config, a: Agent, cmd: Command, env: Env)
    ensures var wellFormed := && cmd.controlVersion == Ascii("1") && cmd.messageType == Ascii("command")
                              && (cmd.action == Ascii("collect_now") || cmd.action == Ascii("reload_config")
                                  || cmd.action == Ascii("self_check") || cmd.action == Ascii("upgrade"))
                              && cfg.prims.ValidJson(cmd.payload);
            var signed := cfg.prims.verify(Signing.SigningBytes(cmd, cfg.prims.sha256), cmd.signature);
            && (!wellFormed ==> Delivered(cfg, a, cmd, env) == (a, FailedResult(cmd, "invalid_command")))
            && (wellFormed && !signed ==>
                  Delivered(cfg, a, cmd, env) == (a, FailedResult(cmd, "invalid_signature")))
            && (wellFormed && signed && cmd.agentId != cfg.agentId ==>
                  Delivered(cfg, a, cmd, env) == (a, FailedResult(cmd, "wrong_agent")))
  {
    hide Resumed, FindRecord, Signing.SigningBytes, FailedResult, Digest;
  }

  /** A command already recorded: a different sequence or digest is a mismatch, a finished record is answered with its
      own result, and neither changes anything; the clock, the highest sequence and the action play no part. */
  lemma KnownIsAnswered(cfg: Config, a: Agent, cmd: Command, env: Env, i: nat)
    requires Authentic(cfg, cmd) && FirstWithId(a.image.records, cmd.commandId, i)
    ensures var record := a.image.records[i];
            var same := record.sequence == cmd.sequence
                        && record.digest == cfg.prims.sha256(Signing.SigningBytes(cmd, cfg.prims.sha256));
            && (!same ==> Delivered(cfg, a, cmd, env) == (a, FailedResult(cmd, "duplicate_mismatch")))
            && (same && (record.state == ResultState.Succeeded || record.state == ResultState.Failed) ==>
                  Delivered(cfg, a, cmd, env) == (a, record.result))
            && (same && record.state != ResultState.Succeeded && record.state != ResultState.Failed ==>
                  Delivered(cfg, a, cmd, env) == Resumed(cfg, a.(phase := Admitted(cmd, i)), env))
  {
    FirstIsFound(a.image.records, cmd.commandId, i);
    hide Resumed, FindRecord, Signing.SigningBytes, FailedResult, FirstWithId;
  }

  /** A new command: at most 60 seconds early, not expired, above every sequence seen and for an installed handler. */
  lemma NewIsScreened(cfg: Config, a: Agent, cmd: Command, env: Env)
    requires Authentic(cfg, cmd) && Unknown(a.image.records, cmd.commandId)
    ensures var early := cmd.issuedAt > env.now + 60;
            var late := cmd.expiresAt <= env.now || cmd.expiresAt <= cmd.issuedAt;
            var stale := cmd.sequence <= a.image.highestSeen;
            && (early ==> Delivered(cfg, a, cmd, env) == (a, FailedResult(cmd, "issued_in_future")))
            && (!early && late ==> Delivered(cfg, a, cmd, env) == (a, FailedResult(cmd, "expired")))
            && (!early && !late && stale ==> Delivered(cfg, a, cmd, env) == (a, FailedResult(cmd, "stale_sequence")))
            && (!early && !late && !stale && cmd.action !in a.handlers ==>
                  Delivered(cfg, a, cmd, env) == (a, FailedResult(cmd, "unsupported_action")))
            && (!early && !late && !stale && cmd.action in a.handlers <==> Screen(cfg, a, cmd, env.now) == Admit)
  {
    UnknownIsNotFound(a.image.records, cmd.commandId);
    hide Resumed, FindRecord, Signing.SigningBytes, FailedResult, Unknown, Digest, WithAccepted;
  }

  /** The record an admitted command gets before anything runs. */
  ghost predicate JustAccepted(cfg: Config, cmd: Command, r: Record) {
    && r.commandId == cmd.commandId && r.sequence == cmd.sequence && r.state == ResultState.Accepted
    && r.digest == cfg.prims.sha256(Signing.SigningBytes(cmd, cfg.prims.sha256))
    && r.result == CommandResult(Ascii("1"), Ascii("command_result"), cmd.commandId, cmd.sequence,
                                 ResultState.Accepted, "accepted", Ascii("{}"))
  }

  /** Admission: the record goes to the end, the oldest record gives way when there were 256, the sequence becomes the
      highest seen, and without its write nothing runs. */
  lemma AdmissionLeaves(cfg: Config, a: Agent, cmd: Command, env: Env)
    requires Screen(cfg, a, cmd, env.now) == Admit && |a.image.records| <= 256
    ensures var (admitted, refusal) := Receive(cfg, a, cmd, env.now, env.admitWrite);
            var records, kept := admitted.image.records, if |a.image.records| == 256 then 1 else 0;
            && |records| == |a.image.records| + 1 - kept
            && records[..|records| - 1] == a.image.records[kept..]
            && JustAccepted(cfg, cmd, records[|records| - 1])
            && admitted.image.highestSeen == cmd.sequence
            && admitted.image.highestCompleted == a.image.highestCompleted
            && admitted.disk == (if env.admitWrite == NotDone then a.disk else admitted.image)
            && admitted.completed == a.completed && admitted.calls == a.calls && admitted.runs == a.runs
            && admitted.currentId == a.currentId && admitted.handlers == a.handlers
            && (env.admitWrite == Done ==>
                  && refusal == None && admitted.phase == Admitted(cmd, |records| - 1)
                  && Delivered(cfg, a, cmd, env) == Resumed(cfg, admitted, env))
            && (env.admitWrite != Done ==>
                  admitted.phase == a.phase
                  && Delivered(cfg, a, cmd, env) == (admitted, FailedResult(cmd, "state_write_failed")))
  {
    hide Resumed, FindRecord, Signing.SigningBytes, FailedResult, Screen, WithAccepted, JustAccepted, Digest;
    LastIsAdded(cfg, a.image, cmd);
  }

  lemma LastIsAdded(cfg: Config, image: Image, cmd: Command)
    requires |image.records| <= 256
    ensures var next, kept := WithAccepted(cfg, image, cmd), if |image.records| == 256 then 1 else 0;
            && next.highestSeen == cmd.sequence && next.highestCompleted == image.highestCompleted
            && |next.records| == |image.records| + 1 - kept
            && next.records[..|next.records| - 1] == image.records[kept..]
            && JustAccepted(cfg, cmd, next.records[|next.records| - 1])
  {
    AcceptedFields(cfg, cmd);
    hide AcceptedRecord, JustAccepted, Digest;
    var all, kept := image.records + [AcceptedRecord(cfg, cmd)], if |image.records| == 256 then 1 else 0;
    assert WithAccepted(cfg, image, cmd).records == all[kept..];
    assert all[kept..] == image.records[kept..] + [AcceptedRecord(cfg, cmd)];
  }

  lemma AcceptedFields(cfg: Config, cmd: Command)
    ensures JustAccepted(cfg, cmd, AcceptedRecord(cfg, cmd))
  {
    hide Signing.SigningBytes;
  }

  /** One record of the image replaced and nothing else. */
  ghost predicate OnlyRecordChanged(before: Image, after: Image, index: nat) {
    && index < |before.records| && after.highestSeen == before.highestSeen
    && |after.records| == |before.records|
    && (forall k :: 0 <= k < |before.records| && k != index ==> after.records[k] == before.records[k])
    && after.records[index].commandId == before.records[index].commandId
    && after.records[index].sequence == before.records[index].sequence
    && after.records[index].digest == before.records[index].digest
  }

  /** The mark on disk comes before the call; without it the handler does not run and memory is as it was. */
  lemma MarkingLeaves(cfg: Config, a: Agent, env: Env)
    requires a.phase.Admitted? && a.phase.index < |a.image.records|
    ensures var cmd, index := a.phase.cmd, a.phase.index;
            var (after, result) := Resumed(cfg, a, env);
            && (cmd.action !in a.handlers ==>
                  (after, result) == (a.(phase := Idle), FailedResult(cmd, "unsupported_action")))
            && (cmd.action in a.handlers && env.startWrite != Done ==>
                  && after.image == a.image && after.completed == a.completed && after.currentId == a.currentId
                  && after.calls == a.calls && after.runs == a.runs && after.phase == Idle
                  && result == FailedResult(cmd, "state_write_failed")
                  && (env.startWrite == NotDone ==> after.disk == a.disk)
                  && (env.startWrite == DoneWithError ==>
                        && OnlyRecordChanged(a.image, after.disk, index)
                        && after.disk.highestCompleted == a.image.highestCompleted
                        && after.disk.records[index].state == ResultState.Running
                        && after.disk.records[index].result ==
                           a.image.records[index].result.(state := ResultState.Running, code := "running")))
            && (cmd.action in a.handlers && env.startWrite == Done ==>
                  after.calls == a.calls + [cmd] && after.runs == a.runs + [Run(cmd, env.run)]
                  && after.handlers == a.handlers)
  {
    hide Conclude, Signing.SigningBytes, FailedResult;
  }

  /** While the handler runs, its command is the current one and marked as running in memory and on disk. */
  lemma DuringTheCall(a: Agent, w: Effect)
    requires a.phase.Admitted? && a.phase.index < |a.image.records|
    requires a.phase.cmd.action in a.handlers && w == Done
    ensures var (during, answer), index := Start(a, w), a.phase.index;
            && answer == None && during.phase == InHandler(a.phase.cmd, index)
            && during.currentId == a.phase.cmd.commandId && during.disk == during.image
            && OnlyRecordChanged(a.image, during.image, index)
            && during.image.records[index].state == ResultState.Running
            && during.completed == a.completed
  {
  }

  /** A handler that ran: its verdict is in the record in memory whatever becomes of the last write, the file has it
      unless that write was not made, and only a successful write publishes the completed sequence and answers. */
  lemma RecordingLeaves(cfg: Config, a: Agent, env: Env)
    requires a.phase.Admitted? && a.phase.index < |a.image.records|
    requires a.phase.cmd.action in a.handlers && env.startWrite == Done
    ensures var cmd, index, v := a.phase.cmd, a.phase.index, Conclude(env.run, cfg.prims);
            var (after, result) := Resumed(cfg, a, env);
            && OnlyRecordChanged(a.image, after.image, index)
            && after.image.records[index].state == v.state
            && after.image.records[index].result ==
               CommandResult(Ascii("1"), Ascii("command_result"), cmd.commandId, cmd.sequence, v.state, v.code, v.data)
            && (v.state == ResultState.Running ==> after.image.highestCompleted == a.image.highestCompleted)
            && (v.state != ResultState.Running ==>
                  && cmd.sequence <= after.image.highestCompleted
                  && a.image.highestCompleted <= after.image.highestCompleted
                  && after.image.highestCompleted in {cmd.sequence, a.image.highestCompleted})
            && after.currentId == [] && after.phase == Idle
            && (env.finishWrite == Done ==>
                  && after.disk == after.image && after.completed == after.image.highestCompleted
                  && result == after.image.records[index].result)
            && (env.finishWrite == DoneWithError ==> after.disk == after.image)
            && (env.finishWrite == NotDone ==>
                  && OnlyRecordChanged(a.image, after.disk, index)
                  && after.disk.highestCompleted == a.image.highestCompleted
                  && after.disk.records[index].state == ResultState.Running)
            && (env.finishWrite != Done ==>
                  after.completed == a.completed && result == FailedResult(cmd, "state_write_failed"))
  {
    hide Conclude, Signing.SigningBytes, FailedResult;
  }

  /** A plain outcome within the bounds: no error, nothing pending, at most 128 characters and 16384 octets of JSON. */
  ghost predicate PlainOutcome(prims: Primitives, run: HandlerRun) {
    && run.Returned? && !run.outcome.failed && !run.outcome.pending && |run.outcome.code| <= 128
    && |run.outcome.data| <= 16384 && (run.outcome.data == [] || prims.ValidJson(run.outcome.data))
  }

  /** A new command is answered as succeeded exactly if it passes every check, its three writes are made and its handler
      returns a plain outcome; the answer, the record and the file then carry that outcome. */
  ghost predicate SuccessIsExact(cfg: Config, before: Agent, cmd: Command, env: Env,
                                 outcome: (Agent, CommandResult)) {
    var (after, result) := outcome;
    Unknown(before.image.records, cmd.commandId) ==>
      && (result.state == ResultState.Succeeded <==>
          && Authentic(cfg, cmd) && cmd.issuedAt <= env.now + 60 && cmd.expiresAt > env.now
          && cmd.expiresAt > cmd.issuedAt && cmd.sequence > before.image.highestSeen && cmd.action in before.handlers
          && env.admitWrite == Done && env.startWrite == Done && env.finishWrite == Done
          && PlainOutcome(cfg.prims, env.run))
      && (result.state == ResultState.Succeeded ==>
            && env.run.Returned? && result == Reported(cmd, env.run.outcome) && after.disk.records != []
            && after.disk.records[|after.disk.records| - 1].result == result
            && cmd.sequence <= after.completed)
  }

  lemma SucceedsIff(cfg: Config, a: Agent, cmd: Command, env: Env)
    requires |a.image.records| <= 256
    ensures SuccessIsExact(cfg, a, cmd, env, Delivered(cfg, a, cmd, env))
  {
    if !Unknown(a.image.records, cmd.commandId) {
      return;
    }
    if Authentic(cfg, cmd) {
      NewIsScreened(cfg, a, cmd, env);
      if Screen(cfg, a, cmd, env.now) == Admit {
        AdmittedSucceedsIff(cfg, a, cmd, env);
      } else {
        hide Delivered, Conclude, Screen;
      }
    } else {
      RefusedUnlessAuthentic(cfg, a, cmd, env);
    }
  }

  /** The result that carries a plain outcome to the Panel. */
  ghost function Reported(cmd: Command, o: Outcome): CommandResult {
    CommandResult(Ascii("1"), Ascii("command_result"), cmd.commandId, cmd.sequence, ResultState.Succeeded,
                  if o.code == "" then "succeeded" else o.code, if o.data == [] then Ascii("{}") else o.data)
  }

  lemma RefusedUnlessAuthentic(cfg: Config, a: Agent, cmd: Command, env: Env)
    requires !Authentic(cfg, cmd)
    ensures Delivered(cfg, a, cmd, env).1.state == ResultState.Failed
  {
    UnauthenticIsRefused(cfg, a, cmd, env);
    WellFormedMeans(cfg, cmd);
    hide Delivered, Signing.SigningBytes;
  }

  lemma AdmittedSucceedsIff(cfg: Config, a: Agent, cmd: Command, env: Env)
    requires |a.image.records| <= 256 && Screen(cfg, a, cmd, env.now) == Admit && cmd.action in a.handlers
    ensures var (after, result) := Delivered(cfg, a, cmd, env);
            && (result.state == ResultState.Succeeded <==>
                && env.admitWrite == Done && env.startWrite == Done && env.finishWrite == Done
                && PlainOutcome(cfg.prims, env.run))
            && (result.state == ResultState.Succeeded ==>
                  && env.run.Returned? && result == Reported(cmd, env.run.outcome) && after.disk.records != []
                  && after.disk.records[|after.disk.records| - 1].result == result
                  && cmd.sequence <= after.completed)
  {
    AdmissionLeaves(cfg, a, cmd, env);
    var admitted := Receive(cfg, a, cmd, env.now, env.admitWrite).0;
    hide Delivered, Resumed, Receive, Screen, Signing.SigningBytes, JustAccepted;
    if env.admitWrite == Done {
      MarkingLeaves(cfg, admitted, env);
      if env.startWrite == Done {
        RecordingLeaves(cfg, admitted, env);
      }
    }
  }
}
