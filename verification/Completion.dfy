/** A run in which everything goes well: the assumptions of the end-to-end results can be met, and a command can
    succeed. */
module Completion {
  import opened Bytes
  import opened Protocol
  import opened Wrappers
  import opened Panel
  import opened PanelStore
  import opened EndToEnd
  import PanelResults
  import Executor
  import ExecutorRuns
  import Signing

  ghost predicate Reached(cfg: Executor.Config, start: System, events: seq<EndToEnd.Event>, s: System) {
    AllPossible(cfg, start, events) && After(cfg, start, events) == s
  }

  lemma {:induction false} OneMore(cfg: Executor.Config, start: System, events: seq<EndToEnd.Event>, s: System,
                                   e: EndToEnd.Event)
    requires Reached(cfg, start, events, s) && Possible(cfg, s, e)
    ensures Reached(cfg, start, events + [e], Next(cfg, s, e))
    decreases |events|
  {
    hide Next, Possible;
    if events == [] {
      assert [e][1..] == [] && events + [e] == [e];
      assert AllPossible(cfg, Next(cfg, s, e), []) && After(cfg, Next(cfg, s, e), []) == Next(cfg, s, e);
      assert AllPossible(cfg, s, [e]) && After(cfg, s, [e]) == After(cfg, Next(cfg, s, e), []);
    } else {
      assert (events + [e])[1..] == events[1..] + [e] && (events + [e])[0] == events[0];
      OneMore(cfg, Next(cfg, start, events[0]), events[1..], s, e);
    }
  }

  /** The batch of one command for the agent. */
  ghost predicate SingleFor(cfg: Executor.Config, b: Batch) {
    && |b.agentIds| == |b.ids| == 1 && b.agentIds[0] == cfg.agentId && cfg.agentId != [] && b.ids[0] != []
    && BatchShape(cfg.prims, b)
  }

  function TheCommand(b: Batch): Command
    requires |b.agentIds| == |b.ids| == 1
  {
    NewCommand(b.ids[0], 1, b.agentIds[0], b.action, b.payload, b.now, b.sign)
  }

  function TheRow(b: Batch): Row
    requires |b.agentIds| == |b.ids| == 1
  {
    Row(TheCommand(b), State.Queued, 0, 0, 0, 0, 0, "", EMPTY_OBJECT, b.actor.userId, b.actor.session)
  }

  lemma CreateGivesRow(cfg: Executor.Config, b: Batch)
    requires SingleFor(cfg, b) && Signing.Encodable(TheCommand(b))
    ensures BatchOf(Tables([], []), b, 1).rows == [TheRow(b)]
    ensures Possible(cfg, System(Tables([], []), ExecutorRuns.Installed({}), {}), Create(b))
  {
    var empty := Tables([], []);
    BatchStart(empty, b);
    BatchStep(empty, b, 0);
    assert MaxSequence([], cfg.agentId) == 0;
    hide BatchOf, NewCommand;
    assert BatchOf(empty, b, 1).rows == [] + [TheRow(b)];
    assert AllEncodable([TheRow(b)]);
  }

  /** A transition of the only row. */
  lemma RowMoves(prims: Primitives, db: Tables, row: Row, to: State, actor: Actor, reason: string, code: string,
                 data: Octets, now: int)
    requires db.rows == [row] && row.command.commandId != [] && AllowedTransition(row.state, to)
    requires |reason| <= 128 && |code| <= 128 && |data| <= 16384 && prims.ValidJson(OrEmptyObject(data))
    ensures var t := Transition(prims, db, row.command.commandId, to, actor, reason, code, data, now);
            t.Some? && t.value.rows == [Moved(row, to, now, code, OrEmptyObject(data))]
  {
    assert FindRow(db.rows, row.command.commandId) == 0;
  }

  /** The agent admits, marks and finishes the command when all its writes succeed. */
  lemma AgentSucceeds(cfg: Executor.Config, handlers: set<Octets>, cmd: Command, now: int, outcome: Executor.Outcome)
      returns (done: Executor.Agent, r: CommandResult)
    requires Executor.Authentic(cfg, cmd) && ExecutorRuns.Timely(cmd, now) && cmd.sequence > 0 && cmd.action in handlers
    requires !outcome.failed && !outcome.pending && 0 < |outcome.code| <= 128 && outcome.data == EMPTY_OBJECT
    ensures var a := ExecutorRuns.Installed(handlers);
            var (admitted, none) := ExecutorRuns.Next(cfg, a, ExecutorRuns.Deliver(cmd, now, Done));
            var (started, none') := ExecutorRuns.Next(cfg, admitted, ExecutorRuns.Call(Done));
            none.None? && none'.None?
            && ExecutorRuns.Next(cfg, started, ExecutorRuns.Return(Executor.Returned(outcome), Done)) == (done, Some(r))
    ensures r == CommandResult(VERSION, RESULT_TYPE, cmd.commandId, cmd.sequence, ResultState.Succeeded, outcome.code,
                               EMPTY_OBJECT)
  {
    hide Executor.Digest, Signing.SigningBytes;
    var a := ExecutorRuns.Installed(handlers);
    assert Executor.FindRecord(a.image.records, cmd.commandId) == 0;
    assert Executor.Screen(cfg, a, cmd, now) == Executor.Admit;
    var admitted := Executor.Receive(cfg, a, cmd, now, Done).0;
    var started := Executor.Start(admitted, Done).0;
    var end := Executor.Complete(cfg, started, Executor.Returned(outcome), Done);
    done, r := end.0, end.1;
  }

  lemma ReplyIsReportable(cfg: Executor.Config, s: System, row: Row, r: CommandResult, to: State)
    requires s.db.rows == [row] && row.command.agentId == cfg.agentId && r in s.replies && row.command.commandId != []
    requires r == CommandResult(VERSION, RESULT_TYPE, row.command.commandId, row.command.sequence,
                                ResultState.Succeeded, "done", EMPTY_OBJECT)
    requires to == State.Accepted || to == State.Running || to == State.Succeeded
    requires AllowedTransition(row.state, to)
    ensures Possible(cfg, s, Advance(to, NOBODY, r, 0))
    ensures var s' := Next(cfg, s, Advance(to, NOBODY, r, 0));
            s'.agent == s.agent && s'.replies == s.replies && |s'.db.rows| == 1
            && s'.db.rows[0].command == row.command && s'.db.rows[0].state == to
  {
    assert FindRow(s.db.rows, r.commandId) == 0;
    RowMoves(cfg.prims, s.db, row, to, NOBODY, PanelResults.Reason(to), "", [], 0);
    RowMoves(cfg.prims, s.db, row, to, NOBODY, PanelResults.Reason(to), r.code, r.data, 0);
    hide Transition, FindRow;
  }

  /** Every well-formed command whose signature verifies and whose action the agent handles has a run, possible in the
      sense of the end-to-end results, that ends with its row succeeded. */
  lemma CommandCanSucceed(cfg: Executor.Config, handlers: set<Octets>, b: Batch) returns (events: seq<EndToEnd.Event>)
    requires FixedWidth(cfg.prims.sha256) && SingleFor(cfg, b) && Signing.Encodable(TheCommand(b))
             && b.action in handlers
    requires cfg.prims.verify(Signing.SigningBytes(TheCommand(b), cfg.prims.sha256), TheCommand(b).signature)
    ensures AllPossible(cfg, Initial(handlers), events)
    ensures var rows := After(cfg, Initial(handlers), events).db.rows;
            |rows| == 1 && rows[0].command == TheCommand(b) && rows[0].state == State.Succeeded
  {
    var start, cmd := Initial(handlers), TheCommand(b);
    CreateGivesRow(cfg, b);
    var s1 := Next(cfg, start, Create(b));
    var move := Move(cmd.commandId, State.Dispatched, NOBODY, "", "", [], 0);
    RowMoves(cfg.prims, s1.db, TheRow(b), State.Dispatched, NOBODY, "", "", [], 0);
    var s2 := Next(cfg, s1, move);
    var row := s2.db.rows[0];
    assert s2.db.rows == [row] && row.command == cmd && row.state == State.Dispatched && s2.agent == start.agent;
    var outcome := Executor.Outcome("done", EMPTY_OBJECT, false, false);
    assert Possible(cfg, start, Create(b)) && Possible(cfg, s1, move);
    hide BatchOf, Transition, FindRow;
    AuthenticCommand(cfg, b);
    var agent, r := AgentSucceeds(cfg, handlers, cmd, b.now, outcome);
    var deliver, call := ExecutorRuns.Deliver(cmd, b.now, Done), ExecutorRuns.Call(Done);
    var back := ExecutorRuns.Return(Executor.Returned(outcome), Done);
    var s5 := s2.(agent := agent, replies := {r});
    AgentEvents(cfg, s2, deliver, call, back, s5, r);
    DeliverIsPossible(cfg, s2, cmd, deliver);
    var s3 := Next(cfg, s2, Local(deliver));
    var s4 := Next(cfg, s3, Local(call));
    events := [];
    assert Reached(cfg, start, events, start);
    hide Next, Possible, AllPossible, After;
    OneMore(cfg, start, events, start, Create(b));
    OneMore(cfg, start, events + [Create(b)], s1, move);
    events := events + [Create(b)] + [move];
    OneMore(cfg, start, events, s2, Local(deliver));
    OneMore(cfg, start, events + [Local(deliver)], s3, Local(call));
    OneMore(cfg, start, events + [Local(deliver)] + [Local(call)], s4, Local(back));
    events := events + [Local(deliver)] + [Local(call)] + [Local(back)];
    var more := ReportAll(cfg, start, events, s5, row, r);
    events := more;
  }

  lemma AuthenticCommand(cfg: Executor.Config, b: Batch)
    requires SingleFor(cfg, b)
    requires cfg.prims.verify(Signing.SigningBytes(TheCommand(b), cfg.prims.sha256), TheCommand(b).signature)
    ensures Executor.Authentic(cfg, TheCommand(b)) && ExecutorRuns.Timely(TheCommand(b), b.now)
            && TheCommand(b).sequence == 1
    ensures TheCommand(b).commandId == b.ids[0] && TheCommand(b).action == b.action
  {
    hide Signing.SigningBytes, TTL;
  }

  lemma DeliverIsPossible(cfg: Executor.Config, s: System, cmd: Command, e: ExecutorRuns.Event)
    requires |s.db.rows| == 1 && s.db.rows[0].command == cmd && Signing.Encodable(cmd) && e.Deliver? && e.cmd == cmd
    ensures Possible(cfg, s, Local(e))
  {
    hide Signing.SigningBytes, Signing.Encodable;
  }

  lemma AgentEvents(cfg: Executor.Config, s: System, e0: ExecutorRuns.Event, e1: ExecutorRuns.Event,
                    e2: ExecutorRuns.Event, end: System, r: CommandResult)
    requires !e1.Deliver? && !e2.Deliver? && s.replies == {}
    requires var (a1, none) := ExecutorRuns.Next(cfg, s.agent, e0);
             var (a2, none') := ExecutorRuns.Next(cfg, a1, e1);
             none.None? && none'.None? && ExecutorRuns.Next(cfg, a2, e2) == (end.agent, Some(r))
    requires end == s.(agent := end.agent, replies := {r})
    ensures var s1 := Next(cfg, s, Local(e0));
            var s2 := Next(cfg, s1, Local(e1));
            Next(cfg, s2, Local(e2)) == end && Possible(cfg, s1, Local(e1)) && Possible(cfg, s2, Local(e2))
  {
    hide ExecutorRuns.Next;
  }

  /** The three transactions of the report. */
  lemma ReportAll(cfg: Executor.Config, start: System, before: seq<EndToEnd.Event>, s: System, row: Row,
                  r: CommandResult) returns (events: seq<EndToEnd.Event>)
    requires Reached(cfg, start, before, s)
    requires s.db.rows == [row] && row.command.agentId == cfg.agentId && r in s.replies && row.command.commandId != []
             && row.state == State.Dispatched
    requires r == CommandResult(VERSION, RESULT_TYPE, row.command.commandId, row.command.sequence,
                                ResultState.Succeeded, "done", EMPTY_OBJECT)
    ensures AllPossible(cfg, start, events)
    ensures var rows := After(cfg, start, events).db.rows;
            |rows| == 1 && rows[0].command == row.command && rows[0].state == State.Succeeded
  {
    hide Next, Possible;
    ReplyIsReportable(cfg, s, row, r, State.Accepted);
    var s1 := Next(cfg, s, Advance(State.Accepted, NOBODY, r, 0));
    ReplyIsReportable(cfg, s1, s1.db.rows[0], r, State.Running);
    var s2 := Next(cfg, s1, Advance(State.Running, NOBODY, r, 0));
    ReplyIsReportable(cfg, s2, s2.db.rows[0], r, State.Succeeded);
    OneMore(cfg, start, before, s, Advance(State.Accepted, NOBODY, r, 0));
    OneMore(cfg, start, before + [Advance(State.Accepted, NOBODY, r, 0)], s1, Advance(State.Running, NOBODY, r, 0));
    OneMore(cfg, start, before + [Advance(State.Accepted, NOBODY, r, 0)] + [Advance(State.Running, NOBODY, r, 0)], s2,
            Advance(State.Succeeded, NOBODY, r, 0));
    events :=
        before + [Advance(State.Accepted, NOBODY, r, 0)] + [Advance(State.Running, NOBODY, r, 0)]
            + [Advance(State.Succeeded, NOBODY, r, 0)];
  }
}
