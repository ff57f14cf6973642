/** What ApplyAgentResult answers and leaves behind, written out over the row it finds. */
module PanelAnswers {
  import opened Bytes
  import opened Protocol
  import opened Wrappers
  import opened Panel
  import opened PanelResults

  /** The states of a delivered command by stage: dispatched, accepted, running, and the end the agent reports. */
  function StateAt(stage: nat, reported: ResultState): State {
    if stage <= 1 then State.Dispatched
    else if stage == 2 then State.Accepted
    else if stage == 3 then State.Running
    else if reported == ResultState.Succeeded then State.Succeeded
    else State.Failed
  }

  function StageOf(state: State): nat {
    if state == State.Dispatched then 1 else if state == State.Accepted then 2 else 3
  }

  /** The stage a report asks for. */
  function Aim(reported: ResultState): nat {
    if reported == ResultState.Accepted then 2 else if reported == ResultState.Running then 3 else 4
  }

  /** The row after stages from + 1 to to were entered: each sets its own time, the last the result too. */
  function Staged(row: Row, from: nat, to: nat, r: CommandResult, now: int): Row {
    Row(row.command, if to == from then row.state else StateAt(to, r.state), row.dispatchedAt,
        if from < 2 <= to then now else row.acceptedAt,
        if from < 3 <= to then now else row.startedAt,
        if from < 4 <= to then now else row.finishedAt,
        row.attempts,
        if from < 4 <= to then r.code else row.code,
        if from < 4 <= to then (if r.data == [] then Ascii("{}") else r.data) else row.data,
        row.creator, row.session)
  }

  /** The event of entering a stage, on behalf of the command's creator. */
  function Entry(row: Row, stage: nat, r: CommandResult, now: int): Event
    requires 2 <= stage <= 4
  {
    Event(row.command.commandId, row.creator, row.session, Some(StateAt(stage - 1, r.state)), StateAt(stage, r.state),
          now, if stage == 2 then "agent_accepted" else if stage == 3 then "agent_running" else "agent_terminal")
  }

  function Entries(row: Row, from: nat, to: nat, r: CommandResult, now: int): (es: seq<Event>)
    requires 1 <= from && to <= 4
    decreases if to > from then to - from else 0
  {
    if to <= from then [] else [Entry(row, from + 1, r, now)] + Entries(row, from + 1, to, r, now)
  }

  /** The states of stages from + 1 to to. */
  function Stages(from: nat, to: nat, reported: ResultState): seq<State>
    decreases if to > from then to - from else 0
  {
    if to <= from then [] else [StateAt(from + 1, reported)] + Stages(from + 1, to, reported)
  }

  lemma PathIsStages(state: State, reported: ResultState)
    requires reported != ResultState.Other && Delivered(state)
    ensures TargetPath(state, reported) == Stages(StageOf(state), Aim(reported), reported)
  {
    assert Stages(4, 4, reported) == [] && Stages(3, 3, reported) == [] && Stages(2, 2, reported) == [];
    assert Stages(3, 4, reported) == [StateAt(4, reported)] && Stages(2, 3, reported) == [State.Running];
    assert Stages(2, 4, reported) == [State.Running, StateAt(4, reported)];
    assert Stages(1, 2, reported) == [State.Accepted] && Stages(1, 3, reported) == [State.Accepted, State.Running];
    assert Stages(1, 4, reported) == [State.Accepted, State.Running, StateAt(4, reported)];
  }

  lemma StageStep(prims: Primitives, db: Tables, i: nat, from: nat, r: CommandResult, now: int)
    requires i < |db.rows| && FindRow(db.rows, r.commandId) == i && WellFormedResult(prims, r)
    requires 1 <= from <= 3 && db.rows[i].state == StateAt(from, r.state)
    requires from + 1 == 4 ==> HasResult(AsState(r.state))
    ensures var row := db.rows[i];
            && Step(prims, db, StateAt(from + 1, r.state), Creator(row), r, now) ==
               Some(Tables(db.rows[i := Staged(row, from, from + 1, r, now)],
                           db.events + [Entry(row, from + 1, r, now)]))
            && FindRow(db.rows[i := Staged(row, from, from + 1, r, now)], r.commandId) == i
  {
    var row := db.rows[i];
    var rows' := db.rows[i := Staged(row, from, from + 1, r, now)];
    SameCommandsSameRow(db.rows, rows', r.commandId);
    hide FindRow;
  }

  lemma {:induction false} FollowStages(prims: Primitives, db: Tables, i: nat, from: nat, r: CommandResult, now: int,
                                        budget: nat)
    requires i < |db.rows| && FindRow(db.rows, r.commandId) == i && WellFormedResult(prims, r)
    requires 1 <= from <= 4 && db.rows[i].state == StateAt(from, r.state)
    requires from == 4 ==> HasResult(AsState(r.state))
    ensures var row, aim := db.rows[i], Aim(r.state);
            var to := if aim <= from then from else if from + budget < aim then from + budget else aim;
            Follow(prims, db, Stages(from, aim, r.state), Creator(row), r, now, budget) ==
            (Tables(db.rows[i := Staged(row, from, to, r, now)], db.events + Entries(row, from, to, r, now)), to >= aim)
    decreases 4 - from
  {
    hide FindRow, Step, WellFormedResult;
    var row, aim := db.rows[i], Aim(r.state);
    assert Staged(row, from, from, r, now) == row && db.rows[i := row] == db.rows && db.events + [] == db.events;
    if from < aim && budget > 0 {
      StageStep(prims, db, i, from, r, now);
      var mid := Tables(db.rows[i := Staged(row, from, from + 1, r, now)], db.events + [Entry(row, from + 1, r, now)]);
      FollowStages(prims, mid, i, from + 1, r, now, budget - 1);
      var to := if from + budget < aim then from + budget else aim;
      assert Stages(from, aim, r.state)[1..] == Stages(from + 1, aim, r.state);
      EntriesAlike(row, mid.rows[i], from + 1, to, r, now);
      assert mid.events + Entries(row, from + 1, to, r, now) == db.events + Entries(row, from, to, r, now);
      assert Staged(mid.rows[i], from + 1, to, r, now) == Staged(row, from, to, r, now);
      assert mid.rows[i := Staged(mid.rows[i], from + 1, to, r, now)] == db.rows[i := Staged(row, from, to, r, now)];
    } else {
      assert Entries(row, from, from, r, now) == [] && Tables(db.rows, db.events) == db;
      assert Follow(prims, db, Stages(from, aim, r.state), Creator(row), r, now, budget) == (db, from >= aim);
    }
  }

  lemma EntriesAlike(a: Row, b: Row, from: nat, to: nat, r: CommandResult, now: int)
    requires a.command == b.command && a.creator == b.creator && a.session == b.session && 1 <= from && to <= 4
    ensures Entries(a, from, to, r, now) == Entries(b, from, to, r, now)
    decreases if to > from then to - from else 0
  {
  }

  /** A result of this protocol, within its bounds. */
  ghost predicate Sound(prims: Primitives, r: CommandResult) {
    && r.controlVersion == Ascii("1") && r.messageType == Ascii("command_result") && r.commandId != []
    && |r.code| <= 128 && |r.data| <= 16384 && (r.data == [] || prims.ValidJson(r.data))
    && r.state != ResultState.Other
  }

  /** The answer and the tables for every report: nothing for an unsound or misaddressed one or an undelivered row; for
      a row at its end an acknowledgement exactly of the result it holds; otherwise as many stages towards the reported
      one as there are commits, and ok exactly if that one is reached. */
  ghost predicate AnswerIsExact(prims: Primitives, users: map<int, Role>, db: Tables, agentId: Octets,
                                r: CommandResult, now: int, budget: nat, outcome: (Tables, bool)) {
    var i := FindRow(db.rows, r.commandId);
    if !Sound(prims, r) || i == |db.rows| || db.rows[i].creator !in users || db.rows[i].command.agentId != agentId
       || db.rows[i].command.sequence != r.sequence then outcome == (db, false)
    else
      var row := db.rows[i];
      match row.state
      case Queued | Expired => outcome == (db, false)
      case Succeeded =>
        outcome == (db, && r.state == ResultState.Succeeded && row.code == r.code
                        && Trimmed(row.data) == Trimmed(if r.data == [] then Ascii("{}") else r.data))
      case Failed =>
        outcome == (db, && r.state == ResultState.Failed && row.code == r.code
                        && Trimmed(row.data) == Trimmed(if r.data == [] then Ascii("{}") else r.data))
      case Dispatched | Accepted | Running =>
        var from, aim := StageOf(row.state), Aim(r.state);
        var to := if aim <= from then from else if from + budget < aim then from + budget else aim;
        outcome == (Tables(db.rows[i := Staged(row, from, to, r, now)], db.events + Entries(row, from, to, r, now)),
                    to >= aim)
  }

  lemma ApplyAnswers(prims: Primitives, users: map<int, Role>, db: Tables, agentId: Octets, r: CommandResult, now: int,
                     budget: nat)
    ensures AnswerIsExact(prims, users, db, agentId, r, now, budget,
                          ApplyResult(prims, users, db, agentId, r, now, budget))
  {
    var i := FindRow(db.rows, r.commandId);
    if WellFormedResult(prims, r) && InProgress(users, db, agentId, r, i) {
      hide AnswerIsExact, ApplyResult;
      WalkAnswers(prims, users, db, agentId, r, now, budget, i);
    } else {
      hide FindRow, Follow, TargetPath, Staged, Entries, Trimmed;
    }
  }

  lemma WalkAnswers(prims: Primitives, users: map<int, Role>, db: Tables, agentId: Octets, r: CommandResult, now: int,
                    budget: nat, i: nat)
    requires WellFormedResult(prims, r) && InProgress(users, db, agentId, r, i)
    ensures AnswerIsExact(prims, users, db, agentId, r, now, budget,
                          ApplyResult(prims, users, db, agentId, r, now, budget))
  {
    ApplyFollows(prims, users, db, agentId, r, now, budget, i);
    PathIsStages(db.rows[i].state, r.state);
    FollowStages(prims, db, i, StageOf(db.rows[i].state), r, now, budget);
    hide FindRow, Follow, TargetPath, Staged, Entries, ApplyResult, Trimmed;
  }

  /** The eleven edges. */
  ghost predicate Edge(from: State, to: State) {
    (from, to) in {(State.Queued, State.Dispatched), (State.Queued, State.Failed), (State.Queued, State.Expired),
                   (State.Dispatched, State.Accepted), (State.Dispatched, State.Failed),
                   (State.Dispatched, State.Expired),
                   (State.Accepted, State.Running), (State.Accepted, State.Failed), (State.Accepted, State.Expired),
                   (State.Running, State.Succeeded), (State.Running, State.Failed)}
  }

  /** A transition is made exactly for fields within their bounds, an existing row and one of the eleven edges; it
      writes the time and the result columns of its own state only, and one event. */
  lemma TransitionIsExact(prims: Primitives, db: Tables, id: Octets, to: State, actor: Actor, reason: string,
                          code: string, data: Octets, now: int)
    ensures var t, i := Transition(prims, db, id, to, actor, reason, code, data, now), FindRow(db.rows, id);
            && (t.Some? <==>
                && id != [] && |reason| <= 128 && |code| <= 128 && |data| <= 16384
                && (data == [] || prims.ValidJson(data)) && i < |db.rows| && Edge(db.rows[i].state, to))
            && (t.Some? ==>
                  var row := db.rows[i];
                  && t.value.rows == db.rows[i :=
                       Row(row.command, to,
                           if to == State.Dispatched then now else row.dispatchedAt,
                           if to == State.Accepted then now else row.acceptedAt,
                           if to == State.Running then now else row.startedAt,
                           if to in {State.Succeeded, State.Failed, State.Expired} then now else row.finishedAt,
                           if to == State.Dispatched then row.attempts + 1 else row.attempts,
                           if to in {State.Succeeded, State.Failed} then code else row.code,
                           if to !in {State.Succeeded, State.Failed} then row.data
                           else if data == [] then Ascii("{}") else data,
                           row.creator, row.session)]
                  && t.value.events ==
                     db.events + [Event(id, actor.userId, actor.session, Some(row.state), to, now, reason)])
  {
    hide FindRow;
  }
}
