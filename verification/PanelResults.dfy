/** ApplyAgentResult: a result walks its row forward through up to three separate transactions
    (internal/panel/command/store.go:280-336). */
module PanelResults {
  import opened Bytes
  import opened Protocol
  import opened Wrappers
  import opened Panel

  function AsState(s: ResultState): State
    requires s != ResultState.Other
  {
    match s
    case Accepted => State.Accepted
    case Running => State.Running
    case Succeeded => State.Succeeded
    case Failed => State.Failed
  }

  /** The states still to be entered for a result reported on a row in this state. */
  function TargetPath(state: State, reported: ResultState): seq<State>
    requires reported != ResultState.Other
  {
    var toAccepted := if state == State.Dispatched then [State.Accepted] else [];
    var toRunning := if (state == State.Dispatched || state == State.Accepted) && reported != ResultState.Accepted
                     then [State.Running] else [];
    var toTerminal := if HasResult(AsState(reported)) then [AsState(reported)] else [];
    toAccepted + toRunning + toTerminal
  }

  function Reason(to: State): string {
    if to == State.Accepted then "agent_accepted" else if to == State.Running then "agent_running" else "agent_terminal"
  }

  function Step(prims: Primitives, db: Tables, to: State, actor: Actor, r: CommandResult, now: int): Option<Tables> {
    if HasResult(to) then Transition(prims, db, r.commandId, to, actor, Reason(to), r.code, r.data, now)
    else Transition(prims, db, r.commandId, to, actor, Reason(to), "", [], now)
  }

  /** The walk itself; the database, or the process, gives up after budget commits. */
  function Follow(prims: Primitives, db: Tables, path: seq<State>, actor: Actor, r: CommandResult, now: int,
                  budget: nat): (Tables, bool)
    decreases |path|
  {
    if path == [] then (db, true)
    else if budget == 0 then (db, false)
    else
      match Step(prims, db, path[0], actor, r, now)
      case None => (db, false)
      case Some(next) => Follow(prims, next, path[1..], actor, r, now, budget - 1)
  }

  predicate WellFormedResult(prims: Primitives, r: CommandResult) {
    && r.controlVersion == VERSION && r.messageType == RESULT_TYPE && r.commandId != [] && |r.code| <= 128
    && |r.data| <= 16384
    && (r.data == [] || prims.ValidJson(r.data)) && r.state != ResultState.Other
  }

  /** Whether the result answers this row at all: right agent, right sequence, known creator. */
  predicate Addressed(users: map<int, Role>, row: Row, agentId: Octets, r: CommandResult) {
    row.creator in users && row.command.agentId == agentId && row.command.sequence == r.sequence
  }

  function Creator(row: Row): Actor {
    Actor(row.creator, row.session)
  }

  function ApplyResult(prims: Primitives, users: map<int, Role>, db: Tables, agentId: Octets, r: CommandResult,
                       now: int, budget: nat): (Tables, bool) {
    var i := FindRow(db.rows, r.commandId);
    if !WellFormedResult(prims, r) || i == |db.rows| || !Addressed(users, db.rows[i], agentId, r) then (db, false)
    else
      var row := db.rows[i];
      if HasResult(row.state) then
        (db, row.state == AsState(r.state) && row.code == r.code && Trimmed(row.data) == Trimmed(OrEmptyObject(r.data)))
      else if row.state == State.Queued || row.state == State.Expired then (db, false)
      else Follow(prims, db, TargetPath(row.state, r.state), Creator(row), r, now, budget)
  }

  // ---------- effect ----------

  /** A path every step of which is an allowed transition, never back to dispatched. */
  ghost predicate Walkable(from: State, path: seq<State>)
    decreases |path|
  {
    path == [] || (AllowedTransition(from, path[0]) && path[0] != State.Dispatched && Walkable(path[0], path[1..]))
  }

  predicate Delivered(state: State) {
    state == State.Dispatched || state == State.Accepted || state == State.Running
  }

  lemma TargetPathWalkable(state: State, reported: ResultState)
    requires reported != ResultState.Other && Delivered(state)
    ensures Walkable(state, TargetPath(state, reported))
    ensures |TargetPath(state, reported)| <= 3
  {
    var path := TargetPath(state, reported);
    if |path| == 1 {
      assert path[1..] == [];
    } else if |path| == 2 {
      assert path[1..] == [path[1]] && [path[1]][1..] == [];
    } else if |path| == 3 {
      assert path[1..] == [path[1], path[2]] && [path[1], path[2]][1..] == [path[2]] && [path[2]][1..] == [];
      assert Walkable(path[1], [path[2]]);
    }
  }

  /** What is left to do after part of the path is what the row's new state asks for. */
  lemma TargetPathResumes(state: State, reported: ResultState, m: nat)
    requires reported != ResultState.Other && Delivered(state)
    requires 0 < m <= |TargetPath(state, reported)| && !HasResult(TargetPath(state, reported)[m - 1])
    ensures Delivered(TargetPath(state, reported)[m - 1])
    ensures TargetPath(TargetPath(state, reported)[m - 1], reported) == TargetPath(state, reported)[m..]
  {
  }

  function StateAfter(row: Row, path: seq<State>, m: nat): State
    requires m <= |path|
  {
    if m == 0 then row.state else path[m - 1]
  }

  /** db' is db after the first m states of path were entered for row i, times aside. */
  ghost predicate Walked(db: Tables, db': Tables, i: nat, path: seq<State>, m: nat, r: CommandResult)
    requires i < |db.rows| && m <= |path|
  {
    var row, ended := db.rows[i], StateAfter(db.rows[i], path, m);
    && |db'.rows| == |db.rows|
    && (forall k :: 0 <= k < |db.rows| && k != i ==> db'.rows[k] == db.rows[k])
    && db'.rows[i].command == row.command && db'.rows[i].creator == row.creator && db'.rows[i].session == row.session
    && db'.rows[i].attempts == row.attempts
    && db'.rows[i].state == ended
    && db'.rows[i].code == (if m > 0 && HasResult(ended) then r.code else row.code)
    && db'.rows[i].data == (if m > 0 && HasResult(ended) then OrEmptyObject(r.data) else row.data)
    && (forall id :: History(db', id) == if id == r.commandId then History(db, id) + path[..m] else History(db, id))
  }

  lemma LabelsAppend(es: seq<Event>, e: Event)
    ensures Labels(es + [e]) == Labels(es) + [e.to]
  {
  }

  lemma StepWalks(prims: Primitives, db: Tables, i: nat, to: State, actor: Actor, r: CommandResult, now: int)
    requires i < |db.rows| && FindRow(db.rows, r.commandId) == i && WellFormedResult(prims, r)
    requires AllowedTransition(db.rows[i].state, to) && to != State.Dispatched
    ensures Step(prims, db, to, actor, r, now).Some?
    ensures var db' := Step(prims, db, to, actor, r, now).value;
            Walked(db, db', i, [to], 1, r) && FindRow(db'.rows, r.commandId) == i
  {
    hide FindRow, EventsOf;
    var db' := Step(prims, db, to, actor, r, now).value;
    var e := db'.events[|db.events|];
    assert db'.events == db.events + [e];
    forall id ensures History(db', id) == if id == r.commandId then History(db, id) + [to][..1] else History(db, id) {
      EventsOfAppend(db.events, e, id);
      LabelsAppend(EventsOf(db.events, id), e);
      assert EventsOf(db.events, id) + [] == EventsOf(db.events, id);
      assert [to][..1] == [to];
    }
    SameCommandsSameRow(db.rows, db'.rows, r.commandId);
  }

  lemma SameCommandsSameRow(rows: seq<Row>, rows': seq<Row>, id: Octets)
    requires |rows| == |rows'| && forall k :: 0 <= k < |rows| ==> rows[k].command == rows'[k].command
    ensures FindRow(rows, id) == FindRow(rows', id)
  {
    if rows != [] {
      SameCommandsSameRow(rows[1..], rows'[1..], id);
    }
  }

  lemma WalkedThen(db: Tables, mid: Tables, db': Tables, i: nat, path: seq<State>, m: nat, r: CommandResult)
    requires i < |db.rows| && 0 < m <= |path| && i < |mid.rows|
    requires Walked(db, mid, i, [path[0]], 1, r) && Walked(mid, db', i, path[1..], m - 1, r)
    requires m > 1 ==> !HasResult(path[0])
    ensures Walked(db, db', i, path, m, r)
  {
    assert [path[0]][..1] + path[1..][..m - 1] == path[..m];
    forall id ensures History(db', id) == if id == r.commandId then History(db, id) + path[..m] else History(db, id) {
      if id == r.commandId {
        assert History(db', id) == History(db, id) + [path[0]][..1] + path[1..][..m - 1];
      }
    }
  }

  /** The walk enters exactly as many states as the budget allows, in order, and touches nothing else. */
  lemma {:induction false} FollowWalks(prims: Primitives, db: Tables, i: nat, path: seq<State>, actor: Actor,
                                       r: CommandResult, now: int, budget: nat)
    requires i < |db.rows| && FindRow(db.rows, r.commandId) == i && WellFormedResult(prims, r)
    requires Walkable(db.rows[i].state, path)
    ensures var (db', ok) := Follow(prims, db, path, actor, r, now, budget);
            var m := if budget < |path| then budget else |path|;
            Walked(db, db', i, path, m, r) && (ok <==> |path| <= budget) && FindRow(db'.rows, r.commandId) == i
    decreases |path|
  {
    hide FindRow, EventsOf, Step;
    if path == [] || budget == 0 {
      forall id ensures History(db, id) == History(db, id) + path[..0] {}
    } else {
      StepWalks(prims, db, i, path[0], actor, r, now);
      var mid := Step(prims, db, path[0], actor, r, now).value;
      FollowWalks(prims, mid, i, path[1..], actor, r, now, budget - 1);
      var m := if budget < |path| then budget else |path|;
      WalkedThen(db, mid, Follow(prims, db, path, actor, r, now, budget).0, i, path, m, r);
    }
  }

  // ---------- resumability ----------

  /** Equal but for the times at which things happened. */
  ghost predicate SameUpToTime(a: Tables, b: Tables) {
    && |a.rows| == |b.rows|
    && (forall k :: 0 <= k < |a.rows| ==> SameRow(a.rows[k], b.rows[k]))
    && (forall id :: History(a, id) == History(b, id))
  }

  predicate SameRow(a: Row, b: Row) {
    a.command == b.command && a.state == b.state && a.attempts == b.attempts && a.code == b.code && a.data == b.data
    && a.creator == b.creator && a.session == b.session
  }

  lemma WalkedTwice(db: Tables, mid: Tables, db2: Tables, full: Tables, i: nat, path: seq<State>, m: nat,
                    r: CommandResult)
    requires i < |db.rows| && m <= |path| && i < |mid.rows|
    requires Walked(db, mid, i, path, m, r) && Walked(db, full, i, path, |path|, r)
    requires Walked(mid, db2, i, path[m..], |path[m..]|, r)
    requires forall k :: 0 <= k < |path| - 1 ==> !HasResult(path[k])
    ensures SameUpToTime(db2, full)
  {
    hide History;
    assert path[m..][..|path[m..]|] == path[m..] && path[..m] + path[m..] == path && path[..|path|] == path;
    forall id ensures History(db2, id) == History(full, id) {
      if id == r.commandId {
        assert History(db2, id) == History(db, id) + path[..m] + path[m..];
      }
    }
    SameEnd(db, mid, db2, full, i, path, m, r);
    RowsAlike(db.rows, mid.rows, db2.rows, full.rows, i);
    hide Walked, HasResult, SameRow;
  }

  lemma RowsAlike(first: seq<Row>, mid: seq<Row>, a: seq<Row>, b: seq<Row>, i: nat)
    requires |first| == |mid| == |a| == |b| && i < |a| && SameRow(a[i], b[i])
    requires forall k :: 0 <= k < |a| && k != i ==> mid[k] == first[k] && a[k] == mid[k] && b[k] == first[k]
    ensures forall k :: 0 <= k < |a| ==> SameRow(a[k], b[k])
  {
    forall k | 0 <= k < |a| ensures SameRow(a[k], b[k]) {
      if k != i { assert mid[k] == first[k]; }
    }
  }

  lemma SameEnd(db: Tables, mid: Tables, db2: Tables, full: Tables, i: nat, path: seq<State>, m: nat, r: CommandResult)
    requires i < |db.rows| && m <= |path| && i < |mid.rows|
    requires Walked(db, mid, i, path, m, r) && Walked(db, full, i, path, |path|, r)
    requires Walked(mid, db2, i, path[m..], |path[m..]|, r)
    requires forall k :: 0 <= k < |path| - 1 ==> !HasResult(path[k])
    ensures i < |db2.rows| && i < |full.rows| && SameRow(db2.rows[i], full.rows[i])
  {
    hide History;
  }

  lemma OnlyTheLastIsTerminal(state: State, reported: ResultState)
    requires reported != ResultState.Other
    ensures var path := TargetPath(state, reported); forall k :: 0 <= k < |path| - 1 ==> !HasResult(path[k])
  {
  }

  /** ApplyAgentResult may stop after any number of its transactions: reporting the same result again
      ends in the same state, code, data and history as an uninterrupted call, with the same answer. */
  lemma ResultIsResumable(prims: Primitives, users: map<int, Role>, db: Tables, agentId: Octets, r: CommandResult,
                          budget: nat, now1: int, now2: int, now3: int)
    ensures var stopped := ApplyResult(prims, users, db, agentId, r, now1, budget).0;
            var resumed := ApplyResult(prims, users, stopped, agentId, r, now2, 3);
            var direct := ApplyResult(prims, users, db, agentId, r, now3, 3);
            SameUpToTime(resumed.0, direct.0) && resumed.1 == direct.1
  {
    hide FindRow, Follow, TargetPath, WellFormedResult;
    var i := FindRow(db.rows, r.commandId);
    if WellFormedResult(prims, r) && InProgress(users, db, agentId, r, i) {
      hide ApplyResult, SameUpToTime;
      ResumeWalk(prims, users, db, agentId, r, budget, now1, now2, now3);
    }
  }

  ghost predicate InProgress(users: map<int, Role>, db: Tables, agentId: Octets, r: CommandResult, i: nat) {
    && i < |db.rows| && FindRow(db.rows, r.commandId) == i && Addressed(users, db.rows[i], agentId, r)
    && Delivered(db.rows[i].state)
  }

  lemma ApplyWalks(prims: Primitives, users: map<int, Role>, db: Tables, agentId: Octets, r: CommandResult, now: int,
                   budget: nat, i: nat)
    requires WellFormedResult(prims, r) && InProgress(users, db, agentId, r, i)
    ensures var (db', ok) := ApplyResult(prims, users, db, agentId, r, now, budget);
            var path := TargetPath(db.rows[i].state, r.state);
            var m := if budget < |path| then budget else |path|;
            |path| <= 3 && Walked(db, db', i, path, m, r) && (ok <==> |path| <= budget)
                && FindRow(db'.rows, r.commandId) == i
  {
    hide FindRow, Follow, TargetPath, Walkable, History, Walked;
    var path := TargetPath(db.rows[i].state, r.state);
    TargetPathWalkable(db.rows[i].state, r.state);
    FollowWalks(prims, db, i, path, Creator(db.rows[i]), r, now, budget);
    ApplyFollows(prims, users, db, agentId, r, now, budget, i);
  }

  lemma ApplyFollows(prims: Primitives, users: map<int, Role>, db: Tables, agentId: Octets, r: CommandResult, now: int,
                     budget: nat, i: nat)
    requires WellFormedResult(prims, r) && InProgress(users, db, agentId, r, i)
    ensures ApplyResult(prims, users, db, agentId, r, now, budget)
            == Follow(prims, db, TargetPath(db.rows[i].state, r.state), Creator(db.rows[i]), r, now, budget)
  {
    hide FindRow, Follow, TargetPath;
  }

  /** A result already recorded is acknowledged without a change. */
  lemma RecordedIsAcknowledged(prims: Primitives, users: map<int, Role>, db: Tables, agentId: Octets, r: CommandResult,
                               now: int, budget: nat, i: nat)
    requires WellFormedResult(prims, r) && i < |db.rows| && FindRow(db.rows, r.commandId) == i
             && Addressed(users, db.rows[i], agentId, r)
    requires db.rows[i].state == AsState(r.state) && HasResult(db.rows[i].state)
    requires db.rows[i].code == r.code && db.rows[i].data == OrEmptyObject(r.data)
    ensures ApplyResult(prims, users, db, agentId, r, now, budget) == (db, true)
  {
    hide FindRow;
  }

  /** The second call, on tables where the first m states have been entered. */
  lemma ResumeFrom(prims: Primitives, users: map<int, Role>, db: Tables, stopped: Tables, direct: Tables,
                   agentId: Octets,
                   r: CommandResult, now: int, i: nat, m: nat)
    requires WellFormedResult(prims, r) && InProgress(users, db, agentId, r, i)
             && FindRow(stopped.rows, r.commandId) == i
    requires m <= |TargetPath(db.rows[i].state, r.state)|
    requires Walked(db, stopped, i, TargetPath(db.rows[i].state, r.state), m, r)
    requires Walked(db, direct, i, TargetPath(db.rows[i].state, r.state), |TargetPath(db.rows[i].state, r.state)|, r)
    ensures var resumed := ApplyResult(prims, users, stopped, agentId, r, now, 3);
            SameUpToTime(resumed.0, direct) && resumed.1
  {
    hide ApplyResult, FindRow, History;
    var path := TargetPath(db.rows[i].state, r.state);
    OnlyTheLastIsTerminal(db.rows[i].state, r.state);
    if m > 0 && HasResult(path[m - 1]) {
      assert m == |path| && path[m - 1] == AsState(r.state);
      RecordedIsAcknowledged(prims, users, stopped, agentId, r, now, 3, i);
    } else {
      if m > 0 { TargetPathResumes(db.rows[i].state, r.state, m); }
      hide TargetPath;
      assert TargetPath(stopped.rows[i].state, r.state) == path[m..];
      ApplyWalks(prims, users, stopped, agentId, r, now, 3, i);
      WalkedTwice(db, stopped, ApplyResult(prims, users, stopped, agentId, r, now, 3).0, direct, i, path, m, r);
    }
  }

  lemma ResumeWalk(prims: Primitives, users: map<int, Role>, db: Tables, agentId: Octets, r: CommandResult,
                   budget: nat, now1: int, now2: int, now3: int)
    requires WellFormedResult(prims, r) && InProgress(users, db, agentId, r, FindRow(db.rows, r.commandId))
    ensures var stopped := ApplyResult(prims, users, db, agentId, r, now1, budget).0;
            var resumed := ApplyResult(prims, users, stopped, agentId, r, now2, 3);
            var direct := ApplyResult(prims, users, db, agentId, r, now3, 3);
            SameUpToTime(resumed.0, direct.0) && resumed.1 == direct.1
  {
    var i := FindRow(db.rows, r.commandId);
    var path := TargetPath(db.rows[i].state, r.state);
    var m := if budget < |path| then budget else |path|;
    ApplyWalks(prims, users, db, agentId, r, now1, budget, i);
    ApplyWalks(prims, users, db, agentId, r, now3, 3, i);
    hide ApplyResult, FindRow, TargetPath, Walked, WellFormedResult, SameUpToTime;
    var stopped := ApplyResult(prims, users, db, agentId, r, now1, budget).0;
    var direct := ApplyResult(prims, users, db, agentId, r, now3, 3).0;
    ResumeFrom(prims, users, db, stopped, direct, agentId, r, now2, i, m);
  }

  /** A result for a command that was never marked as delivered, or has expired, is refused and changes nothing. */
  lemma UndeliveredIsRefused(prims: Primitives, users: map<int, Role>, db: Tables, agentId: Octets, r: CommandResult,
                             now: int, budget: nat, i: nat)
    requires i < |db.rows| && FindRow(db.rows, r.commandId) == i && !Delivered(db.rows[i].state)
    requires !HasResult(db.rows[i].state)
    ensures ApplyResult(prims, users, db, agentId, r, now, budget) == (db, false)
  {
    hide FindRow, Follow, TargetPath;
  }

  /** A row that has reached an end is never altered by any result, and its own result is acknowledged again. */
  lemma FinalRowsStay(prims: Primitives, users: map<int, Role>, db: Tables, agentId: Octets, r: CommandResult, now: int,
                      budget: nat, k: nat)
    requires k < |db.rows| && Final(db.rows[k].state)
    ensures var db' := ApplyResult(prims, users, db, agentId, r, now, budget).0;
            |db'.rows| == |db.rows| && db'.rows[k] == db.rows[k]
  {
    var i := FindRow(db.rows, r.commandId);
    if WellFormedResult(prims, r) && InProgress(users, db, agentId, r, i) {
      ApplyWalks(prims, users, db, agentId, r, now, budget, i);
    }
  }
}
