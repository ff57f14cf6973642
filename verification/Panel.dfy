/** The Panel's command tables as values: rows, the append-only event log and the transactions on them
    (internal/panel/command/store.go). */
module Panel {
  import opened Bytes
  import opened Protocol
  import opened Wrappers

  datatype State = Queued | Dispatched | Accepted | Running | Succeeded | Failed | Expired

  datatype Row = Row(
    command: Command, state: State, dispatchedAt: int, acceptedAt: int, startedAt: int, finishedAt: int,
    attempts: nat, code: string, data: Octets, creator: int, session: string)

  datatype Event = Event(commandId: Octets, actor: int, session: string, from: Option<State>, to: State, at: int,
                         reason: string)

  datatype Tables = Tables(rows: seq<Row>, events: seq<Event>)

  datatype Role = Viewer | Operator | Admin

  datatype Actor = Actor(userId: int, session: string)

  const NOBODY: Actor := Actor(0, "")

  predicate AllowedTransition(from: State, to: State) {
    match from
    case Queued => to == State.Dispatched || to == State.Failed || to == State.Expired
    case Dispatched => to == State.Accepted || to == State.Failed || to == State.Expired
    case Accepted => to == State.Running || to == State.Failed || to == State.Expired
    case Running => to == State.Succeeded || to == State.Failed
    case _ => false
  }

  predicate HasResult(state: State) {
    state == State.Succeeded || state == State.Failed
  }

  predicate Final(state: State) {
    HasResult(state) || state == State.Expired
  }

  /** Row holding this command identifier, or the number of rows. */
  function FindRow(rows: seq<Row>, id: Octets): (i: nat)
    ensures i <= |rows|
    ensures i < |rows| ==> rows[i].command.commandId == id
    ensures forall k :: 0 <= k < i ==> rows[k].command.commandId != id
  {
    if rows == [] || rows[0].command.commandId == id then 0
    else
      var rest := FindRow(rows[1..], id);
      assert forall k :: 1 <= k < 1 + rest ==> rows[k] == rows[1..][k - 1];
      1 + rest
  }

  /** SELECT COALESCE(MAX(sequence),0) for one agent. */
  function MaxSequence(rows: seq<Row>, agentId: Octets): (m: nat)
    ensures forall i :: 0 <= i < |rows| && rows[i].command.agentId == agentId ==> rows[i].command.sequence <= m
    ensures m == 0 || exists i :: 0 <= i < |rows| && rows[i].command.agentId == agentId && rows[i].command.sequence == m
    decreases |rows|
  {
    if rows == [] then 0
    else
      var n := |rows| - 1;
      var m := MaxSequence(rows[..n], agentId);
      assert forall i :: 0 <= i < n ==> rows[..n][i] == rows[i];
      if rows[n].command.agentId == agentId && rows[n].command.sequence > m then rows[n].command.sequence else m
  }

  /** The UPDATE statement of transitionAt. */
  function Moved(row: Row, to: State, now: int, code: string, data: Octets): Row {
    row.(state := to,
         dispatchedAt := if to == State.Dispatched then now else row.dispatchedAt,
         acceptedAt := if to == State.Accepted then now else row.acceptedAt,
         startedAt := if to == State.Running then now else row.startedAt,
         finishedAt := if Final(to) then now else row.finishedAt,
         attempts := row.attempts + if to == State.Dispatched then 1 else 0,
         code := if HasResult(to) then code else row.code,
         data := if HasResult(to) then data else row.data)
  }

  function OrEmptyObject(data: Octets): Octets {
    if data == [] then EMPTY_OBJECT else data
  }

  /** transitionAt as one transaction; None when it refuses or the row is missing. */
  function Transition(prims: Primitives, db: Tables, id: Octets, to: State, actor: Actor, reason: string,
                      code: string, data: Octets, now: int): Option<Tables> {
    var i := FindRow(db.rows, id);
    if id == [] || |reason| > 128 || |code| > 128 || |data| > 16384 || !prims.ValidJson(OrEmptyObject(data)) then None
    else if i == |db.rows| || !AllowedTransition(db.rows[i].state, to) then None
    else Some(Tables(db.rows[i := Moved(db.rows[i], to, now, code, OrEmptyObject(data))],
                     db.events + [Event(id, actor.userId, actor.session, Some(db.rows[i].state), to, now, reason)]))
  }

  /** The command and its two rows inserted for one agent of a batch. */
  function Signed(cmd: Command, sign: Command -> Octets): Command {
    cmd.(signature := sign(cmd))
  }

  function NewCommand(id: Octets, sequence: nat, agentId: Octets, action: Octets, payload: Octets, now: int,
                      sign: Command -> Octets): Command {
    Signed(Command(VERSION, COMMAND_TYPE, id, sequence, agentId, action, now, now + TTL(action), payload, []), sign)
  }

  function Created(db: Tables, cmd: Command, actor: Actor, now: int): Tables {
    Tables(db.rows + [Row(cmd, State.Queued, 0, 0, 0, 0, 0, "", EMPTY_OBJECT, actor.userId, actor.session)],
           db.events + [Event(cmd.commandId, actor.userId, actor.session, None, State.Queued, now, "created")])
  }

  // ---------- history ----------

  /** One command's events, oldest first. */
  function EventsOf(events: seq<Event>, id: Octets): seq<Event>
    decreases |events|
  {
    if events == [] then []
    else
      var n := |events| - 1;
      var front := EventsOf(events[..n], id);
      if events[n].commandId == id then front + [events[n]] else front
  }

  lemma EventsOfAppend(events: seq<Event>, e: Event, id: Octets)
    ensures EventsOf(events + [e], id) == EventsOf(events, id) + if e.commandId == id then [e] else []
  {
    var all := events + [e];
    assert all[..|all| - 1] == events;
  }

  function Labels(es: seq<Event>): seq<State> {
    seq(|es|, k requires 0 <= k < |es| => es[k].to)
  }

  function History(db: Tables, id: Octets): seq<State> {
    Labels(EventsOf(db.events, id))
  }

  /** A chain of allowed transitions from creation. */
  ghost predicate Path(es: seq<Event>) {
    && es != [] && es[0].from == None && es[0].to == State.Queued
    && (forall k :: 0 < k < |es| ==> es[k].from == Some(es[k - 1].to) && AllowedTransition(es[k - 1].to, es[k].to))
  }

  function Count(labels: seq<State>, s: State): nat
    decreases |labels|
  {
    if labels == [] then 0
    else Count(labels[..|labels| - 1], s) + if labels[|labels| - 1] == s then 1 else 0
  }

  lemma CountAppend(labels: seq<State>, s: State, x: State)
    ensures Count(labels + [x], s) == Count(labels, s) + if x == s then 1 else 0
  {
    assert (labels + [x])[..|labels|] == labels;
  }

  /** When the log last entered one of the states; 0 if it never did. */
  function EnteredAt(es: seq<Event>, states: set<State>): int
    decreases |es|
  {
    if es == [] then 0
    else if es[|es| - 1].to in states then es[|es| - 1].at
    else EnteredAt(es[..|es| - 1], states)
  }

  lemma EnteredAtAppend(es: seq<Event>, e: Event, states: set<State>)
    ensures EnteredAt(es + [e], states) == if e.to in states then e.at else EnteredAt(es, states)
  {
    assert (es + [e])[..|es|] == es;
  }

  /** Each time column holds the time of the event that set it. */
  ghost predicate StampsMatch(row: Row, es: seq<Event>) {
    && row.dispatchedAt == EnteredAt(es, {State.Dispatched}) && row.acceptedAt == EnteredAt(es, {State.Accepted})
    && row.startedAt == EnteredAt(es, {State.Running})
    && row.finishedAt == EnteredAt(es, {State.Succeeded, State.Failed, State.Expired})
  }

  ghost predicate RowMatches(row: Row, es: seq<Event>) {
    && Path(es) && StampsMatch(row, es)
    && es[|es| - 1].to == row.state
    && row.attempts == Count(Labels(es), State.Dispatched)
    && (!HasResult(row.state) ==> row.code == "" && row.data == EMPTY_OBJECT)
  }

  /** The per-agent sequences are 1, 2, 3, ... in the order of creation. */
  ghost predicate Contiguous(rows: seq<Row>) {
    forall i :: 0 <= i < |rows| ==> rows[i].command.sequence == MaxSequence(rows[..i], rows[i].command.agentId) + 1
  }

  /** The primary key: command identifiers are present and distinct. */
  ghost predicate DistinctRows(rows: seq<Row>) {
    && (forall i, j :: 0 <= i < j < |rows| ==> rows[i].command.commandId != rows[j].command.commandId)
    && (forall i :: 0 <= i < |rows| ==> rows[i].command.commandId != [])
  }

  ghost predicate HistoriesMatch(db: Tables) {
    forall i :: 0 <= i < |db.rows| ==> RowMatches(db.rows[i], EventsOf(db.events, db.rows[i].command.commandId))
  }

  ghost predicate NoStrayEvents(db: Tables) {
    forall e :: e in db.events ==> FindRow(db.rows, e.commandId) < |db.rows|
  }

  ghost predicate DbInv(db: Tables) {
    DistinctRows(db.rows) && Contiguous(db.rows) && HistoriesMatch(db) && NoStrayEvents(db)
  }

  function Rank(s: State): nat {
    match s
    case Queued => 0
    case Dispatched => 1
    case Accepted => 2
    case Running => 3
    case _ => 4
  }

  lemma {:induction false} PathClimbs(es: seq<Event>, k: nat)
    requires Path(es) && k < |es|
    ensures k <= Rank(es[k].to)
    ensures Count(Labels(es[..k + 1]), State.Dispatched) <= if Rank(es[k].to) >= 1 then 1 else 0
  {
    var labels := Labels(es[..k + 1]);
    assert labels[|labels| - 1] == es[k].to;
    if k > 0 {
      PathClimbs(es, k - 1);
      assert labels[..|labels| - 1] == Labels(es[..k]);
      assert Rank(es[k - 1].to) < Rank(es[k].to);
    } else {
      assert labels[..0] == [];
    }
  }

  lemma RowHistoryIsShort(row: Row, es: seq<Event>)
    requires RowMatches(row, es)
    ensures 1 <= |es| <= 5 && row.attempts <= 1
  {
    PathClimbs(es, |es| - 1);
    assert es[..|es|] == es;
  }

  /** Whatever happens to a command, its log has at most five entries, it is dispatched at most once,
      its time columns hold the times of its entries, and it carries a result only in the two states that have one. */
  lemma HistoryIsShort(db: Tables, i: nat)
    requires DbInv(db) && i < |db.rows|
    ensures var row, es := db.rows[i], EventsOf(db.events, db.rows[i].command.commandId);
            && Path(es) && 1 <= |es| <= 5 && row.attempts <= 1 && es[|es| - 1].to == row.state
            && (row.code != "" || row.data != EMPTY_OBJECT ==> HasResult(row.state))
            && StampsMatch(row, es)
  {
    hide EventsOf, Contiguous, DistinctRows, NoStrayEvents, Path, Count, StampsMatch;
    RowHistoryIsShort(db.rows[i], EventsOf(db.events, db.rows[i].command.commandId));
  }

  lemma LastOfMaxSequence(rows: seq<Row>, agentId: Octets)
    requires Contiguous(rows) && rows != []
    ensures var n := |rows| - 1;
            && Contiguous(rows[..n])
            && MaxSequence(rows, agentId) == (if rows[n].command.agentId == agentId then rows[n].command.sequence
                                              else MaxSequence(rows[..n], agentId))
            && (rows[n].command.agentId == agentId ==> rows[n].command.sequence == MaxSequence(rows[..n], agentId) + 1)
  {
    var n := |rows| - 1;
    assert forall i :: 0 <= i < n ==> rows[..n][..i] == rows[..i];
  }

  ghost predicate HasSequence(rows: seq<Row>, agentId: Octets, s: nat) {
    exists i :: 0 <= i < |rows| && rows[i].command.agentId == agentId && rows[i].command.sequence == s
  }

  lemma HasSequencePrefix(rows: seq<Row>, n: nat, agentId: Octets, s: nat)
    requires n <= |rows| && HasSequence(rows[..n], agentId, s)
    ensures HasSequence(rows, agentId, s)
  {
    var i :| 0 <= i < n && rows[..n][i].command.agentId == agentId && rows[..n][i].command.sequence == s;
    assert rows[i] == rows[..n][i];
  }

  lemma HasSequenceAt(rows: seq<Row>, i: nat)
    requires i < |rows|
    ensures HasSequence(rows, rows[i].command.agentId, rows[i].command.sequence)
  {
  }

  lemma MaxSequenceOfNone(agentId: Octets)
    ensures MaxSequence([], agentId) == 0
  {
  }

  /** For each agent the sequences 1 to MaxSequence all exist. */
  lemma {:induction false} SequencesHaveNoGap(rows: seq<Row>, agentId: Octets, s: nat)
    requires Contiguous(rows) && 1 <= s <= MaxSequence(rows, agentId)
    ensures HasSequence(rows, agentId, s)
    decreases |rows|
  {
    hide MaxSequence, Contiguous, HasSequence;
    if rows == [] {
      MaxSequenceOfNone(agentId);
      return;
    }
    var n := |rows| - 1;
    LastOfMaxSequence(rows, agentId);
    if rows[n].command.agentId == agentId && rows[n].command.sequence == s {
      HasSequenceAt(rows, n);
    } else {
      SequencesHaveNoGap(rows[..n], agentId, s);
      HasSequencePrefix(rows, n, agentId, s);
    }
  }

  /** ... and no others do ... */
  lemma SequencesInRange(rows: seq<Row>, agentId: Octets, s: nat)
    requires Contiguous(rows) && HasSequence(rows, agentId, s)
    ensures 1 <= s <= MaxSequence(rows, agentId)
  {
  }

  /** ... and each exists once, in ascending order of creation. */
  lemma {:induction false} SequencesAscend(rows: seq<Row>, i: nat, j: nat)
    requires Contiguous(rows) && i < j < |rows| && rows[i].command.agentId == rows[j].command.agentId
    ensures rows[i].command.sequence < rows[j].command.sequence
  {
    assert rows[..j][i] == rows[i];
  }

  // ---------- the transactions keep the history ----------

  /** An agent's sequences are exactly 1 to its largest, one row each. */
  lemma SequencesExact(rows: seq<Row>, i: nat, s: nat)
    requires Contiguous(rows) && i < |rows|
    ensures var agentId := rows[i].command.agentId;
            && (1 <= s <= MaxSequence(rows, agentId) <==> HasSequence(rows, agentId, s))
            && (forall j :: 0 <= j < |rows| && j != i && rows[j].command.agentId == agentId ==>
                  rows[j].command.sequence != rows[i].command.sequence)
  {
    hide Contiguous, MaxSequence, HasSequence;
    var agentId := rows[i].command.agentId;
    if HasSequence(rows, agentId, s) {
      SequencesInRange(rows, agentId, s);
    } else if 1 <= s <= MaxSequence(rows, agentId) {
      SequencesHaveNoGap(rows, agentId, s);
    }
    forall j | 0 <= j < |rows| && j != i && rows[j].command.agentId == agentId
      ensures rows[j].command.sequence != rows[i].command.sequence
    {
      if j < i { SequencesAscend(rows, j, i); } else { SequencesAscend(rows, i, j); }
    }
  }

  lemma MaxSequenceIgnoresStates(rows: seq<Row>, rows': seq<Row>, agentId: Octets)
    requires |rows| == |rows'| && forall i :: 0 <= i < |rows| ==> rows[i].command == rows'[i].command
    ensures MaxSequence(rows, agentId) == MaxSequence(rows', agentId)
    decreases |rows|
  {
    if rows != [] {
      MaxSequenceIgnoresStates(rows[..|rows| - 1], rows'[..|rows| - 1], agentId);
    }
  }

  lemma ContiguousIgnoresStates(rows: seq<Row>, rows': seq<Row>)
    requires |rows| == |rows'| && forall i :: 0 <= i < |rows| ==> rows[i].command == rows'[i].command
    requires Contiguous(rows)
    ensures Contiguous(rows')
  {
    forall i | 0 <= i < |rows'|
      ensures rows'[i].command.sequence == MaxSequence(rows'[..i], rows'[i].command.agentId) + 1
    {
      MaxSequenceIgnoresStates(rows[..i], rows'[..i], rows[i].command.agentId);
    }
  }

  lemma FindRowOfRow(rows: seq<Row>, i: nat)
    requires DistinctRows(rows) && i < |rows|
    ensures FindRow(rows, rows[i].command.commandId) == i
  {
  }

  lemma RowMatchesStep(row: Row, es: seq<Event>, e: Event, to: State, now: int, code: string, data: Octets)
    requires RowMatches(row, es) && AllowedTransition(row.state, to) && e.from == Some(row.state) && e.to == to
             && e.at == now
    ensures RowMatches(Moved(row, to, now, code, data), es + [e])
  {
    hide StampsMatch, Count, Labels, Path;
    LabelsLonger(es, e);
    PathLonger(es, e);
    CountAppend(Labels(es), State.Dispatched, to);
    StampsStep(row, es, e, to, now, code, data);
  }

  lemma LabelsLonger(es: seq<Event>, e: Event)
    ensures Labels(es + [e]) == Labels(es) + [e.to]
  {
  }

  lemma PathLonger(es: seq<Event>, e: Event)
    requires Path(es) && e.from == Some(es[|es| - 1].to) && AllowedTransition(es[|es| - 1].to, e.to)
    ensures Path(es + [e])
  {
    hide AllowedTransition;
  }

  lemma StampsStep(row: Row, es: seq<Event>, e: Event, to: State, now: int, code: string, data: Octets)
    requires StampsMatch(row, es) && e.to == to && e.at == now
    ensures StampsMatch(Moved(row, to, now, code, data), es + [e])
  {
    EnteredAtAppend(es, e, {State.Dispatched});
    EnteredAtAppend(es, e, {State.Accepted});
    EnteredAtAppend(es, e, {State.Running});
    EnteredAtAppend(es, e, {State.Succeeded, State.Failed, State.Expired});
    hide EnteredAt;
  }

  lemma OtherHistoriesStay(db: Tables, e: Event, row: Row)
    requires RowMatches(row, EventsOf(db.events, row.command.commandId)) && e.commandId != row.command.commandId
    ensures RowMatches(row, EventsOf(db.events + [e], row.command.commandId))
  {
    EventsOfAppend(db.events, e, row.command.commandId);
    assert EventsOf(db.events, row.command.commandId) + [] == EventsOf(db.events, row.command.commandId);
  }

  lemma MoveKeepsHistories(db: Tables, i: nat, e: Event, to: State, now: int, code: string, data: Octets)
    requires DistinctRows(db.rows) && HistoriesMatch(db) && i < |db.rows| && AllowedTransition(db.rows[i].state, to)
    requires e.commandId == db.rows[i].command.commandId && e.from == Some(db.rows[i].state) && e.to == to
             && e.at == now
    ensures HistoriesMatch(Tables(db.rows[i := Moved(db.rows[i], to, now, code, data)], db.events + [e]))
  {
    var rows' := db.rows[i := Moved(db.rows[i], to, now, code, data)];
    forall k | 0 <= k < |rows'|
      ensures RowMatches(rows'[k], EventsOf(db.events + [e], rows'[k].command.commandId))
    {
      hide RowMatches;
      if k == i {
        EventsOfAppend(db.events, e, e.commandId);
        RowMatchesStep(db.rows[i], EventsOf(db.events, e.commandId), e, to, now, code, data);
      } else {
        OtherHistoriesStay(db, e, db.rows[k]);
      }
    }
  }

  lemma EventKeepsStrays(db: Tables, rows': seq<Row>, e: Event)
    requires NoStrayEvents(db) && |db.rows| <= |rows'|
    requires forall k :: 0 <= k < |db.rows| ==> rows'[k].command == db.rows[k].command
    requires exists k :: 0 <= k < |rows'| && rows'[k].command.commandId == e.commandId
    ensures NoStrayEvents(Tables(rows', db.events + [e]))
  {
    forall x | x in db.events + [e] ensures FindRow(rows', x.commandId) < |rows'| {
      if x in db.events {
        var k := FindRow(db.rows, x.commandId);
        assert rows'[k].command == db.rows[k].command;
      }
    }
  }

  lemma TransitionKeepsInv(prims: Primitives, db: Tables, id: Octets, to: State, actor: Actor, reason: string,
                           code: string, data: Octets, now: int)
    requires DbInv(db) && Transition(prims, db, id, to, actor, reason, code, data, now).Some?
    ensures DbInv(Transition(prims, db, id, to, actor, reason, code, data, now).value)
  {
    var i := FindRow(db.rows, id);
    hide EventsOf, MaxSequence, RowMatches, Moved, FindRow;
    MoveKeepsInv(db, i, Event(id, actor.userId, actor.session, Some(db.rows[i].state), to, now, reason), to, now, code,
                 OrEmptyObject(data));
  }

  lemma MoveKeepsInv(db: Tables, i: nat, e: Event, to: State, now: int, code: string, data: Octets)
    requires DbInv(db) && i < |db.rows| && AllowedTransition(db.rows[i].state, to)
    requires e.commandId == db.rows[i].command.commandId && e.from == Some(db.rows[i].state) && e.to == to
             && e.at == now
    ensures DbInv(Tables(db.rows[i := Moved(db.rows[i], to, now, code, data)], db.events + [e]))
  {
    hide EventsOf, MaxSequence, RowMatches, Moved, FindRow, HistoriesMatch, Contiguous, NoStrayEvents,
         AllowedTransition;
    var rows' := db.rows[i := Moved(db.rows[i], to, now, code, data)];
    MovedSameCommand(db.rows[i], to, now, code, data);
    assert rows'[i].command == db.rows[i].command;
    ContiguousIgnoresStates(db.rows, rows');
    MoveKeepsHistories(db, i, e, to, now, code, data);
    EventKeepsStrays(db, rows', e);
  }

  lemma MovedSameCommand(row: Row, to: State, now: int, code: string, data: Octets)
    ensures Moved(row, to, now, code, data).command == row.command
  {
  }

  lemma NoEventsForUnknown(events: seq<Event>, id: Octets)
    requires forall e :: e in events ==> e.commandId != id
    ensures EventsOf(events, id) == []
    decreases |events|
  {
    if events != [] {
      NoEventsForUnknown(events[..|events| - 1], id);
    }
  }

  lemma FirstEvent(cmd: Command, actor: Actor, now: int)
    ensures RowMatches(Row(cmd, State.Queued, 0, 0, 0, 0, 0, "", EMPTY_OBJECT, actor.userId, actor.session),
                       [Event(cmd.commandId, actor.userId, actor.session, None, State.Queued, now, "created")])
  {
    var es := [Event(cmd.commandId, actor.userId, actor.session, None, State.Queued, now, "created")];
    assert Labels(es) == [] + [State.Queued];
    CountAppend([], State.Dispatched, State.Queued);
  }

  lemma CreateKeepsHistories(db: Tables, cmd: Command, actor: Actor, now: int)
    requires HistoriesMatch(db) && NoStrayEvents(db) && FindRow(db.rows, cmd.commandId) == |db.rows|
    ensures HistoriesMatch(Created(db, cmd, actor, now))
  {
    var db' := Created(db, cmd, actor, now);
    var e := db'.events[|db.events|];
    NoEventsForUnknown(db.events, cmd.commandId);
    EventsOfAppend(db.events, e, cmd.commandId);
    FirstEvent(cmd, actor, now);
    assert [] + [e] == [e];
    hide RowMatches, EventsOf, NoStrayEvents, FindRow;
    forall k | 0 <= k < |db.rows|
      ensures RowMatches(db.rows[k], EventsOf(db'.events, db.rows[k].command.commandId))
    {
      OtherHistoriesStay(db, e, db.rows[k]);
    }
  }

  lemma CreateKeepsContiguous(rows: seq<Row>, row: Row)
    requires Contiguous(rows) && row.command.sequence == MaxSequence(rows, row.command.agentId) + 1
    ensures Contiguous(rows + [row])
  {
    var rows' := rows + [row];
    forall i | 0 <= i < |rows'|
      ensures rows'[i].command.sequence == MaxSequence(rows'[..i], rows'[i].command.agentId) + 1
    {
      assert rows'[..i] == if i < |rows| then rows[..i] else rows;
    }
  }

  lemma CreateKeepsDistinct(rows: seq<Row>, row: Row)
    requires DistinctRows(rows) && FindRow(rows, row.command.commandId) == |rows| && row.command.commandId != []
    ensures DistinctRows(rows + [row])
  {
  }

  lemma CreateKeepsInv(db: Tables, cmd: Command, actor: Actor, now: int)
    requires DbInv(db) && FindRow(db.rows, cmd.commandId) == |db.rows| && cmd.commandId != []
    requires cmd.sequence == MaxSequence(db.rows, cmd.agentId) + 1
    ensures DbInv(Created(db, cmd, actor, now))
  {
    var db' := Created(db, cmd, actor, now);
    hide FindRow, EventsOf, MaxSequence, RowMatches;
    var row, e := db'.rows[|db.rows|], db'.events[|db.events|];
    assert db' == Tables(db.rows + [row], db.events + [e]) && row.command == cmd;
    assert HistoriesMatch(db') by { CreateKeepsHistories(db, cmd, actor, now); }
    assert Contiguous(db'.rows) by { CreateKeepsContiguous(db.rows, row); }
    assert DistinctRows(db'.rows) by { CreateKeepsDistinct(db.rows, row); }
    assert NoStrayEvents(db') by {
      hide HistoriesMatch, Contiguous, DistinctRows, Created, MaxSequence, NoStrayEvents;
      assert db'.rows[|db.rows|].command.commandId == e.commandId;
      EventKeepsStrays(db, db'.rows, e);
    }
  }
}
