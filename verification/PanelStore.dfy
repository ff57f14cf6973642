/** Store in the source's form: transactions and loops over the command tables (internal/panel/command/store.go). */
module PanelStore {
  import opened Bytes
  import opened Protocol
  import opened Wrappers
  import opened Panel
  import opened PanelResults
  import opened PanelAnswers

  const MAX_BATCH: nat := 100

  datatype Batch = Batch(
    actor: Actor, agentIds: seq<Octets>, action: Octets, payload: Octets, ids: seq<Octets>, now: int,
    sign: Command -> Octets)

  ghost predicate Distinct(xs: seq<Octets>) {
    forall i, j :: 0 <= i < j < |xs| ==> xs[i] != xs[j]
  }

  predicate BatchShape(prims: Primitives, b: Batch) {
    && b.actor.userId > 0 && 0 < |b.agentIds| <= MAX_BATCH && TTL(b.action) > 0
    && 0 < |b.payload| <= MAX_MESSAGE_BYTES && prims.ValidJson(b.payload)
  }

  function BatchRowAt(front: seq<Row>, b: Batch, k: nat): Row
    requires k < |b.agentIds| == |b.ids|
  {
    var cmd :=
        NewCommand(b.ids[k], MaxSequence(front, b.agentIds[k]) + 1, b.agentIds[k], b.action, b.payload, b.now, b.sign);
    Row(cmd, State.Queued, 0, 0, 0, 0, 0, "", EMPTY_OBJECT, b.actor.userId, b.actor.session)
  }

  /** The tables inside the transaction after its first n inserts. */
  function BatchOf(db: Tables, b: Batch, n: nat): Tables
    requires n <= |b.agentIds| == |b.ids|
  {
    if n == 0 then db
    else
      var front := BatchOf(db, b, n - 1);
      Created(front, BatchRowAt(front.rows, b, n - 1).command, b.actor, b.now)
  }

  lemma BatchStep(db: Tables, b: Batch, n: nat)
    requires n < |b.agentIds| == |b.ids|
    ensures var front := BatchOf(db, b, n);
            && BatchOf(db, b, n + 1) == Created(front, BatchRowAt(front.rows, b, n).command, b.actor, b.now)
            && BatchOf(db, b, n + 1).rows == front.rows + [BatchRowAt(front.rows, b, n)]
  {
    hide MaxSequence, NewCommand;
  }

  lemma BatchRowFields(front: seq<Row>, b: Batch, k: nat)
    requires k < |b.agentIds| == |b.ids|
    ensures var cmd := BatchRowAt(front, b, k).command;
            && cmd.agentId == b.agentIds[k] && cmd.commandId == b.ids[k]
            && cmd.sequence == MaxSequence(front, b.agentIds[k]) + 1
  {
    hide MaxSequence, TTL, Ascii;
  }

  /** When a batch is committed: sound arguments, fresh identifiers and a database that fails nowhere. */
  ghost predicate BatchAccepted(prims: Primitives, db: Tables, b: Batch, faults: seq<bool>, commitFails: bool)
    requires |b.agentIds| == |b.ids| == |faults|
  {
    && BatchShape(prims, b) && Distinct(b.agentIds) && (forall k :: 0 <= k < |b.agentIds| ==> b.agentIds[k] != [])
    && Distinct(b.ids) && (forall k :: 0 <= k < |b.ids| ==> FindRow(db.rows, b.ids[k]) == |db.rows|)
    && !commitFails && (forall k :: 0 <= k < |faults| ==> !faults[k])
  }

  lemma MaxSequenceSkips(rows: seq<Row>, row: Row, agentId: Octets)
    ensures MaxSequence(rows + [row], agentId) ==
            if row.command.agentId == agentId && row.command.sequence > MaxSequence(rows, agentId) then
                row.command.sequence
            else MaxSequence(rows, agentId)
  {
    assert (rows + [row])[..|rows|] == rows;
  }

  /** Every agent of a batch gets its own next sequence, whatever the other agents of the batch get. */
  lemma {:induction false} BatchSequences(db: Tables, b: Batch, n: nat, agentId: Octets)
    requires n <= |b.agentIds| == |b.ids|
    requires forall k :: 0 <= k < n ==> b.agentIds[k] != agentId
    ensures MaxSequence(BatchOf(db, b, n).rows, agentId) == MaxSequence(db.rows, agentId)
  {
    hide MaxSequence, BatchOf, BatchRowAt;
    if n == 0 {
      BatchStart(db, b);
    } else {
      BatchSequences(db, b, n - 1, agentId);
      var front := BatchOf(db, b, n - 1).rows;
      BatchStep(db, b, n - 1);
      BatchRowFields(front, b, n - 1);
      MaxSequenceSkips(front, BatchRowAt(front, b, n - 1), agentId);
    }
  }

  /** The k-th inserted row: the requested command, numbered next for its agent, signed, queued, valid for its TTL. */
  lemma {:induction false} BatchRow(db: Tables, b: Batch, n: nat, k: nat)
    requires k < n <= |b.agentIds| == |b.ids| && Distinct(b.agentIds)
    ensures |BatchOf(db, b, n).rows| == |db.rows| + n
    ensures BatchOf(db, b, n).rows[..|db.rows|] == db.rows
    ensures var row := BatchOf(db, b, n).rows[|db.rows| + k];
            && row.state == State.Queued
            && row.command == NewCommand(b.ids[k], MaxSequence(db.rows, b.agentIds[k]) + 1, b.agentIds[k], b.action,
                                         b.payload, b.now, b.sign)
  {
    hide MaxSequence, NewCommand, BatchOf;
    var front, m := BatchOf(db, b, n - 1).rows, |db.rows|;
    if n == 1 {
      BatchStart(db, b);
    } else {
      BatchRow(db, b, n - 1, if k < n - 1 then k else 0);
    }
    BatchStep(db, b, n - 1);
    var rows := BatchOf(db, b, n).rows;
    assert |front| == m + n - 1 && front[..m] == db.rows;
    assert rows[..m] == front[..m];
    if k == n - 1 {
      BatchSequences(db, b, n - 1, b.agentIds[k]);
      assert rows[m + k] == BatchRowAt(front, b, k);
    } else {
      assert rows[m + k] == front[m + k];
    }
  }

  /** What a batch must be before any agent of it is looked at. */
  lemma BatchShapeMeans(prims: Primitives, b: Batch)
    ensures BatchShape(prims, b) <==>
            && b.actor.userId >= 1 && 1 <= |b.agentIds| <= 100 && 1 <= |b.payload| <= 65536
            && prims.ValidJson(b.payload)
            && (b.action == Ascii("collect_now") || b.action == Ascii("reload_config")
                || b.action == Ascii("self_check") || b.action == Ascii("upgrade"))
  {
  }

  /** A row as CreateBatch inserts it for agent k: five minutes, half an hour or a day to live from now, signed as it
      stands, on behalf of the actor. */
  ghost predicate InsertedFor(b: Batch, k: nat, sequence: nat, row: Row)
    requires k < |b.agentIds| == |b.ids|
  {
    && row == Row(row.command, State.Queued, 0, 0, 0, 0, 0, "", Ascii("{}"), b.actor.userId, b.actor.session)
    && row.command.controlVersion == Ascii("1") && row.command.messageType == Ascii("command")
    && row.command.commandId == b.ids[k] && row.command.agentId == b.agentIds[k] && row.command.sequence == sequence
    && row.command.action == b.action && row.command.payload == b.payload && row.command.issuedAt == b.now
    && (b.action == Ascii("collect_now") ==> row.command.expiresAt == b.now + 300)
    && (b.action == Ascii("reload_config") || b.action == Ascii("self_check") ==>
          row.command.expiresAt == b.now + 1800)
    && (b.action == Ascii("upgrade") ==> row.command.expiresAt == b.now + 86400)
    && row.command.signature == b.sign(row.command.(signature := []))
  }

  lemma BatchRowAtColumns(front: seq<Row>, b: Batch, k: nat)
    requires k < |b.agentIds| == |b.ids|
    ensures InsertedFor(b, k, MaxSequence(front, b.agentIds[k]) + 1, BatchRowAt(front, b, k))
  {
    assert Ascii("collect_now")[0] == 'c' as int as byte && Ascii("upgrade")[0] == 'u' as int as byte;
    assert Ascii("reload_config")[0] == 'r' as int as byte && Ascii("self_check")[0] == 's' as int as byte;
    hide MaxSequence, Ascii;
    var cmd := BatchRowAt(front, b, k).command;
    assert cmd.(signature := []) == Command(VERSION, COMMAND_TYPE, b.ids[k], MaxSequence(front, b.agentIds[k]) + 1,
                                            b.agentIds[k], b.action, b.now, b.now + TTL(b.action), b.payload, []);
  }

  lemma {:induction false} RowStays(db: Tables, b: Batch, n: nat, k: nat)
    requires k < n <= |b.agentIds| == |b.ids|
    ensures |BatchOf(db, b, k).rows| == |db.rows| + k && |BatchOf(db, b, n).rows| == |db.rows| + n
    ensures BatchOf(db, b, n).rows[|db.rows| + k] == BatchRowAt(BatchOf(db, b, k).rows, b, k)
  {
    hide MaxSequence, BatchOf, BatchRowAt;
    BatchStart(db, b);
    BatchStep(db, b, n - 1);
    if n > 1 { RowStays(db, b, n - 1, if k < n - 1 then k else 0); }
  }

  /** The k-th row of a batch ... */
  lemma BatchColumns(db: Tables, b: Batch, n: nat, k: nat)
    requires k < n <= |b.agentIds| == |b.ids| && Distinct(b.agentIds)
    ensures |BatchOf(db, b, n).rows| == |db.rows| + n && BatchOf(db, b, n).rows[..|db.rows|] == db.rows
    ensures InsertedFor(b, k, MaxSequence(db.rows, b.agentIds[k]) + 1, BatchOf(db, b, n).rows[|db.rows| + k])
  {
    hide MaxSequence, BatchOf, InsertedFor, BatchRowAt, NewCommand;
    BatchRow(db, b, n, k);
    RowStays(db, b, n, k);
    BatchSequences(db, b, k, b.agentIds[k]);
    BatchRowAtColumns(BatchOf(db, b, k).rows, b, k);
  }

  /** ... and its event. */
  lemma {:induction false} BatchEvents(db: Tables, b: Batch, n: nat, k: nat)
    requires k < n <= |b.agentIds| == |b.ids|
    ensures |BatchOf(db, b, n).events| == |db.events| + n && BatchOf(db, b, n).events[..|db.events|] == db.events
    ensures BatchOf(db, b, n).events[|db.events| + k] ==
            Event(b.ids[k], b.actor.userId, b.actor.session, None, State.Queued, b.now, "created")
  {
    hide MaxSequence, BatchOf, BatchRowAt;
    var front, all := BatchOf(db, b, n - 1), BatchOf(db, b, n);
    BatchStart(db, b);
    BatchStep(db, b, n - 1);
    BatchRowFields(front.rows, b, n - 1);
    if n > 1 { BatchEvents(db, b, n - 1, if k < n - 1 then k else 0); }
    var e := Event(b.ids[n - 1], b.actor.userId, b.actor.session, None, State.Queued, b.now, "created");
    assert all.events == front.events + [e];
    assert all.events[..|db.events|] == front.events[..|db.events|];
  }

  lemma BatchStart(db: Tables, b: Batch)
    requires |b.agentIds| == |b.ids|
    ensures BatchOf(db, b, 0) == db
  {
  }

  /** Inside the transaction an identifier is free exactly if it is free in the table and new in the batch. */
  lemma {:induction false} KeyFree(rows: seq<Row>, added: seq<Row>, id: Octets)
    ensures FindRow(rows + added, id) == |rows + added| <==>
            FindRow(rows, id) == |rows| && forall k :: 0 <= k < |added| ==> added[k].command.commandId != id
  {
    var all := rows + added;
    if FindRow(all, id) == |all| {
      forall k | 0 <= k < |added| ensures added[k].command.commandId != id {
        assert all[|rows| + k] == added[k];
      }
      assert forall k :: 0 <= k < |rows| ==> all[k] == rows[k];
    }
  }

  predicate Overdue(row: Row, now: int) {
    (row.state == State.Queued || row.state == State.Dispatched) && row.command.expiresAt <= now
  }

  function ExpiredRow(row: Row, now: int): Row {
    if Overdue(row, now) then Moved(row, State.Expired, now, "", EMPTY_OBJECT) else row
  }

  function OverdueCount(rows: seq<Row>, now: int): nat {
    if rows == [] then 0 else OverdueCount(rows[..|rows| - 1], now) + if Overdue(rows[|rows| - 1], now) then 1 else 0
  }

  /** Positions of the rows that are overdue. */
  ghost function LatePositions(rows: seq<Row>, now: int): set<nat> {
    set k: nat | k < |rows| && (rows[k].state == State.Queued || rows[k].state == State.Dispatched)
                 && rows[k].command.expiresAt <= now
  }

  lemma NoneLate(now: int)
    ensures LatePositions([], now) == {}
  {
  }

  lemma LateNext(rows: seq<Row>, n: nat, now: int)
    requires |rows| == n + 1
    ensures LatePositions(rows, now) == LatePositions(rows[..n], now) + if Overdue(rows[n], now) then {n} else {}
    ensures n !in LatePositions(rows[..n], now)
  {
    assert forall k :: 0 <= k < n ==> rows[..n][k] == rows[k];
  }

  lemma {:induction false} CountIsSize(rows: seq<Row>, now: int)
    ensures OverdueCount(rows, now) == |LatePositions(rows, now)|
    decreases |rows|
  {
    hide LatePositions, Overdue;
    if rows != [] {
      var n := |rows| - 1;
      CountIsSize(rows[..n], now);
      LateNext(rows, n, now);
    } else {
      NoneLate(now);
    }
  }

  /** The undelivered rows whose time is up have ended, at that time, and nothing else has changed. */
  ghost predicate ExpiredExactly(before: seq<Row>, after: seq<Row>, now: int) {
    && |after| == |before|
    && forall k :: 0 <= k < |before| ==>
         after[k] == if (before[k].state == State.Queued || before[k].state == State.Dispatched)
                        && before[k].command.expiresAt <= now
                     then before[k].(state := State.Expired, finishedAt := now) else before[k]
  }

  lemma AllExpired(before: seq<Row>, after: seq<Row>, now: int)
    requires |after| == |before| && forall k :: 0 <= k < |before| ==> after[k] == ExpiredRow(before[k], now)
    ensures ExpiredExactly(before, after, now)
  {
  }

  /** The log has grown by expiries at this time by nobody. */
  ghost predicate LogsExpiry(before: seq<Event>, after: seq<Event>, now: int) {
    && |before| <= |after| && after[..|before|] == before
    && forall k :: |before| <= k < |after| ==>
         var e := after[k];
         e.actor == 0 && e.session == "" && e.to == State.Expired && e.at == now && e.reason == "ttl_expired"
  }

  lemma LogsNothing(events: seq<Event>, now: int)
    ensures LogsExpiry(events, events, now)
  {
  }

  lemma LogsOneMore(prims: Primitives, before: seq<Event>, db: Tables, id: Octets, now: int)
    requires LogsExpiry(before, db.events, now)
    ensures var t := Transition(prims, db, id, State.Expired, NOBODY, "ttl_expired", "", [], now);
            t.Some? ==> LogsExpiry(before, t.value.events, now)
  {
    hide FindRow, AllowedTransition, Moved;
  }

  lemma NoCommands()
    ensures CommandsOf([]) == []
  {
  }

  lemma OneMoreCommand(rows: seq<Row>, row: Row)
    ensures CommandsOf(rows + [row]) == CommandsOf(rows) + [row.command]
  {
  }

  lemma NoneOverdue(now: int)
    ensures OverdueCount([], now) == 0
  {
  }

  lemma CountNext(rows: seq<Row>, k: nat, now: int)
    requires k < |rows|
    ensures OverdueCount(rows[..k + 1], now) == OverdueCount(rows[..k], now) + if Overdue(rows[k], now) then 1 else 0
  {
    hide Overdue;
    assert rows[..k + 1][..k] == rows[..k];
  }

  lemma {:induction false} CountGrows(rows: seq<Row>, k: nat, now: int)
    requires k <= |rows|
    ensures OverdueCount(rows[..k], now) <= OverdueCount(rows, now)
    decreases |rows| - k
  {
    hide OverdueCount, Overdue;
    if k < |rows| {
      CountNext(rows, k, now);
      CountGrows(rows, k + 1, now);
    } else {
      assert rows[..k] == rows;
    }
  }

  lemma KeptUnlessOverdue(row: Row, now: int)
    ensures !Overdue(row, now) ==> ExpiredRow(row, now) == row
  {
  }

  function CommandsOf(rows: seq<Row>): seq<Command> {
    seq(|rows|, k requires 0 <= k < |rows| => rows[k].command)
  }

  lemma CommandsInOrder(rows: seq<Row>, k: nat)
    requires k < |rows|
    ensures |CommandsOf(rows)| == |rows| && CommandsOf(rows)[k] == rows[k].command
  {
  }

  /** The WHERE clause of QueuedFor. */
  predicate Waiting(row: Row, agentId: Octets, now: int) {
    row.command.agentId == agentId &&
    (((row.state == State.Queued || row.state == State.Dispatched) && row.command.expiresAt > now)
     || row.state == State.Accepted || row.state == State.Running)
  }

  /** Positions of the rows to deliver, in table order. */
  function Outstanding(rows: seq<Row>, agentId: Octets, now: int): (at: seq<nat>)
    ensures forall k :: 0 <= k < |at| ==> at[k] < |rows| && Waiting(rows[at[k]], agentId, now)
    ensures forall j, k :: 0 <= j < k < |at| ==> at[j] < at[k]
    ensures forall i :: 0 <= i < |rows| && Waiting(rows[i], agentId, now) ==> i in at
    decreases |rows|
  {
    if rows == [] then []
    else
      var n := |rows| - 1;
      var front := Outstanding(rows[..n], agentId, now);
      assert forall i :: 0 <= i < n ==> rows[..n][i] == rows[i];
      if Waiting(rows[n], agentId, now) then front + [n] else front
  }

  /** A row's command is among those of the waiting positions exactly if the row is the agent's and it is working on it,
      or it has not been delivered for good and has not expired. */
  lemma WaitingMeans(rows: seq<Row>, agentId: Octets, now: int, commands: seq<Command>, i: nat)
    requires DistinctRows(rows) && i < |rows|
    requires var at := Outstanding(rows, agentId, now);
             |commands| == |at| && forall k :: 0 <= k < |at| ==> commands[k] == rows[at[k]].command
    ensures var row := rows[i];
            row.command in commands <==>
              && row.command.agentId == agentId
              && (row.state == State.Accepted || row.state == State.Running
                  || ((row.state == State.Queued || row.state == State.Dispatched) && row.command.expiresAt > now))
  {
    hide Outstanding;
    var at := Outstanding(rows, agentId, now);
    if Waiting(rows[i], agentId, now) {
      var k :| 0 <= k < |at| && at[k] == i;
      assert commands[k] == rows[i].command;
    } else {
      forall k | 0 <= k < |at| ensures commands[k] != rows[i].command {
        assert at[k] != i;
      }
    }
  }

  lemma CommandsAscend(db: Tables, agentId: Octets, now: int)
    requires DbInv(db)
    ensures var at := Outstanding(db.rows, agentId, now);
            forall j, k :: 0 <= j < k < |at| ==> db.rows[at[j]].command.sequence < db.rows[at[k]].command.sequence
  {
    hide HistoriesMatch, NoStrayEvents, DistinctRows, Outstanding;
    forall j, k | 0 <= j < k < |Outstanding(db.rows, agentId, now)|
      ensures var at := Outstanding(db.rows, agentId, now);
              db.rows[at[j]].command.sequence < db.rows[at[k]].command.sequence
    {
      OutstandingAscends(db.rows, agentId, now, j, k);
    }
  }

  /** The commands of exactly the rows the query describes, in ascending sequence. */
  ghost predicate DueExactly(rows: seq<Row>, agentId: Octets, now: int, commands: seq<Command>) {
    && (forall j, k :: 0 <= j < k < |commands| ==> commands[j].sequence < commands[k].sequence)
    && forall i :: 0 <= i < |rows| ==>
         var row := rows[i];
         row.command in commands <==>
           && row.command.agentId == agentId
           && (row.state == State.Accepted || row.state == State.Running
               || ((row.state == State.Queued || row.state == State.Dispatched) && row.command.expiresAt > now))
  }

  lemma WaitingAreDue(db: Tables, agentId: Octets, now: int, commands: seq<Command>)
    requires DbInv(db)
    requires var at := Outstanding(db.rows, agentId, now);
             |commands| == |at| && forall k :: 0 <= k < |at| ==> commands[k] == db.rows[at[k]].command
    ensures DueExactly(db.rows, agentId, now, commands)
  {
    CommandsAscend(db, agentId, now);
    EachWaitingIsDue(db.rows, agentId, now, commands);
    hide DbInv, Outstanding;
  }

  lemma EachWaitingIsDue(rows: seq<Row>, agentId: Octets, now: int, commands: seq<Command>)
    requires DistinctRows(rows)
    requires var at := Outstanding(rows, agentId, now);
             |commands| == |at| && forall k :: 0 <= k < |at| ==> commands[k] == rows[at[k]].command
    ensures forall i :: 0 <= i < |rows| ==>
              var row := rows[i];
              row.command in commands <==>
                && row.command.agentId == agentId
                && (row.state == State.Accepted || row.state == State.Running
                    || ((row.state == State.Queued || row.state == State.Dispatched)
                        && row.command.expiresAt > now))
  {
    hide Outstanding, DistinctRows;
    forall i | 0 <= i < |rows| { WaitingMeans(rows, agentId, now, commands, i); }
  }

  /** Table order is the order the query asks for. */
  lemma OutstandingAscends(rows: seq<Row>, agentId: Octets, now: int, j: nat, k: nat)
    requires Contiguous(rows) && j < k < |Outstanding(rows, agentId, now)|
    ensures var at := Outstanding(rows, agentId, now); rows[at[j]].command.sequence < rows[at[k]].command.sequence
  {
    var at := Outstanding(rows, agentId, now);
    SequencesAscend(rows, at[j], at[k]);
  }

  /** Expiring at a clock reading no later than the query's takes nothing from what is due at the query. */
  lemma {:induction false} OutstandingIgnoresExpiry(rows: seq<Row>, rows': seq<Row>, agentId: Octets, expireNow: int,
                                                    now: int)
    requires |rows| == |rows'| && expireNow <= now
    requires forall k :: 0 <= k < |rows| ==> rows'[k] == rows[k] || rows'[k] == ExpiredRow(rows[k], expireNow)
    ensures Outstanding(rows, agentId, now) == Outstanding(rows', agentId, now)
    decreases |rows|
  {
    if rows != [] {
      OutstandingIgnoresExpiry(rows[..|rows| - 1], rows'[..|rows| - 1], agentId, expireNow, now);
    }
  }

  lemma ExpiryTransition(prims: Primitives, db: Tables, k: nat, now: int)
    requires DbInv(db) && k < |db.rows| && Overdue(db.rows[k], now)
    ensures var t :=
            Transition(prims, db, db.rows[k].command.commandId, State.Expired, NOBODY, "ttl_expired", "", [], now);
            t.Some? && t.value.rows == db.rows[k := ExpiredRow(db.rows[k], now)]
  {
    FindRowOfRow(db.rows, k);
    hide FindRow, HistoriesMatch, Contiguous, NoStrayEvents;
  }

  lemma StepKeepsInv(prims: Primitives, db: Tables, to: State, actor: Actor, r: CommandResult, now: int)
    requires DbInv(db) && Step(prims, db, to, actor, r, now).Some?
    ensures DbInv(Step(prims, db, to, actor, r, now).value)
  {
    hide DbInv, Transition;
    if HasResult(to) {
      TransitionKeepsInv(prims, db, r.commandId, to, actor, Reason(to), r.code, r.data, now);
    } else {
      TransitionKeepsInv(prims, db, r.commandId, to, actor, Reason(to), "", [], now);
    }
  }

  class Store {
    const prims: Primitives
    const sign: Command -> Octets
    var rows: seq<Row>
    var events: seq<Event>
    var users: map<int, Role>

    ghost function Db(): Tables
      reads this
    {
      Tables(rows, events)
    }

    ghost predicate Valid()
      reads this
    {
      DbInv(Db())
    }

    constructor (prims: Primitives, sign: Command -> Octets, users: map<int, Role>)
      ensures Valid() && Db() == Tables([], []) && this.users == users
    {
      this.prims, this.sign, this.users := prims, sign, users;
      rows, events := [], [];
    }

    /** Either every agent of the batch gets its command, or the tables are untouched. */
    method CreateBatch(actor: Actor, agentIds: seq<Octets>, action: Octets, payload: Octets, ids: seq<Octets>, now: int,
                       faults: seq<bool>, commitFails: bool) returns (result: Option<seq<Command>>)
      requires Valid() && |agentIds| == |ids| == |faults|
      requires forall k :: 0 <= k < |ids| ==> ids[k] != []  // commandUUID never yields an empty string
      modifies this`rows, this`events
      ensures Valid()
      ensures var b := Batch(actor, agentIds, action, payload, ids, now, sign);
              && (result.Some? <==> BatchAccepted(prims, old(Db()), b, faults, commitFails))
              && Db() == (if result.Some? then BatchOf(old(Db()), b, |agentIds|) else old(Db()))
              && (result.Some? ==> |old(rows)| <= |rows| && result.value == CommandsOf(rows[|old(rows)|..]))
    {
      hide DbInv, FindRow, BatchOf, BatchShape, CommandsOf, Distinct, TTL, Ascii;
      var b := Batch(actor, agentIds, action, payload, ids, now, sign);
      if !BatchShape(prims, b) {
        return None;
      }
      var sound := DistinctAgents(agentIds);
      if !sound {
        return None;
      }
      result := Insert(b, faults, commitFails);
    }

    method DistinctAgents(agentIds: seq<Octets>) returns (ok: bool)
      ensures ok <==> Distinct(agentIds) && forall k :: 0 <= k < |agentIds| ==> agentIds[k] != []
    {
      var seen := {};
      for index := 0 to |agentIds|
        invariant forall k :: 0 <= k < index ==> agentIds[k] in seen && agentIds[k] != []
        invariant forall x :: x in seen ==> exists k :: 0 <= k < index && agentIds[k] == x
        invariant forall i, j :: 0 <= i < j < index ==> agentIds[i] != agentIds[j]
      {
        if agentIds[index] == [] || agentIds[index] in seen {
          return false;
        }
        seen := seen + {agentIds[index]};
      }
      return true;
    }

    /** The transaction of CreateBatch. */
    method Insert(b: Batch, faults: seq<bool>, commitFails: bool) returns (result: Option<seq<Command>>)
      requires Valid() && |b.agentIds| == |b.ids| == |faults| && Distinct(b.agentIds)
      requires forall k :: 0 <= k < |b.ids| ==> b.ids[k] != []
      modifies this`rows, this`events
      ensures Valid()
      ensures result.Some? <==>
                && Distinct(b.ids) && (forall k :: 0 <= k < |b.ids| ==> FindRow(old(rows), b.ids[k]) == |old(rows)|)
                && !commitFails && (forall k :: 0 <= k < |faults| ==> !faults[k])
      ensures Db() == if result.Some? then BatchOf(old(Db()), b, |b.agentIds|) else old(Db())
      ensures result.Some? ==> |old(rows)| <= |rows| && result.value == CommandsOf(rows[|old(rows)|..])
    {
      hide DbInv, MaxSequence, BatchRowAt, FindRow, BatchOf, Created, CommandsOf;
      NoCommands();
      var tx, commands := Tables(rows, events), [];
      ghost var added := [];
      BatchStart(Db(), b);
      for index := 0 to |b.agentIds|
        invariant Db() == old(Db()) && DbInv(tx) && tx == BatchOf(old(Db()), b, index)
        invariant tx.rows == rows + added && |added| == index && commands == CommandsOf(added)
        invariant forall k :: 0 <= k < index ==> added[k].command.commandId == b.ids[k]
        invariant forall k :: 0 <= k < index ==> !faults[k] && FindRow(rows, b.ids[k]) == |rows|
        invariant forall i, j :: 0 <= i < j < index ==> b.ids[i] != b.ids[j]
      {
        var row := BatchRowAt(tx.rows, b, index);
        BatchRowFields(tx.rows, b, index);
        BatchStep(old(Db()), b, index);
        KeyFree(rows, added, b.ids[index]);
        if faults[index] || FindRow(tx.rows, row.command.commandId) < |tx.rows| {
          assert faults[index] || FindRow(rows, b.ids[index]) < |rows|
                 || exists k :: 0 <= k < index && b.ids[k] == b.ids[index];
          return None;
        }
        CreateKeepsInv(tx, row.command, b.actor, b.now);
        tx := Created(tx, row.command, b.actor, b.now);
        OneMoreCommand(added, row);
        commands := commands + [row.command];
        added := added + [row];
      }
      if commitFails {
        return None;
      }
      rows, events := tx.rows, tx.events;
      return Some(commands);
    }

    method TransitionAt(id: Octets, to: State, actor: Actor, reason: string, code: string, data: Octets, now: int,
                        fault: bool) returns (ok: bool)
      requires Valid()
      modifies this`rows, this`events
      ensures Valid()
      ensures var t := Transition(prims, old(Db()), id, to, actor, reason, code, data, now);
              ok == (t.Some? && !fault) && Db() == if ok then t.value else old(Db())
    {
      if Transition(prims, Db(), id, to, actor, reason, code, data, now).Some? {
        TransitionKeepsInv(prims, Db(), id, to, actor, reason, code, data, now);
      }
      hide DbInv;
      if id == [] || |reason| > 128 || |code| > 128 || |data| > 16384 || !prims.ValidJson(OrEmptyObject(data)) {
        return false;
      }
      var i := FindRow(rows, id);
      if i == |rows| || !AllowedTransition(rows[i].state, to) || fault {
        return false;
      }
      var from := rows[i].state;
      rows := rows[i := Moved(rows[i], to, now, code, OrEmptyObject(data))];
      events := events + [Event(id, actor.userId, actor.session, Some(from), to, now, reason)];
      return true;
    }

    /** Expires every overdue row; the database may give up after budget commits. */
    method Expire(now: int, budget: nat) returns (count: Option<nat>)
      requires Valid()
      modifies this`rows, this`events
      ensures Valid() && |rows| == |old(rows)|
      ensures count.Some? ==> forall k :: 0 <= k < |rows| ==> rows[k] == ExpiredRow(old(rows)[k], now)
      ensures count.Some? ==> count.value == OverdueCount(old(rows), now)
      ensures forall k :: 0 <= k < |rows| ==> rows[k] == old(rows)[k] || rows[k] == ExpiredRow(old(rows)[k], now)
      ensures count.Some? <==> OverdueCount(old(rows), now) <= budget
      ensures count.Some? ==> count.value == |LatePositions(old(rows), now)| && ExpiredExactly(old(rows), rows, now)
      ensures LogsExpiry(old(events), events, now)
    {
      CountIsSize(rows, now);
      LogsNothing(events, now);
      hide FindRow, DbInv, Transition, TTL, Overdue, Moved, OverdueCount, ExpiredRow, LatePositions, LogsExpiry,
           ExpiredExactly;
      NoneOverdue(now);
      var selected, expired := rows, 0;
      for k := 0 to |selected|
        invariant DbInv(Db()) && |rows| == |selected| && expired <= k && expired <= budget
        invariant forall j :: 0 <= j < k ==> rows[j] == ExpiredRow(selected[j], now)
        invariant forall j :: k <= j < |rows| ==> rows[j] == selected[j]
        invariant expired == OverdueCount(selected[..k], now)
        invariant LogsExpiry(old(events), events, now)
      {
        CountNext(selected, k, now);
        KeptUnlessOverdue(selected[k], now);
        if !Overdue(selected[k], now) {
          continue;
        }
        ExpiryTransition(prims, Db(), k, now);
        LogsOneMore(prims, old(events), Db(), selected[k].command.commandId, now);
        var ok := TransitionAt(selected[k].command.commandId, State.Expired, NOBODY, "ttl_expired", "", [], now,
                               expired == budget);
        if !ok {
          CountGrows(selected, k + 1, now);
          return None;
        }
        expired := expired + 1;
      }
      assert selected[..|selected|] == selected;
      AllExpired(selected, rows, now);
      return Some(expired);
    }

    method QueuedFor(agentId: Octets, now: int) returns (commands: seq<Command>)
      requires Valid()
      ensures var at := Outstanding(rows, agentId, now);
              |commands| == |at| && forall k :: 0 <= k < |at| ==> commands[k] == rows[at[k]].command
      ensures DueExactly(rows, agentId, now, commands)
    {
      hide DbInv, DueExactly;
      commands := [];
      for n := 0 to |rows|
        invariant var at := Outstanding(rows[..n], agentId, now);
                  |commands| == |at| && forall k :: 0 <= k < |at| ==> commands[k] == rows[at[k]].command
      {
        assert rows[..n + 1][..n] == rows[..n];
        if Waiting(rows[n], agentId, now) {
          commands := commands + [rows[n].command];
        }
      }
      assert rows[..|rows|] == rows;
      WaitingAreDue(Db(), agentId, now, commands);
    }

    /** The closure advance of ApplyAgentResult. */
    method Advance(to: State, actor: Actor, r: CommandResult, now: int, budget: nat) returns (ok: bool)
      requires Valid()
      modifies this`rows, this`events
      ensures Valid()
      ensures ok == (budget > 0 && Step(prims, old(Db()), to, actor, r, now).Some?)
      ensures Db() == if ok then Step(prims, old(Db()), to, actor, r, now).value else old(Db())
    {
      hide DbInv, Transition;
      if HasResult(to) {
        ok := TransitionAt(r.commandId, to, actor, Reason(to), r.code, r.data, now, budget == 0);
      } else {
        ok := TransitionAt(r.commandId, to, actor, Reason(to), "", [], now, budget == 0);
      }
    }

    method ApplyAgentResult(agentId: Octets, r: CommandResult, now: int, budget: nat) returns (ok: bool)
      requires Valid()
      modifies this`rows, this`events
      ensures Valid()
      ensures (Db(), ok) == ApplyResult(prims, users, old(Db()), agentId, r, now, budget)
      ensures AnswerIsExact(prims, old(users), old(Db()), agentId, r, now, budget, (Db(), ok))
    {
      hide DbInv, FindRow, Step, AnswerIsExact, Trimmed;
      ApplyAnswers(prims, users, Db(), agentId, r, now, budget);
      if !WellFormedResult(prims, r) {
        return false;
      }
      var i := FindRow(rows, r.commandId);
      if i == |rows| || rows[i].creator !in users {
        return false;
      }
      if rows[i].command.agentId != agentId || rows[i].command.sequence != r.sequence {
        return false;
      }
      var state, actor, left := rows[i].state, Creator(rows[i]), budget;
      if HasResult(state) {
        return state == AsState(r.state) && rows[i].code == r.code
            && Trimmed(rows[i].data) == Trimmed(OrEmptyObject(r.data));
      }
      if state == State.Queued || state == State.Expired {
        return false;
      }
      ok := Walk(state, actor, r, now, budget);
    }

    /** The last part of ApplyAgentResult: the variable state moves with the row. */
    method Walk(from: State, actor: Actor, r: CommandResult, now: int, budget: nat) returns (ok: bool)
      requires Valid() && r.state != ResultState.Other && Delivered(from)
      modifies this`rows, this`events
      ensures Valid()
      ensures (Db(), ok) == Follow(prims, old(Db()), TargetPath(from, r.state), actor, r, now, budget)
    {
      hide DbInv, Step, Valid, Follow, TargetPath;
      var state, left := from, budget;
      ghost var start := Db();
      PathSteps(from, r.state);
      if state == State.Dispatched {
        FollowOne(prims, Db(), TargetPath(state, r.state), actor, r, now, left);
        ok := Advance(State.Accepted, actor, r, now, left);
        if !ok {
          return false;
        }
        state, left := State.Accepted, left - 1;
        PathSteps(state, r.state);
      }
      if state == State.Accepted && r.state != ResultState.Accepted {
        FollowOne(prims, Db(), TargetPath(state, r.state), actor, r, now, left);
        ok := Advance(State.Running, actor, r, now, left);
        if !ok {
          return false;
        }
        state, left := State.Running, left - 1;
        PathSteps(state, r.state);
      }
      FollowOne(prims, Db(), TargetPath(state, r.state), actor, r, now, left);
      if r.state == ResultState.Accepted || r.state == ResultState.Running {
        return true;
      }
      ghost var mid := Db();
      ok := Advance(AsState(r.state), actor, r, now, left);
      if ok { FollowOne(prims, Db(), [], actor, r, now, left - 1); }
      assert Follow(prims, mid, [AsState(r.state)], actor, r, now, left) == (Db(), ok);
    }
  }

  lemma FollowOne(prims: Primitives, db: Tables, path: seq<State>, actor: Actor, r: CommandResult, now: int,
                  budget: nat)
    ensures Follow(prims, db, path, actor, r, now, budget) ==
            if path == [] then (db, true)
            else if budget == 0 || Step(prims, db, path[0], actor, r, now).None? then (db, false)
            else Follow(prims, Step(prims, db, path[0], actor, r, now).value, path[1..], actor, r, now, budget - 1)
  {
    hide Step;
  }

  /** The first state still to be entered, and the rest. */
  lemma PathSteps(state: State, reported: ResultState)
    requires reported != ResultState.Other && Delivered(state)
    ensures var path := TargetPath(state, reported);
            if state == State.Dispatched then
                path != [] && path[0] == State.Accepted && path[1..] == TargetPath(State.Accepted, reported)
            else if state == State.Accepted && reported != ResultState.Accepted then
              path != [] && path[0] == State.Running && path[1..] == TargetPath(State.Running, reported)
            else if HasResult(AsState(reported)) then path == [AsState(reported)] && path[1..] == []
            else path == []
  {
  }
}
