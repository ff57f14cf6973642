/** The alert table under evaluations, acknowledgements and node deletions (internal/panel/alert/alert.go:105-150 and
    208-225, internal/panel/api/admin.go:331 and 641-657, internal/panel/db/db.go:231-232). */
module Alerts {
  import opened Wrappers

  datatype Status = Firing | Acknowledged | Recovered

  datatype Key = Key(node: string, rule: string)

  datatype Row = Row(id: nat, key: Key, status: Status, message: string, firstSeen: int, lastSeen: int,
                     recoveredAt: int, acknowledgedAt: int)

  /** The column updates of an UPDATE ... WHERE id. */
  datatype Change = Touch(now: int) | Refresh(now: int, message: string) | Recover(now: int) | Acknowledge(now: int)

  function Changed(c: Change, row: Row): Row {
    match c
    case Touch(now) => row.(lastSeen := now)
    case Refresh(now, message) => row.(lastSeen := now, message := message)
    case Recover(now) => row.(status := Recovered, recoveredAt := now, lastSeen := now)
    case Acknowledge(now) => row.(status := Acknowledged, acknowledgedAt := now)
  }

  function Update(rows: seq<Row>, id: nat, c: Change): (r: seq<Row>)
    ensures |r| == |rows|
    ensures forall i :: 0 <= i < |rows| ==> r[i] == if rows[i].id == id then Changed(c, rows[i]) else rows[i]
  {
    seq(|rows|, i requires 0 <= i < |rows| => if rows[i].id == id then Changed(c, rows[i]) else rows[i])
  }

  function Delete(rows: seq<Row>, node: string): seq<Row> {
    if rows == [] then []
    else Delete(rows[..|rows| - 1], node) + (if rows[|rows| - 1].key.node == node then [] else [rows[|rows| - 1]])
  }

  /** An INTEGER PRIMARY KEY without AUTOINCREMENT: one more than the largest id present. */
  function NextId(rows: seq<Row>): nat {
    if rows == [] then 1 else rows[|rows| - 1].id + 1
  }

  function NewRow(rows: seq<Row>, key: Key, message: string, now: int): Row {
    Row(NextId(rows), key, Firing, message, now, now, 0, 0)
  }

  /** The newest row of a key, as loadExistingAlerts keeps it. */
  function Newest(rows: seq<Row>, key: Key): (r: Option<Row>)
    ensures r.Some? ==> r.value in rows && r.value.key == key
  {
    if rows == [] then None
    else if rows[|rows| - 1].key == key then Some(rows[|rows| - 1])
    else Newest(rows[..|rows| - 1], key)
  }

  ghost predicate Ascending(rows: seq<Row>) {
    forall i, j :: 0 <= i < j < |rows| ==> rows[i].id < rows[j].id
  }

  /** A firing row is the newest of its key; in particular no key has two. */
  ghost predicate FiringIsNewest(rows: seq<Row>) {
    forall i, j :: 0 <= i < j < |rows| && rows[i].status.Firing? ==> rows[j].key != rows[i].key
  }

  predicate HasFiring(rows: seq<Row>, key: Key) {
    exists i :: 0 <= i < |rows| && rows[i].key == key && rows[i].status.Firing?
  }

  predicate LastOfKey(rows: seq<Row>, i: nat, key: Key) {
    forall j :: i < j < |rows| ==> rows[j].key != key
  }

  lemma {:induction false} NewestMeans(rows: seq<Row>, key: Key)
    ensures Newest(rows, key).None? <==> forall i :: 0 <= i < |rows| ==> rows[i].key != key
    ensures Newest(rows, key).Some? ==>
              exists i :: 0 <= i < |rows| && rows[i] == Newest(rows, key).value && LastOfKey(rows, i, key)
  {
    if rows != [] && rows[|rows| - 1].key != key {
      var front := rows[..|rows| - 1];
      NewestMeans(front, key);
      if Newest(front, key).Some? {
        var i :| 0 <= i < |front| && front[i] == Newest(front, key).value && LastOfKey(front, i, key);
        forall j | i < j < |rows| ensures rows[j].key != key {
          if j < |front| { assert rows[j] == front[j]; }
        }
        assert rows[i] == Newest(rows, key).value && rows[i].key == key;
      } else {
        assert forall i :: 0 <= i < |front| ==> rows[i] == front[i];
      }
    } else if rows != [] {
      assert rows[|rows| - 1] == Newest(rows, key).value;
    }
  }

  /** The key is firing exactly when its newest row is. */
  lemma FiringMeansNewest(rows: seq<Row>, key: Key)
    requires FiringIsNewest(rows)
    ensures HasFiring(rows, key) <==> Newest(rows, key).Some? && Newest(rows, key).value.status.Firing?
  {
    NewestMeans(rows, key);
    hide Newest;
  }

  // ---------- an evaluation, statement by statement ----------

  /** toFire and toRecover are the keys the two loops still have to visit. */
  datatype Evaluation = Evaluation(now: int, triggered: map<Key, string>, existing: map<Key, Row>, toFire: set<Key>,
                                   toRecover: set<Key>)

  datatype Db = Db(rows: seq<Row>, run: Option<Evaluation>)

  datatype Event =
    | Begin(now: int, triggered: map<Key, string>)
    | FireStep(key: Key)
    | RecoverStep(key: Key)
    | Finish
    | Ack(id: nat, at: int)
    | DeleteNode(node: string)

  const START: Db := Db([], None)

  function Existing(rows: seq<Row>): (m: map<Key, Row>)
    ensures forall key :: key in m <==> Newest(rows, key).Some?
    ensures forall key :: key in m ==> m[key] == Newest(rows, key).value
  {
    if rows == [] then map[] else Existing(rows[..|rows| - 1])[rows[|rows| - 1].key := rows[|rows| - 1]]
  }

  /** Evaluate opens a new alert when the key has none or only recovered ones. */
  predicate Opens(existing: map<Key, Row>, key: Key) {
    key !in existing || existing[key].status.Recovered?
  }

  /** It recovers an alert that was firing and is not triggered any more. */
  predicate Cleared(existing: map<Key, Row>, triggered: map<Key, string>, key: Key) {
    key in existing && existing[key].status.Firing? && key !in triggered
  }

  function Fired(rows: seq<Row>, e: Evaluation, key: Key): seq<Row>
    requires key in e.triggered
  {
    if Opens(e.existing, key) then rows + [NewRow(rows, key, e.triggered[key], e.now)]
    else if e.existing[key].status.Acknowledged? then Update(rows, e.existing[key].id, Touch(e.now))
    else Update(rows, e.existing[key].id, Refresh(e.now, e.triggered[key]))
  }

  function Recovering(rows: seq<Row>, e: Evaluation, key: Key): seq<Row>
    requires key in e.existing
  {
    if Cleared(e.existing, e.triggered, key) then Update(rows, e.existing[key].id, Recover(e.now)) else rows
  }

  /** The insert would break the unique index on firing rows. */
  predicate Violates(db: Db, e: Event) {
    e.FireStep? && db.run.Some? && e.key in db.run.value.toFire && Opens(db.run.value.existing, e.key)
        && HasFiring(db.rows, e.key)
  }

  function Next(db: Db, e: Event): Db {
    match e
    case Begin(now, triggered) =>
      if db.run.Some? then db
      else db.(run := Some(Evaluation(now, triggered, Existing(db.rows), triggered.Keys, Existing(db.rows).Keys)))
    case FireStep(key) =>
      if db.run.None? || key !in db.run.value.toFire || key !in db.run.value.triggered then db
      else if Violates(db, e) then db.(run := None)
      else Db(Fired(db.rows, db.run.value, key), Some(db.run.value.(toFire := db.run.value.toFire - {key})))
    case RecoverStep(key) =>
      if db.run.None? || db.run.value.toFire != {} || key !in db.run.value.toRecover || key !in db.run.value.existing
      then db
      else Db(Recovering(db.rows, db.run.value, key), Some(db.run.value.(toRecover := db.run.value.toRecover - {key})))
    case Finish => db.(run := None)
    case Ack(id, at) => db.(rows := Update(db.rows, id, Acknowledge(at)))
    case DeleteNode(node) => db.(rows := Delete(db.rows, node))
  }

  function After(db: Db, events: seq<Event>): Db
    decreases |events|
  {
    if events == [] then db else After(Next(db, events[0]), events[1..])
  }

  // ---------- the unique index is never violated ----------

  ghost predicate TableOk(rows: seq<Row>) {
    Ascending(rows) && FiringIsNewest(rows)
  }

  /** Nothing else opens an alert while an evaluation runs. */
  ghost predicate Unopened(db: Db) {
    db.run.Some? ==>
          forall key :: key in db.run.value.toFire && Opens(db.run.value.existing, key) ==> !HasFiring(db.rows, key)
  }

  /** The loops visit only the keys of their maps. */
  ghost predicate Tidy(db: Db) {
    db.run.Some? ==>
          db.run.value.toFire <= db.run.value.triggered.Keys && db.run.value.toRecover <= db.run.value.existing.Keys
  }

  ghost predicate Inv(db: Db) {
    TableOk(db.rows) && Unopened(db) && Tidy(db)
  }

  lemma UpdateKeepsTable(rows: seq<Row>, id: nat, c: Change)
    requires TableOk(rows)
    ensures TableOk(Update(rows, id, c)) && forall key :: HasFiring(Update(rows, id, c), key) ==> HasFiring(rows, key)
  {
    var rows' := Update(rows, id, c);
    assert forall i :: 0 <= i < |rows| ==>
          rows'[i].key == rows[i].key && rows'[i].id == rows[i].id
              && (rows'[i].status.Firing? ==> rows[i].status.Firing?);
  }

  lemma {:induction false} DeleteMeans(rows: seq<Row>, node: string)
    requires TableOk(rows)
    ensures TableOk(Delete(rows, node)) && forall row :: row in Delete(rows, node) <==>
              row in rows && row.key.node != node
  {
    if rows != [] {
      var n := |rows| - 1;
      var front := Delete(rows[..n], node);
      DeleteMeans(rows[..n], node);
      assert rows == rows[..n] + [rows[n]];
      LongerTable(rows[..n], front, rows[n]);
    }
  }

  /** A row put after some of the rows it followed before. */
  lemma LongerTable(rows: seq<Row>, some: seq<Row>, row: Row)
    requires TableOk(rows + [row]) && TableOk(some) && forall x :: x in some ==> x in rows
    ensures TableOk(some + [row])
  {
    var all := rows + [row];
    forall i | 0 <= i < |some| ensures some[i].id < row.id && (some[i].status.Firing? ==> some[i].key != row.key) {
      assert some[i] in some;
      var j :| 0 <= j < |rows| && rows[j] == some[i];
      assert all[j] == some[i] && all[|rows|] == row;
    }
  }

  lemma DeleteKeepsQuiet(rows: seq<Row>, node: string)
    requires TableOk(rows)
    ensures forall key :: HasFiring(Delete(rows, node), key) ==> HasFiring(rows, key)
  {
    DeleteMeans(rows, node);
    var rows' := Delete(rows, node);
    forall key | HasFiring(rows', key) ensures HasFiring(rows, key) {
      var i :| 0 <= i < |rows'| && rows'[i].key == key && rows'[i].status.Firing?;
      assert rows'[i] in rows';
    }
  }

  lemma OpenKeepsTable(rows: seq<Row>, key: Key, message: string, now: int)
    requires TableOk(rows) && !HasFiring(rows, key)
    ensures var rows' := rows + [NewRow(rows, key, message, now)];
            TableOk(rows') && forall k :: HasFiring(rows', k) <==> HasFiring(rows, k) || k == key
  {
    var rows' := rows + [NewRow(rows, key, message, now)];
    forall k ensures HasFiring(rows', k) <==> HasFiring(rows, k) || k == key {
      if HasFiring(rows, k) {
        var i :| 0 <= i < |rows| && rows[i].key == k && rows[i].status.Firing?;
        assert rows'[i].key == k && rows'[i].status.Firing?;
      }
      if k == key { assert rows'[|rows|].key == key; }
    }
  }

  lemma BeginIsUnopened(rows: seq<Row>)
    requires TableOk(rows)
    ensures forall key :: Opens(Existing(rows), key) ==> !HasFiring(rows, key)
  {
    forall key | Opens(Existing(rows), key) ensures !HasFiring(rows, key) {
      FiringMeansNewest(rows, key);
    }
  }

  lemma NextKeepsInv(db: Db, e: Event)
    requires Inv(db)
    ensures Inv(Next(db, e)) && !Violates(db, e)
  {
    hide TableOk, HasFiring, Delete, Existing, Newest, NewRow, Opens;
    match e
    case Begin(now, triggered) => BeginIsUnopened(db.rows);
    case FireStep(key) => FireKeepsInv(db, key);
    case RecoverStep(key) =>
      if db.run.Some? && key in db.run.value.existing {
        UpdateKeepsTable(db.rows, db.run.value.existing[key].id, Recover(db.run.value.now));
      }
    case Finish =>
    case Ack(id, at) => UpdateKeepsTable(db.rows, id, Acknowledge(at));
    case DeleteNode(node) =>
      DeleteMeans(db.rows, node);
      DeleteKeepsQuiet(db.rows, node);
  }

  lemma FireKeepsInv(db: Db, key: Key)
    requires Inv(db)
    ensures Inv(Next(db, FireStep(key))) && !Violates(db, FireStep(key))
  {
    hide TableOk, HasFiring, NewRow;
    if db.run.Some? && key in db.run.value.toFire && key in db.run.value.triggered {
      var e := db.run.value;
      if Opens(e.existing, key) {
        OpenKeepsTable(db.rows, key, e.triggered[key], e.now);
      } else {
        UpdateKeepsTable(db.rows, e.existing[key].id, Touch(e.now));
        UpdateKeepsTable(db.rows, e.existing[key].id, Refresh(e.now, e.triggered[key]));
      }
    }
  }

  lemma {:induction false} InvFrom(db: Db, events: seq<Event>)
    requires Inv(db)
    ensures Inv(After(db, events))
    decreases |events|
  {
    hide Inv, Next;
    if events != [] {
      NextKeepsInv(db, events[0]);
      InvFrom(Next(db, events[0]), events[1..]);
    }
  }

  /** However acknowledgements and deletions fall between the statements of evaluations, every key has at most one
      firing row, it is the key's newest, and no insert ever meets the unique index. */
  lemma IndexIsNeverViolated(events: seq<Event>, e: Event)
    ensures var rows := After(START, events).rows;
            (forall i, j :: 0 <= i < j < |rows| && rows[i].status.Firing? ==> rows[j].key != rows[i].key)
                && !Violates(After(START, events), e)
  {
    InvFrom(START, events);
    NextKeepsInv(After(START, events), e);
  }

  // ---------- what a finished evaluation leaves ----------

  /** The key's newest row is firing or acknowledged. */
  predicate Open(rows: seq<Row>, key: Key) {
    Newest(rows, key).Some? && !Newest(rows, key).value.status.Recovered?
  }

  /** Ids of the snapshot still belong to their keys, and are not given out again. */
  ghost predicate IdsHold(rows: seq<Row>, existing: map<Key, Row>) {
    && (forall i, key :: 0 <= i < |rows| && key in existing && rows[i].id == existing[key].id ==> rows[i].key == key)
    && (forall key :: key in existing ==> existing[key].id < NextId(rows))
  }

  ghost predicate VisitedAreOpen(rows: seq<Row>, e: Evaluation) {
    forall key :: key in e.triggered && (key !in e.toFire || !Opens(e.existing, key)) ==> Open(rows, key)
  }

  ghost predicate OthersAreDue(rows: seq<Row>, e: Evaluation) {
    forall i :: 0 <= i < |rows| && rows[i].status.Firing? && rows[i].key !in e.triggered ==>
      rows[i].key in e.toRecover && rows[i].key in e.existing
      && e.existing[rows[i].key].status.Firing? && e.existing[rows[i].key].id == rows[i].id
  }

  ghost predicate Halfway(db: Db) {
    && db.run.Some? && Ascending(db.rows) && IdsHold(db.rows, db.run.value.existing)
    && VisitedAreOpen(db.rows, db.run.value) && OthersAreDue(db.rows, db.run.value)
  }

  lemma {:induction false} NewestAfterUpdate(rows: seq<Row>, id: nat, c: Change, key: Key)
    ensures Newest(Update(rows, id, c), key)
            == match Newest(rows, key)
               case None => None
               case Some(row) => Some(if row.id == id then Changed(c, row) else row)
  {
    if rows != [] {
      var n := |rows| - 1;
      NewestAfterUpdate(rows[..n], id, c, key);
      assert Update(rows, id, c)[..n] == Update(rows[..n], id, c);
    }
  }

  lemma NewestAfterInsert(rows: seq<Row>, row: Row, key: Key)
    ensures Newest(rows + [row], key) == if row.key == key then Some(row) else Newest(rows, key)
  {
    assert (rows + [row])[..|rows|] == rows;
  }

  lemma {:induction false} NewestAfterDelete(rows: seq<Row>, node: string, key: Key)
    requires key.node != node
    ensures Newest(Delete(rows, node), key) == Newest(rows, key)
  {
    if rows != [] {
      var n := |rows| - 1;
      NewestAfterDelete(rows[..n], node, key);
      var front := Delete(rows[..n], node);
      if rows[n].key.node != node {
        NewestAfterInsert(front, rows[n], key);
      } else {
        assert front + [] == front;
      }
    }
  }

  lemma IdsBelowNext(rows: seq<Row>)
    requires Ascending(rows)
    ensures forall row :: row in rows ==> row.id < NextId(rows)
  {
  }

  lemma BeginIsHalfway(db: Db, now: int, triggered: map<Key, string>)
    requires Inv(db) && db.run.None?
    ensures Halfway(Next(db, Begin(now, triggered)))
  {
    hide Newest, Existing, IdsHold, VisitedAreOpen, OthersAreDue, Opens;
    var e := Next(db, Begin(now, triggered)).run.value;
    IdsHoldAtFirst(db.rows);
    FiringIsInSnapshot(db.rows, e);
    OpenAtFirst(db.rows, e);
  }

  lemma IdsHoldAtFirst(rows: seq<Row>)
    requires Ascending(rows)
    ensures IdsHold(rows, Existing(rows))
  {
    hide Newest, Existing, NextId;
    IdsBelowNext(rows);
    var existing := Existing(rows);
    forall i, key | 0 <= i < |rows| && key in existing && rows[i].id == existing[key].id ensures rows[i].key == key {
      SameId(rows, rows[i], existing[key]);
    }
  }

  lemma FiringIsInSnapshot(rows: seq<Row>, e: Evaluation)
    requires TableOk(rows) && e.existing == Existing(rows) && e.toRecover == e.existing.Keys
    ensures OthersAreDue(rows, e)
  {
    hide Newest, Existing;
    forall i | 0 <= i < |rows| && rows[i].status.Firing?
      ensures rows[i].key in e.existing && e.existing[rows[i].key] == rows[i]
    {
      NewestMeans(rows, rows[i].key);
    }
  }

  lemma OpenAtFirst(rows: seq<Row>, e: Evaluation)
    requires e.existing == Existing(rows) && e.triggered.Keys <= e.toFire
    ensures VisitedAreOpen(rows, e)
  {
    hide Newest, Existing;
  }

  lemma SameId(rows: seq<Row>, x: Row, y: Row)
    requires Ascending(rows) && x in rows && y in rows && x.id == y.id
    ensures x == y
  {
  }

  lemma UpdateKeepsHalfway(db: Db, id: nat, c: Change)
    requires Halfway(db)
             && (c.Recover? ==>
                   forall i :: 0 <= i < |db.rows| && db.rows[i].id == id ==> db.rows[i].key !in db.run.value.triggered)
    ensures Halfway(db.(rows := Update(db.rows, id, c)))
  {
    hide IdsHold, VisitedAreOpen, OthersAreDue, Ascending;
    UpdateKeepsIds(db.rows, db.run.value.existing, id, c);
    UpdateKeepsVisited(db.rows, db.run.value, id, c);
    UpdateKeepsDue(db.rows, db.run.value, id, c);
  }

  lemma UpdateKeepsIds(rows: seq<Row>, existing: map<Key, Row>, id: nat, c: Change)
    requires Ascending(rows) && IdsHold(rows, existing)
    ensures Ascending(Update(rows, id, c)) && IdsHold(Update(rows, id, c), existing)
  {
    assert NextId(Update(rows, id, c)) == NextId(rows);
  }

  lemma UpdateKeepsDue(rows: seq<Row>, e: Evaluation, id: nat, c: Change)
    requires OthersAreDue(rows, e)
    ensures OthersAreDue(Update(rows, id, c), e)
  {
  }

  lemma UpdateKeepsVisited(rows: seq<Row>, e: Evaluation, id: nat, c: Change)
    requires VisitedAreOpen(rows, e)
    requires c.Recover? ==> forall i :: 0 <= i < |rows| && rows[i].id == id ==> rows[i].key !in e.triggered
    ensures VisitedAreOpen(Update(rows, id, c), e)
  {
    forall key | key in e.triggered && Open(rows, key) ensures Open(Update(rows, id, c), key) {
      NewestAfterUpdate(rows, id, c, key);
    }
    hide Newest, Opens, Open;
  }

  lemma OpenKeepsHalfway(db: Db, key: Key)
    requires Halfway(db) && key in db.run.value.toFire && key in db.run.value.triggered
             && Opens(db.run.value.existing, key)
    requires !HasFiring(db.rows, key)
    ensures Halfway(Next(db, FireStep(key)))
  {
    var e := db.run.value;
    var row := NewRow(db.rows, key, e.triggered[key], e.now);
    OpenKeepsVisited(db.rows, e, key, row);
    IdsBelowNext(db.rows);
    assert Next(db, FireStep(key)).rows == db.rows + [row];
    hide Newest, HasFiring, VisitedAreOpen;
  }

  lemma OpenKeepsVisited(rows: seq<Row>, e: Evaluation, key: Key, row: Row)
    requires VisitedAreOpen(rows, e) && row.key == key && row.status.Firing?
    ensures VisitedAreOpen(rows + [row], e.(toFire := e.toFire - {key}))
  {
    forall k | k in e.triggered && (k == key || Open(rows, k)) ensures Open(rows + [row], k) {
      NewestAfterInsert(rows, row, k);
    }
    hide Open, Opens;
  }

  lemma VisitedKeepsHalfway(db: Db, key: Key)
    requires Halfway(db) && key in db.run.value.triggered && !Opens(db.run.value.existing, key)
    ensures Halfway(db.(run := Some(db.run.value.(toFire := db.run.value.toFire - {key}))))
  {
    hide Newest, Open;
  }

  lemma RecoverKeepsHalfway(db: Db, key: Key)
    requires Halfway(db) && db.run.value.toFire == {} && key in db.run.value.toRecover && key in db.run.value.existing
    ensures Halfway(Next(db, RecoverStep(key)))
  {
    var e := db.run.value;
    var rows' := Recovering(db.rows, e, key);
    if e.existing[key].status.Firing? && key !in e.triggered {
      UpdateKeepsHalfway(db, e.existing[key].id, Recover(e.now));
      RecoverSettles(db.rows, e, key);
    }
    hide Newest, Opens, Open, IdsHold, Ascending, Update, VisitedAreOpen;
    VisitIgnoresRecover(rows', e, key);
  }

  lemma VisitIgnoresRecover(rows: seq<Row>, e: Evaluation, key: Key)
    ensures VisitedAreOpen(rows, e) ==> VisitedAreOpen(rows, e.(toRecover := e.toRecover - {key}))
  {
    hide Open, Opens;
  }

  lemma RecoverSettles(rows: seq<Row>, e: Evaluation, key: Key)
    requires OthersAreDue(rows, e) && key in e.existing && e.existing[key].status.Firing? && key !in e.triggered
    ensures OthersAreDue(Update(rows, e.existing[key].id, Recover(e.now)), e.(toRecover := e.toRecover - {key}))
  {
  }

  lemma HalfwayStep(db: Db, e: Event)
    requires Inv(db) && Halfway(db) && !e.Finish? && !e.DeleteNode?
    ensures Halfway(Next(db, e)) && Next(db, e).run.value.triggered == db.run.value.triggered
  {
    NextKeepsInv(db, e);
    hide Halfway, Inv, Update, Opens, Violates;
    match e
    case FireStep(key) =>
      if key in db.run.value.toFire && key in db.run.value.triggered { FireKeepsHalfway(db, key); }
    case RecoverStep(key) =>
      if db.run.value.toFire == {} && key in db.run.value.toRecover && key in db.run.value.existing {
        RecoverKeepsHalfway(db, key);
      }
    case Ack(id, at) => UpdateKeepsHalfway(db, id, Acknowledge(at));
    case Begin(_, _) =>
  }

  lemma FireKeepsHalfway(db: Db, key: Key)
    requires Inv(db) && Halfway(db) && db.run.Some? && key in db.run.value.toFire && key in db.run.value.triggered
    ensures Halfway(Next(db, FireStep(key)))
  {
    hide Halfway, TableOk, HasFiring, Update;
    var e := db.run.value;
    if Opens(e.existing, key) {
      OpenKeepsHalfway(db, key);
    } else {
      var c := if e.existing[key].status.Acknowledged? then Touch(e.now) else Refresh(e.now, e.triggered[key]);
      UpdateKeepsHalfway(db, e.existing[key].id, c);
      VisitedKeepsHalfway(db.(rows := Update(db.rows, e.existing[key].id, c)), key);
    }
  }

  lemma {:induction false} HalfwayFrom(db: Db, events: seq<Event>)
    requires Inv(db) && Halfway(db) && forall e :: e in events ==> !e.Finish? && !e.DeleteNode?
    ensures Halfway(After(db, events)) && After(db, events).run.value.triggered == db.run.value.triggered
    decreases |events|
  {
    hide Inv, Halfway, Next;
    if events != [] {
      assert events[0] in events;
      HalfwayStep(db, events[0]);
      NextKeepsInv(db, events[0]);
      HalfwayFrom(Next(db, events[0]), events[1..]);
    }
  }

  /** An evaluation that visits every key, with any acknowledgements in between, leaves the newest row of each triggered
      key firing or acknowledged and no other key firing. */
  lemma EvaluationSettles(before: seq<Event>, now: int, triggered: map<Key, string>, events: seq<Event>)
    requires After(START, before).run.None? && forall e :: e in events ==> !e.Finish? && !e.DeleteNode?
    requires var end := After(Next(After(START, before), Begin(now, triggered)), events);
             end.run.Some? ==> end.run.value.toFire == {} && end.run.value.toRecover == {}
    ensures var rows := After(Next(After(START, before), Begin(now, triggered)), events).rows;
            (forall key :: key in triggered ==> Open(rows, key))
                && (forall key :: HasFiring(rows, key) ==> key in triggered)
  {
    var db := After(START, before);
    InvFrom(START, before);
    BeginIsHalfway(db, now, triggered);
    NextKeepsInv(db, Begin(now, triggered));
    HalfwayFrom(Next(db, Begin(now, triggered)), events);
    hide After, Open;
  }

  /** Without that proviso it fails: an id freed by deleting a node is given to another node's new alert, which the same
      evaluation then recovers in place of the deleted one. */
  lemma FreedIdIsRecovered(gone: Key, key: Key)
    requires gone.node != key.node
    ensures var row := Row(1, gone, Firing, "down", 0, 0, 0, 0);
            var db := Next(Next(Db([row], None), Begin(5, map[key := "down"])), DeleteNode(gone.node));
            var end := Next(Next(db, FireStep(key)), RecoverStep(gone));
            Inv(Db([row], None)) && end.run.Some? && end.run.value.toFire == {} && end.run.value.toRecover == {}
            && key in end.run.value.triggered && !Open(end.rows, key)
  {
    var row := Row(1, gone, Firing, "down", 0, 0, 0, 0);
    var begun := Next(Db([row], None), Begin(5, map[key := "down"]));
    assert Newest([row], gone) == Some(row) && [row][..0] == [] && Newest([row], key) == None;
    assert Existing([row]) == map[gone := row];
    var db := Next(begun, DeleteNode(gone.node));
    assert [row][..|[row]| - 1] == [] && Delete([], gone.node) == [];
    assert Delete([row], gone.node) == [] + [];
    assert db.rows == [];
    var fired := Next(db, FireStep(key));
    assert fired.rows == [NewRow([], key, "down", 5)];
    var end := Next(fired, RecoverStep(gone));
    assert end.rows == [NewRow([], key, "down", 5).(status := Recovered, recoveredAt := 5, lastSeen := 5)];
  }

  // ---------- when an acknowledged alert is the last of its key ----------

  /** The key's newest row is the acknowledged row with this id. */
  predicate IsAcknowledged(rows: seq<Row>, key: Key, id: nat) {
    Newest(rows, key).Some? && Newest(rows, key).value.id == id && Newest(rows, key).value.status.Acknowledged?
  }

  /** The running evaluation still has to open another alert for the key, or to recover the row with this id, because
      its snapshot is older than the acknowledgement. */
  ghost predicate Threatened(db: Db, key: Key, id: nat) {
    db.run.Some? &&
    var e := db.run.value;
    || (key in e.toFire && Opens(e.existing, key))
    || (exists k :: k in e.toRecover && Cleared(e.existing, e.triggered, k) && e.existing[k].id == id)
  }

  lemma UpdateKeepsAck(rows: seq<Row>, key: Key, id: nat, target: nat, c: Change)
    requires IsAcknowledged(rows, key, id) && (c.Recover? ==> target != id)
    ensures IsAcknowledged(Update(rows, target, c), key, id)
  {
    NewestAfterUpdate(rows, target, c, key);
    hide Newest;
  }

  lemma BeginIsNoThreat(db: Db, key: Key, id: nat, now: int, triggered: map<Key, string>)
    requires Inv(db) && IsAcknowledged(db.rows, key, id) && db.run.None?
    ensures !Threatened(Next(db, Begin(now, triggered)), key, id)
  {
    var existing := Existing(db.rows);
    forall k | k in existing && existing[k].id == id ensures k == key {
      SameId(db.rows, existing[k], existing[key]);
    }
    hide Newest, Existing;
  }

  lemma FireKeepsAck(db: Db, key: Key, id: nat, k: Key)
    requires Inv(db) && IsAcknowledged(db.rows, key, id) && db.run.Some? && k in db.run.value.toFire
    requires k == key ==> !Opens(db.run.value.existing, key)
    ensures IsAcknowledged(Next(db, FireStep(k)).rows, key, id)
    ensures var e := db.run.value;
            Next(db, FireStep(k)).run == Some(e.(toFire := e.toFire - {k}))
  {
    hide Newest, Update, HasFiring, TableOk;
    var x := db.run.value;
    NextKeepsInv(db, FireStep(k));
    if Opens(x.existing, k) {
      NewestAfterInsert(db.rows, NewRow(db.rows, k, x.triggered[k], x.now), key);
    } else {
      UpdateKeepsAck(db.rows, key, id, x.existing[k].id, Touch(x.now));
      UpdateKeepsAck(db.rows, key, id, x.existing[k].id, Refresh(x.now, x.triggered[k]));
    }
  }

  lemma QuietStep(db: Db, key: Key, id: nat, e: Event)
    requires Inv(db) && IsAcknowledged(db.rows, key, id) && !Threatened(db, key, id) && e != DeleteNode(key.node)
    ensures IsAcknowledged(Next(db, e).rows, key, id) && !Threatened(Next(db, e), key, id)
  {
    hide Newest, Update, HasFiring, TableOk, Unopened, IsAcknowledged, Existing;
    match e
    case Begin(now, triggered) => if db.run.None? { BeginIsNoThreat(db, key, id, now, triggered); }
    case FireStep(k) => if db.run.Some? && k in db.run.value.toFire { FireKeepsAck(db, key, id, k); }
    case RecoverStep(k) =>
      if db.run.Some? && k in db.run.value.toRecover && Cleared(db.run.value.existing, db.run.value.triggered, k) {
        UpdateKeepsAck(db.rows, key, id, db.run.value.existing[k].id, Recover(db.run.value.now));
      }
    case Finish =>
    case Ack(target, at) => UpdateKeepsAck(db.rows, key, id, target, Acknowledge(at));
    case DeleteNode(node) => DeleteKeepsAck(db.rows, key, id, node);
  }

  lemma DeleteKeepsAck(rows: seq<Row>, key: Key, id: nat, node: string)
    requires IsAcknowledged(rows, key, id) && node != key.node
    ensures IsAcknowledged(Delete(rows, node), key, id)
  {
    NewestAfterDelete(rows, node, key);
  }

  /** An acknowledged newest row that no running evaluation threatens stays the newest and stays acknowledged, however
      often the condition clears and returns: no later evaluation fires or recovers that key until its node is
      deleted. */
  lemma {:induction false} AcknowledgedForGood(db: Db, key: Key, id: nat, events: seq<Event>)
    requires Inv(db) && IsAcknowledged(db.rows, key, id) && !Threatened(db, key, id) && DeleteNode(key.node) !in events
    ensures IsAcknowledged(After(db, events).rows, key, id)
    decreases |events|
  {
    hide Inv, Next, IsAcknowledged, Threatened;
    if events != [] {
      assert events[0] in events;
      QuietStep(db, key, id, events[0]);
      NextKeepsInv(db, events[0]);
      AcknowledgedForGood(Next(db, events[0]), key, id, events[1..]);
    }
  }

  lemma FireEndsAck(db: Db, key: Key, id: nat)
    requires Inv(db) && db.run.Some? && key in db.run.value.toFire && Opens(db.run.value.existing, key)
    ensures !IsAcknowledged(After(db, [FireStep(key)]).rows, key, id)
  {
    var e := db.run.value;
    NextKeepsInv(db, FireStep(key));
    NewestAfterInsert(db.rows, NewRow(db.rows, key, e.triggered[key], e.now), key);
    OneStep(db, FireStep(key));
    hide Newest, HasFiring;
  }

  lemma RecoverEndsAck(db: Db, key: Key, id: nat, k: Key)
    requires Inv(db) && IsAcknowledged(db.rows, key, id) && db.run.Some? && db.run.value.toFire == {}
    requires k in db.run.value.toRecover && Cleared(db.run.value.existing, db.run.value.triggered, k)
             && db.run.value.existing[k].id == id
    ensures !IsAcknowledged(After(db, [RecoverStep(k)]).rows, key, id)
  {
    NewestAfterUpdate(db.rows, id, Recover(db.run.value.now), key);
    OneStep(db, RecoverStep(k));
    hide Newest, HasFiring;
  }

  lemma OneStep(db: Db, e: Event)
    ensures After(db, [e]) == Next(db, e)
  {
    hide Next;
    assert [e][1..] == [] && After(Next(db, e), []) == Next(db, e);
  }

  /** What threatens an acknowledgement can end it. */
  lemma {:induction false} ThreatEndsAck(db: Db, key: Key, id: nat) returns (events: seq<Event>)
    requires Inv(db) && IsAcknowledged(db.rows, key, id) && Threatened(db, key, id)
    ensures DeleteNode(key.node) !in events && !IsAcknowledged(After(db, events).rows, key, id)
    decreases |db.run.value.toFire|
  {
    hide TableOk, Unopened, IsAcknowledged, Next, Opens;
    var e := db.run.value;
    if key in e.toFire && Opens(e.existing, key) {
      FireEndsAck(db, key, id);
      events := [FireStep(key)];
    } else {
      var g :| g in e.toRecover && Cleared(e.existing, e.triggered, g) && e.existing[g].id == id;
      if e.toFire == {} {
        RecoverEndsAck(db, key, id, g);
        events := [RecoverStep(g)];
      } else {
        var k :| k in e.toFire;
        FireKeepsAck(db, key, id, k);
        NextKeepsInv(db, FireStep(k));
        var next := Next(db, FireStep(k));
        assert g in next.run.value.toRecover && Cleared(e.existing, e.triggered, g);
        var rest := ThreatEndsAck(next, key, id);
        events := [FireStep(k)] + rest;
        assert events[1..] == rest;
      }
    }
  }

  /** An acknowledgement is permanent, short of deleting the node, if and only if no evaluation is running whose
      snapshot makes it open another alert for the key or recover the acknowledged row; between evaluations it always
      is. */
  lemma AckIsPermanentIff(db: Db, key: Key, id: nat)
    requires Inv(db) && IsAcknowledged(db.rows, key, id)
    ensures !Threatened(db, key, id)
            <==> forall events :: DeleteNode(key.node) !in events ==> IsAcknowledged(After(db, events).rows, key, id)
    ensures db.run.None? ==> !Threatened(db, key, id)
  {
    if Threatened(db, key, id) {
      var events := ThreatEndsAck(db, key, id);
    } else {
      forall events | DeleteNode(key.node) !in events ensures IsAcknowledged(After(db, events).rows, key, id) {
        AcknowledgedForGood(db, key, id, events);
      }
    }
  }

  // ---------- when an alert is opened ----------

  lemma {:induction false} SnapshotStays(db: Db, events: seq<Event>)
    requires Inv(db) && db.run.Some? && Finish !in events
    ensures var end := After(db, events);
            && end.run.Some? && end.run.value.existing == db.run.value.existing
            && end.run.value.triggered == db.run.value.triggered
            && end.run.value.now == db.run.value.now && end.run.value.toFire <= db.run.value.toFire
            && end.run.value.toRecover <= db.run.value.toRecover
    decreases |events|
  {
    hide TableOk, Unopened, Tidy, Update, Delete, NewRow, HasFiring, Opens;
    if events != [] {
      assert events[0] in events;
      NextKeepsInv(db, events[0]);
      SnapshotStays(Next(db, events[0]), events[1..]);
    }
  }

  /** Whenever in an evaluation a triggered key is visited, and whatever was acknowledged or deleted before that, a row
      is inserted if and only if the key had no open alert when the evaluation began. */
  lemma FiresIffAbsentOrRecovered(db: Db, now: int, triggered: map<Key, string>, events: seq<Event>, key: Key)
    requires Inv(db) && db.run.None? && key in triggered && Finish !in events
    requires var at := After(Next(db, Begin(now, triggered)), events);
             at.run.Some? && key in at.run.value.toFire
    ensures var at := After(Next(db, Begin(now, triggered)), events); var fired := Next(at, FireStep(key));
            if Open(db.rows, key) then |fired.rows| == |at.rows|
            else fired.rows == at.rows + [NewRow(at.rows, key, triggered[key], now)]
  {
    var begun := Next(db, Begin(now, triggered));
    NextKeepsInv(db, Begin(now, triggered));
    SnapshotStays(begun, events);
    InvFrom(begun, events);
    NextKeepsInv(After(begun, events), FireStep(key));
    hide Newest, Existing, HasFiring, TableOk, Unopened, After, NewRow;
  }
}
