/** Evaluations during which nodes are deleted: exactly when a triggered key is left without an open alert. */
module AlertDeletions {
  import opened Wrappers
  import opened Alerts

  // ---------- what one statement does to a key ----------

  /** The statement opens an alert for the key, or acknowledges its newest row. */
  predicate Opening(db: Db, e: Event, key: Key) {
    || (e == FireStep(key) && db.run.Some? && key in db.run.value.toFire && Opens(db.run.value.existing, key))
    || (e.Ack? && Newest(db.rows, key).Some? && Newest(db.rows, key).value.id == e.id)
  }

  /** The statement recovers the row with this id. */
  predicate Recovers(db: Db, e: Event, id: nat) {
    e.RecoverStep? && db.run.Some? &&
    var run := db.run.value;
    run.toFire == {} && e.key in run.toRecover && Cleared(run.existing, run.triggered, e.key)
        && run.existing[e.key].id == id
  }

  /** The statement deletes the key's node, or recovers its newest row. */
  predicate Closing(db: Db, e: Event, key: Key) {
    || e == DeleteNode(key.node)
    || (Newest(db.rows, key).Some? && Recovers(db, e, Newest(db.rows, key).value.id))
  }

  lemma {:induction false} NothingOfNode(rows: seq<Row>, key: Key)
    ensures Newest(Delete(rows, key.node), key) == None
  {
    if rows != [] {
      var n := |rows| - 1;
      NothingOfNode(rows[..n], key);
      var front := Delete(rows[..n], key.node);
      if rows[n].key.node != key.node {
        NewestAfterInsert(front, rows[n], key);
      } else {
        assert front + [] == front;
      }
    }
  }

  lemma OpenAfterUpdate(rows: seq<Row>, id: nat, c: Change, key: Key)
    ensures Open(Update(rows, id, c), key) <==>
            Newest(rows, key).Some? &&
            var row := Newest(rows, key).value;
            if row.id != id then !row.status.Recovered?
            else if c.Recover? then false else if c.Acknowledge? then true else !row.status.Recovered?
  {
    NewestAfterUpdate(rows, id, c, key);
    hide Newest;
  }

  lemma OpenAfterFire(db: Db, k: Key, key: Key)
    requires Inv(db)
    ensures Open(Next(db, FireStep(k)).rows, key) <==> Opening(db, FireStep(k), key) || Open(db.rows, key)
  {
    hide Newest, Update, TableOk, HasFiring;
    NextKeepsInv(db, FireStep(k));
    if db.run.Some? && k in db.run.value.toFire {
      var e := db.run.value;
      if Opens(e.existing, k) {
        NewestAfterInsert(db.rows, NewRow(db.rows, k, e.triggered[k], e.now), key);
      } else {
        OpenAfterUpdate(db.rows, e.existing[k].id, Touch(e.now), key);
        OpenAfterUpdate(db.rows, e.existing[k].id, Refresh(e.now, e.triggered[k]), key);
      }
    }
  }

  lemma OpenAfterRecover(db: Db, k: Key, key: Key)
    requires Inv(db)
    ensures Open(Next(db, RecoverStep(k)).rows, key) <==> Open(db.rows, key) && !Closing(db, RecoverStep(k), key)
  {
    hide Newest, Update, TableOk, Unopened;
    if db.run.Some? && k in db.run.value.existing {
      OpenAfterUpdate(db.rows, db.run.value.existing[k].id, Recover(db.run.value.now), key);
    }
  }

  lemma OpenAfterDelete(rows: seq<Row>, node: string, key: Key)
    ensures Open(Delete(rows, node), key) <==> Open(rows, key) && node != key.node
  {
    if node == key.node { NothingOfNode(rows, key); } else { NewestAfterDelete(rows, node, key); }
  }

  /** A statement leaves the key open if and only if it opens it, or the key was open and the statement does not close
      it. */
  lemma OpenAfterStep(db: Db, e: Event, key: Key)
    requires Inv(db)
    ensures Open(Next(db, e).rows, key) <==> Opening(db, e, key) || (Open(db.rows, key) && !Closing(db, e, key))
    ensures !(Opening(db, e, key) && Closing(db, e, key))
  {
    hide Inv, Open, Newest, Existing, Update, Delete, Violates;
    match e
    case Begin(_, _) =>
    case FireStep(k) => OpenAfterFire(db, k, key);
    case RecoverStep(k) => OpenAfterRecover(db, k, key);
    case Finish =>
    case Ack(id, at) => AckOpens(db.rows, id, at, key);
    case DeleteNode(node) => OpenAfterDelete(db.rows, node, key);
  }

  lemma AckOpens(rows: seq<Row>, id: nat, at: int, key: Key)
    ensures Open(Update(rows, id, Acknowledge(at)), key) <==>
            (Newest(rows, key).Some? && Newest(rows, key).value.id == id) || Open(rows, key)
  {
    OpenAfterUpdate(rows, id, Acknowledge(at), key);
    hide Newest, Update;
  }

  // ---------- what a run does to a key ----------

  lemma {:induction false} AfterLast(db: Db, events: seq<Event>)
    requires events != []
    ensures After(db, events) == Next(After(db, events[..|events| - 1]), events[|events| - 1])
    decreases |events|
  {
    hide Next;
    if |events| == 1 {
      OneStep(db, events[0]);
      assert events == [events[0]] && events[..0] == [];
    } else {
      AfterLast(Next(db, events[0]), events[1..]);
      assert events[1..][..|events| - 2] == events[..|events| - 1][1..];
    }
  }

  ghost predicate OpensAt(db: Db, events: seq<Event>, k: nat, key: Key)
    requires k < |events|
  {
    Opening(After(db, events[..k]), events[k], key)
  }

  ghost predicate ClosesAt(db: Db, events: seq<Event>, k: nat, key: Key)
    requires k < |events|
  {
    Closing(After(db, events[..k]), events[k], key)
  }

  /** Every statement that closes the key is followed by one that opens it. */
  ghost predicate Repaired(db: Db, events: seq<Event>, key: Key) {
    forall j :: 0 <= j < |events| && ClosesAt(db, events, j, key) ==>
          exists k :: j < k < |events| && OpensAt(db, events, k, key)
  }

  ghost predicate EverOpens(db: Db, events: seq<Event>, key: Key) {
    exists k :: 0 <= k < |events| && OpensAt(db, events, k, key)
  }

  lemma PrefixEvents(db: Db, events: seq<Event>, k: nat, key: Key)
    requires events != [] && k < |events| - 1
    ensures OpensAt(db, events[..|events| - 1], k, key) == OpensAt(db, events, k, key)
    ensures ClosesAt(db, events[..|events| - 1], k, key) == ClosesAt(db, events, k, key)
  {
    assert events[..|events| - 1][..k] == events[..k];
  }

  /** At the end of a run the key is open if and only if it was open before or was opened, and every closing was
      repaired. */
  lemma {:induction false} OpenAfterRun(db: Db, events: seq<Event>, key: Key)
    requires Inv(db)
    ensures Open(After(db, events).rows, key) <==>
              (Open(db.rows, key) || EverOpens(db, events, key)) && Repaired(db, events, key)
    decreases |events|
  {
    hide Inv, Open, Next, Opening, Closing, OpensAt, ClosesAt;
    if events != [] {
      var n := |events| - 1;
      var front := events[..n];
      OpenAfterRun(db, front, key);
      AfterLast(db, events);
      InvFrom(db, front);
      OpenAfterStep(After(db, front), events[n], key);
      LastEvent(db, events, key);
      forall k | 0 <= k < n
        ensures OpensAt(db, front, k, key) == OpensAt(db, events, k, key)
                && ClosesAt(db, front, k, key) == ClosesAt(db, events, k, key)
      {
        PrefixEvents(db, events, k, key);
      }
      LastDecides(db, events, key);
    }
  }

  lemma LastEvent(db: Db, events: seq<Event>, key: Key)
    requires events != []
    ensures var n := |events| - 1;
            && OpensAt(db, events, n, key) == Opening(After(db, events[..n]), events[n], key)
            && ClosesAt(db, events, n, key) == Closing(After(db, events[..n]), events[n], key)
  {
  }

  lemma LastDecides(db: Db, events: seq<Event>, key: Key)
    requires events != []
    requires var front := events[..|events| - 1];
             forall k :: 0 <= k < |events| - 1 ==>
               OpensAt(db, front, k, key) == OpensAt(db, events, k, key)
                   && ClosesAt(db, front, k, key) == ClosesAt(db, events, k, key)
    ensures var n, front := |events| - 1, events[..|events| - 1];
            && EverOpens(db, events, key) == (EverOpens(db, front, key) || OpensAt(db, events, n, key))
            && (OpensAt(db, events, n, key) && !ClosesAt(db, events, n, key) ==> Repaired(db, events, key))
            && (ClosesAt(db, events, n, key) ==> !Repaired(db, events, key))
            && (!OpensAt(db, events, n, key) && !ClosesAt(db, events, n, key) ==>
                  Repaired(db, events, key) == Repaired(db, front, key))
  {
    hide OpensAt, ClosesAt;
    var n, front := |events| - 1, events[..|events| - 1];
    if EverOpens(db, front, key) {
      var k :| 0 <= k < |front| && OpensAt(db, front, k, key);
      assert OpensAt(db, events, k, key);
    }
    if EverOpens(db, events, key) && !OpensAt(db, events, n, key) {
      var k :| 0 <= k < |events| && OpensAt(db, events, k, key);
      assert OpensAt(db, front, k, key);
    }
    if !OpensAt(db, events, n, key) && !ClosesAt(db, events, n, key) {
      SameRepairs(db, events, front, key);
    }
  }

  lemma SameRepairs(db: Db, events: seq<Event>, front: seq<Event>, key: Key)
    requires |events| == |front| + 1 && !OpensAt(db, events, |front|, key) && !ClosesAt(db, events, |front|, key)
    requires forall k :: 0 <= k < |front| ==>
               OpensAt(db, front, k, key) == OpensAt(db, events, k, key)
                   && ClosesAt(db, front, k, key) == ClosesAt(db, events, k, key)
    ensures Repaired(db, events, key) == Repaired(db, front, key)
  {
    hide OpensAt, ClosesAt;
    if Repaired(db, events, key) {
      forall j | 0 <= j < |front| && ClosesAt(db, front, j, key)
        ensures exists k :: j < k < |front| && OpensAt(db, front, k, key)
      {
        var k :| j < k < |events| && OpensAt(db, events, k, key);
        assert OpensAt(db, front, k, key);
      }
    }
    if Repaired(db, front, key) {
      forall j | 0 <= j < |events| && ClosesAt(db, events, j, key)
        ensures exists k :: j < k < |events| && OpensAt(db, events, k, key)
      {
        var k :| j < k < |front| && OpensAt(db, front, k, key);
        assert OpensAt(db, events, k, key);
      }
    }
  }

  // ---------- a finished evaluation ----------

  /** The evaluation has visited every key of both loops. */
  predicate Visited(db: Db) {
    db.run.Some? && db.run.value.toFire == {} && db.run.value.toRecover == {}
  }

  lemma {:induction false} VisitOpens(db: Db, events: seq<Event>, key: Key)
    requires Inv(db) && db.run.Some? && Finish !in events
    requires key in db.run.value.toFire && Opens(db.run.value.existing, key)
    requires var end := After(db, events).run; end.None? || key !in end.value.toFire
    ensures EverOpens(db, events, key)
    decreases |events|
  {
    hide TableOk, Unopened, Tidy, Update, Delete, NewRow, HasFiring, Opens;
    assert events != [];
    assert events[0] in events;
    NextKeepsInv(db, events[0]);
    if events[0] == FireStep(key) {
      assert OpensAt(db, events, 0, key) by { assert events[..0] == []; }
    } else {
      var next := Next(db, events[0]);
      SnapshotStays(db, [events[0]]);
      OneStep(db, events[0]);
      VisitOpens(next, events[1..], key);
      var k :| 0 <= k < |events| - 1 && OpensAt(next, events[1..], k, key);
      assert events[..k + 1][1..] == events[1..][..k];
      assert OpensAt(db, events, k + 1, key);
    }
  }

  /** With deletions and acknowledgements falling anywhere, an evaluation that visits every key leaves a triggered key
      open if and only if every statement that closed it was followed by one that opened it. */
  lemma SettlesIffRepaired(before: seq<Event>, now: int, triggered: map<Key, string>, events: seq<Event>, key: Key)
    requires After(START, before).run.None? && Finish !in events && key in triggered
    requires Visited(After(Next(After(START, before), Begin(now, triggered)), events))
    ensures var begun := Next(After(START, before), Begin(now, triggered));
            Open(After(begun, events).rows, key) <==> Repaired(begun, events, key)
  {
    hide Open, EverOpens, Repaired, Inv;
    var db := After(START, before);
    var begun := Next(db, Begin(now, triggered));
    InitialInv();
    InvFrom(START, before);
    NextKeepsInv(db, Begin(now, triggered));
    OpenAfterRun(begun, events, key);
    OpenMeansNotOpens(db.rows, key);
    if !Open(db.rows, key) { VisitOpens(begun, events, key); }
  }

  lemma InitialInv()
    ensures Inv(START)
  {
  }

  lemma OpenMeansNotOpens(rows: seq<Row>, key: Key)
    ensures Open(rows, key) <==> !Opens(Existing(rows), key)
  {
    hide Newest, Existing;
  }

  lemma DeleteKeepsDue(rows: seq<Row>, e: Evaluation, node: string)
    requires TableOk(rows) && OthersAreDue(rows, e)
    ensures OthersAreDue(Delete(rows, node), e)
  {
    DeleteMeans(rows, node);
    var rows' := Delete(rows, node);
    assert forall i :: 0 <= i < |rows'| ==> rows'[i] in rows;
    hide TableOk;
  }

  lemma DueStep(db: Db, event: Event)
    requires Inv(db) && db.run.Some? && OthersAreDue(db.rows, db.run.value) && event != Finish
    ensures Next(db, event).run.Some? && OthersAreDue(Next(db, event).rows, Next(db, event).run.value)
  {
    hide TableOk, Update, Delete, HasFiring;
    NextKeepsInv(db, event);
    var e := db.run.value;
    match event
    case FireStep(key) =>
      if key in e.toFire && !Opens(e.existing, key) {
        UpdateKeepsDue(db.rows, e, e.existing[key].id, Touch(e.now));
        UpdateKeepsDue(db.rows, e, e.existing[key].id, Refresh(e.now, e.triggered[key]));
      }
    case RecoverStep(key) =>
      if key in e.existing && Cleared(e.existing, e.triggered, key) { RecoverSettles(db.rows, e, key); }
    case Ack(id, at) => UpdateKeepsDue(db.rows, e, id, Acknowledge(at));
    case DeleteNode(node) => DeleteKeepsDue(db.rows, e, node);
    case _ =>
  }

  lemma {:induction false} DueFrom(db: Db, events: seq<Event>)
    requires Inv(db) && db.run.Some? && OthersAreDue(db.rows, db.run.value) && Finish !in events
    ensures var end := After(db, events); end.run.Some? && OthersAreDue(end.rows, end.run.value)
    decreases |events|
  {
    hide Inv, Next, OthersAreDue;
    if events != [] {
      assert events[0] in events;
      DueStep(db, events[0]);
      NextKeepsInv(db, events[0]);
      DueFrom(Next(db, events[0]), events[1..]);
    }
  }

  /** ... and, deletions or not, no other key is left firing. */
  lemma OnlyTriggeredFire(before: seq<Event>, now: int, triggered: map<Key, string>, events: seq<Event>, key: Key)
    requires After(START, before).run.None? && Finish !in events
    requires var end := After(Next(After(START, before), Begin(now, triggered)), events);
             Visited(end) && HasFiring(end.rows, key)
    ensures key in triggered
  {
    hide Existing, After;
    var db := After(START, before);
    var begun := Next(db, Begin(now, triggered));
    InitialInv();
    InvFrom(START, before);
    NextKeepsInv(db, Begin(now, triggered));
    FiringIsInSnapshot(db.rows, begun.run.value);
    DueFrom(begun, events);
    SnapshotStays(begun, events);
  }

  // ---------- the freed id ----------

  /** The recovery loop has passed a snapshot row with this id. */
  ghost predicate Lost(e: Evaluation, id: nat) {
    exists g :: g in e.existing && Cleared(e.existing, e.triggered, g) && g !in e.toRecover && e.existing[g].id == id
  }

  /** What holds of a triggered key whose node is kept: the loops run one after the other; a key that had an open alert
      keeps it under an id of its own; a visited key has a row. */
  ghost predicate Kept(db: Db, key: Key) {
    && db.run.Some? && key in db.run.value.triggered
    && var e := db.run.value;
       && (e.toFire != {} ==> e.toRecover == e.existing.Keys)
       && (key !in e.toFire ==> Newest(db.rows, key).Some?)
       && (!Opens(e.existing, key) ==>
             && Open(db.rows, key) && Newest(db.rows, key).value.id == e.existing[key].id
             && forall g :: g in e.existing && g != key ==> e.existing[g].id != e.existing[key].id)
  }

  /** A key that was opened in this evaluation is closed exactly if its row's id was that of a recovered snapshot
      row. */
  ghost predicate ClosedIfLost(db: Db, key: Key) {
    db.run.Some? && key !in db.run.value.toFire && Opens(db.run.value.existing, key) && Newest(db.rows, key).Some? ==>
      (!Open(db.rows, key) <==> Lost(db.run.value, Newest(db.rows, key).value.id))
  }

  lemma BeginKeeps(db: Db, now: int, triggered: map<Key, string>, key: Key)
    requires Inv(db) && db.run.None? && key in triggered
    ensures Kept(Next(db, Begin(now, triggered)), key)
  {
    hide Newest, Existing;
    var existing := Existing(db.rows);
    forall g | key in existing && g in existing && g != key ensures existing[g].id != existing[key].id {
      if existing[g].id == existing[key].id { SameId(db.rows, existing[g], existing[key]); }
    }
  }

  lemma NewestStays(db: Db, event: Event, key: Key)
    requires Inv(db) && event != DeleteNode(key.node) && Newest(db.rows, key).Some?
    requires !(event == FireStep(key) && Opening(db, event, key))
    ensures var newest := Newest(Next(db, event).rows, key);
            newest.Some? && newest.value.id == Newest(db.rows, key).value.id
  {
    hide Newest, Existing, TableOk, HasFiring, Update, Delete;
    NextKeepsInv(db, event);
    match event
    case FireStep(k) =>
      if db.run.Some? && k in db.run.value.toFire {
        var e := db.run.value;
        if Opens(e.existing, k) {
          NewestAfterInsert(db.rows, NewRow(db.rows, k, e.triggered[k], e.now), key);
        } else {
          NewestAfterUpdate(db.rows, e.existing[k].id, Touch(e.now), key);
          NewestAfterUpdate(db.rows, e.existing[k].id, Refresh(e.now, e.triggered[k]), key);
        }
      }
    case RecoverStep(k) =>
      if db.run.Some? && k in db.run.value.existing {
        NewestAfterUpdate(db.rows, db.run.value.existing[k].id, Recover(db.run.value.now), key);
      }
    case Ack(id, at) => NewestAfterUpdate(db.rows, id, Acknowledge(at), key);
    case DeleteNode(node) => NewestAfterDelete(db.rows, node, key);
    case _ =>
  }

  lemma OpeningHasRow(db: Db, key: Key)
    requires Inv(db) && Opening(db, FireStep(key), key)
    ensures Newest(Next(db, FireStep(key)).rows, key).Some? && Next(db, FireStep(key)).run.Some?
    ensures Next(db, FireStep(key)).run.value.toRecover == db.run.value.toRecover
  {
    hide Newest, HasFiring, TableOk;
    NextKeepsInv(db, FireStep(key));
    NewestAfterInsert(db.rows, NewRow(db.rows, key, db.run.value.triggered[key], db.run.value.now), key);
  }

  lemma LoopsInTurn(db: Db, event: Event)
    requires Inv(db) && db.run.Some? && event != Finish
             && (db.run.value.toFire != {} ==> db.run.value.toRecover == db.run.value.existing.Keys)
    ensures var e, run := db.run.value, Next(db, event).run;
            && run.Some? && run.value.existing == e.existing && run.value.triggered == e.triggered
            && (run.value.toFire != {} ==> run.value.toRecover == run.value.existing.Keys)
            && run.value.toFire == (if event.FireStep? then e.toFire - {event.key} else e.toFire)
            && run.value.toRecover
            == (if event.RecoverStep? && e.toFire == {} then e.toRecover - {event.key} else e.toRecover)
  {
    hide TableOk, Update, Delete, HasFiring, Opens, NewRow;
    NextKeepsInv(db, event);
  }

  lemma KeptStep(db: Db, event: Event, key: Key)
    requires Inv(db) && Kept(db, key) && event != Finish && event != DeleteNode(key.node)
    ensures Kept(Next(db, event), key)
  {
    hide Inv, Newest, Next, Opens, Open;
    LoopsInTurn(db, event);
    OpenAfterStep(db, event, key);
    if event == FireStep(key) && Opening(db, event, key) {
      OpeningHasRow(db, key);
      OpeningIsOpen(db, event, key);
    } else if Newest(db.rows, key).Some? {
      NewestStays(db, event, key);
    }
    if !Opens(db.run.value.existing, key) {
      NotClosed(db, event, key);
      OpenHasRow(db.rows, key);
    }
  }

  lemma OpenHasRow(rows: seq<Row>, key: Key)
    requires Open(rows, key)
    ensures Newest(rows, key).Some?
  {
  }

  lemma OpeningIsOpen(db: Db, event: Event, key: Key)
    requires event == FireStep(key) && Opening(db, event, key)
    ensures Opens(db.run.value.existing, key)
  {
  }

  /** A key that was open at the beginning is not closed while its node is kept. */
  lemma NotClosed(db: Db, event: Event, key: Key)
    requires Kept(db, key) && event != DeleteNode(key.node) && !Opens(db.run.value.existing, key)
    ensures !Closing(db, event, key)
  {
    hide Newest, Open;
  }

  lemma {:induction false} KeptFrom(db: Db, events: seq<Event>, key: Key)
    requires Inv(db) && Kept(db, key) && Finish !in events && DeleteNode(key.node) !in events
    ensures Kept(After(db, events), key) && Inv(After(db, events))
    decreases |events|
  {
    hide Inv, Next, Kept;
    if events != [] {
      assert events[0] in events;
      KeptStep(db, events[0], key);
      NextKeepsInv(db, events[0]);
      KeptFrom(Next(db, events[0]), events[1..], key);
    }
  }

  /** No acknowledgement in the run names the row that is the key's newest. */
  predicate Unacknowledged(rows: seq<Row>, events: seq<Event>, key: Key) {
    Newest(rows, key).Some? ==> forall e :: e in events && e.Ack? ==> e.id != Newest(rows, key).value.id
  }

  lemma NotLostYet(e: Evaluation, id: nat)
    requires e.toRecover == e.existing.Keys
    ensures !Lost(e, id)
  {
  }

  lemma LostStep(db: Db, event: Event, id: nat)
    requires Inv(db) && db.run.Some? && event != Finish
    requires db.run.value.toFire != {} ==> db.run.value.toRecover == db.run.value.existing.Keys
    ensures Next(db, event).run.Some?
            && (Lost(Next(db, event).run.value, id) <==> Lost(db.run.value, id) || Recovers(db, event, id))
  {
    hide Inv, Next;
    LoopsInTurn(db, event);
    var e, e' := db.run.value, Next(db, event).run.value;
    assert event.RecoverStep? || e'.toRecover == e.toRecover;
  }

  lemma OpeningEnds(db: Db, key: Key)
    requires Inv(db) && Kept(db, key) && Opening(db, FireStep(key), key)
    ensures ClosedIfLost(Next(db, FireStep(key)), key)
  {
    hide Inv, Newest, Next, Open, Lost;
    LoopsInTurn(db, FireStep(key));
    OpeningHasRow(db, key);
    OpenAfterStep(db, FireStep(key), key);
    var next := Next(db, FireStep(key));
    NotLostYet(next.run.value, Newest(next.rows, key).value.id);
  }

  lemma VisitedStep(db: Db, event: Event, key: Key)
    requires Inv(db) && Kept(db, key) && ClosedIfLost(db, key) && key !in db.run.value.toFire
             && Opens(db.run.value.existing, key)
    requires event != Finish && event != DeleteNode(key.node)
    requires event.Ack? && Newest(db.rows, key).Some? ==> event.id != Newest(db.rows, key).value.id
    ensures ClosedIfLost(Next(db, event), key)
  {
    hide Inv, Newest, Next, Open, Lost, Opens;
    LoopsInTurn(db, event);
    NewestStays(db, event, key);
    OpenAfterStep(db, event, key);
    LostStep(db, event, Newest(db.rows, key).value.id);
    hide Recovers;
  }

  lemma ClosedIfLostStep(db: Db, event: Event, key: Key)
    requires Inv(db) && Kept(db, key) && event != Finish && event != DeleteNode(key.node)
    requires key !in db.run.value.toFire && Opens(db.run.value.existing, key) ==>
               ClosedIfLost(db, key)
                   && (event.Ack? && Newest(db.rows, key).Some? ==> event.id != Newest(db.rows, key).value.id)
    ensures ClosedIfLost(Next(db, event), key)
  {
    hide Inv, Newest, Next, Open, Lost, Opens;
    LoopsInTurn(db, event);
    if key !in db.run.value.toFire && Opens(db.run.value.existing, key) {
      VisitedStep(db, event, key);
    } else if event == FireStep(key) && key in db.run.value.toFire && Opens(db.run.value.existing, key) {
      OpeningEnds(db, key);
    }
  }

  lemma {:induction false} ClosedIfLostFrom(db: Db, events: seq<Event>, key: Key)
    requires Inv(db) && Kept(db, key) && db.run.Some? && key in db.run.value.toFire
    requires Finish !in events && DeleteNode(key.node) !in events && Unacknowledged(After(db, events).rows, events, key)
    ensures ClosedIfLost(After(db, events), key)
    decreases |events|
  {
    hide Inv, Kept, Next, Newest, Open, Lost, Opens, Opening;
    if events == [] {
      StillToVisit(db, key);
    } else {
      var n := |events| - 1;
      var front, middle := events[..n], After(db, events[..n]);
      AfterLast(db, events);
      KeptFrom(db, front, key);
      KeptHasRow(middle, key);
      assert events[n] in events && forall e :: e in front ==> e in events;
      if key !in middle.run.value.toFire && Opens(middle.run.value.existing, key) {
        NotOpening(middle, events[n], key);
        NewestStays(middle, events[n], key);
        ClosedIfLostFrom(db, front, key);
      }
      ClosedIfLostStep(middle, events[n], key);
    }
  }

  lemma StillToVisit(db: Db, key: Key)
    requires db.run.Some? && key in db.run.value.toFire
    ensures ClosedIfLost(db, key)
  {
  }

  lemma KeptHasRow(db: Db, key: Key)
    requires Kept(db, key)
    ensures db.run.Some? && (key !in db.run.value.toFire ==> Newest(db.rows, key).Some?)
  {
  }

  lemma NotOpening(db: Db, event: Event, key: Key)
    requires db.run.Some? && key !in db.run.value.toFire
    ensures !(event == FireStep(key) && Opening(db, event, key))
  {
  }

  /** A triggered key whose node is kept is left without an open alert if and only if it had none when the evaluation
      began and the row inserted for it received the id, freed by a deletion, of a snapshot row that was firing and is
      not triggered; unless an acknowledgement of that row intervenes, for which SettlesIffRepaired gives the
      condition. */
  lemma UnsettledIffIdReused(before: seq<Event>, now: int, triggered: map<Key, string>, events: seq<Event>, key: Key)
    requires After(START, before).run.None? && Finish !in events && key in triggered && DeleteNode(key.node) !in events
    requires var end := After(Next(After(START, before), Begin(now, triggered)), events);
             Visited(end) && Unacknowledged(end.rows, events, key)
    ensures var rows := After(START, before).rows;
            var end := After(Next(After(START, before), Begin(now, triggered)), events).rows;
            && Newest(end, key).Some?
            && (!Open(end, key) <==>
                  !Open(rows, key)
                  && exists g ::
                       Cleared(Existing(rows), triggered, g) && Existing(rows)[g].id == Newest(end, key).value.id)
  {
    var db := After(START, before);
    var begun := Next(db, Begin(now, triggered));
    InitialInv();
    InvFrom(START, before);
    NextKeepsInv(db, Begin(now, triggered));
    BeginKeeps(db, now, triggered, key);
    var end := After(begun, events);
    KeptFrom(begun, events, key);
    ClosedIfLostFrom(begun, events, key);
    SnapshotStays(begun, events);
    OpenMeansNotOpens(db.rows, key);
    hide Inv, Newest, Existing, Open, After;
  }
}
