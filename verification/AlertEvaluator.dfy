/** Evaluate and handleAlertAck over the table they update (internal/panel/alert/alert.go:33-165 and 208-225,
    internal/panel/api/admin.go:641-657). */
module AlertEvaluator {
  import opened Wrappers
  import opened Alerts
  import opened AlertEffects

  /** The keys for which an alert is opened, in the order the loop visits them. */
  function Opened(existing: map<Key, Row>, order: seq<Key>): seq<Key> {
    if order == [] then [] else (if Opens(existing, order[0]) then [order[0]] else []) + Opened(existing, order[1..])
  }

  function Closed(existing: map<Key, Row>, triggered: map<Key, string>, order: seq<Key>): seq<Key> {
    if order == [] then []
    else (if Cleared(existing, triggered, order[0]) then [order[0]] else []) + Closed(existing, triggered, order[1..])
  }

  ghost predicate Visits(order: seq<Key>, keys: set<Key>) {
    && (forall i, j :: 0 <= i < j < |order| ==> order[i] != order[j])
    && (forall key :: key in order <==> key in keys)
  }

  /** What notify puts before the message of an alert that was opened, and of one that was closed. */
  const OPENED_PREFIX: string := "\U{544A}\U{8B66}\U{FF1A}"
  const CLOSED_PREFIX: string := "\U{6062}\U{590D}\U{FF1A}"

  function Prefixed(prefix: string, texts: seq<string>): (r: seq<string>)
    ensures |r| == |texts| && forall i :: 0 <= i < |texts| ==> r[i] == prefix + texts[i]
  {
    seq(|texts|, i requires 0 <= i < |texts| => prefix + texts[i])
  }

  /** The messages sent: one for every alert opened, one for every alert closed with the message it had before. */
  function OpenTexts(existing: map<Key, Row>, triggered: map<Key, string>, order: seq<Key>): seq<string> {
    var keys := Opened(existing, order);
    seq(|keys|, i requires 0 <= i < |keys| => if keys[i] in triggered then triggered[keys[i]] else "")
  }

  function CloseTexts(existing: map<Key, Row>, triggered: map<Key, string>, order: seq<Key>): seq<string> {
    var keys := Closed(existing, triggered, order);
    seq(|keys|, i requires 0 <= i < |keys| => if keys[i] in existing then existing[keys[i]].message else "")
  }

  /** An opened alert is announced with the new message of its key, a closed one with the message its row had. */
  lemma TextsMean(existing: map<Key, Row>, triggered: map<Key, string>, order: seq<Key>)
    ensures var keys, texts := Opened(existing, order), OpenTexts(existing, triggered, order);
            |texts| == |keys| && forall i :: 0 <= i < |keys| && keys[i] in triggered ==> texts[i] == triggered[keys[i]]
    ensures var keys, texts := Closed(existing, triggered, order), CloseTexts(existing, triggered, order);
            |texts| == |keys| && forall i :: 0 <= i < |keys| && keys[i] in existing ==>
                                   texts[i] == existing[keys[i]].message
  {
    hide Opened, Closed;
  }

  /** How many keys the second loop visits when only budget statements succeed; a key that needs none costs nothing. */
  function Reach(existing: map<Key, Row>, triggered: map<Key, string>, order: seq<Key>, budget: nat): (n: nat)
    ensures n <= |order|
  {
    if order == [] then 0
    else if !Cleared(existing, triggered, order[0]) then 1 + Reach(existing, triggered, order[1..], budget)
    else if budget == 0 then 0
    else 1 + Reach(existing, triggered, order[1..], budget - 1)
  }

  /** All of it exactly if there are statements enough, otherwise as many alerts as statements are closed. */
  lemma {:induction false} ReachMeans(existing: map<Key, Row>, triggered: map<Key, string>, order: seq<Key>,
                                      budget: nat)
    ensures var n, due := Reach(existing, triggered, order, budget), |Closed(existing, triggered, order)|;
            && (n == |order| <==> due <= budget)
            && |Closed(existing, triggered, order[..n])| == (if due <= budget then due else budget)
  {
    hide Cleared;
    if order != [] {
      var n := Reach(existing, triggered, order, budget);
      if n > 0 {
        assert order[..n][0] == order[0] && order[..n][1..] == order[1..][..n - 1];
      }
      if !Cleared(existing, triggered, order[0]) {
        ReachMeans(existing, triggered, order[1..], budget);
      } else if budget > 0 {
        ReachMeans(existing, triggered, order[1..], budget - 1);
      }
    }
  }

  function AtMost(n: nat, limit: nat): nat {
    if n < limit then n else limit
  }

  /** The texts for what an evaluation that visits these keys has opened and closed. */
  function Due(existing: map<Key, Row>, triggered: map<Key, string>, fires: seq<Key>, recovers: seq<Key>): seq<string> {
    Prefixed(OPENED_PREFIX, OpenTexts(existing, triggered, fires))
    + Prefixed(CLOSED_PREFIX, CloseTexts(existing, triggered, recovers))
  }

  /** First the opened ones, each after the word for an alarm, then the closed ones, each after that for a recovery. */
  lemma DueMeans(existing: map<Key, Row>, triggered: map<Key, string>, fires: seq<Key>, recovers: seq<Key>)
    ensures var begun, over := OpenTexts(existing, triggered, fires), CloseTexts(existing, triggered, recovers);
            var due := Due(existing, triggered, fires, recovers);
            && |due| == |begun| + |over|
            && (forall i :: 0 <= i < |begun| ==> due[i] == "\U{544A}\U{8B66}\U{FF1A}" + begun[i])
            && forall i :: |begun| <= i < |due| ==> due[i] == "\U{6062}\U{590D}\U{FF1A}" + over[i - |begun|]
  {
    hide OpenTexts, CloseTexts;
  }

  lemma {:induction false} OpenedMeans(existing: map<Key, Row>, order: seq<Key>)
    ensures forall key :: key in Opened(existing, order) <==> key in order && Opens(existing, key)
  {
    if order != [] {
      OpenedMeans(existing, order[1..]);
      assert order == [order[0]] + order[1..];
    }
  }

  lemma {:induction false} ClosedMeans(existing: map<Key, Row>, triggered: map<Key, string>, order: seq<Key>)
    ensures forall key :: key in Closed(existing, triggered, order) <==>
              key in order && Cleared(existing, triggered, key)
  {
    if order != [] {
      ClosedMeans(existing, triggered, order[1..]);
      assert order == [order[0]] + order[1..];
    }
  }

  lemma {:induction false} OpenedSplits(existing: map<Key, Row>, order: seq<Key>, more: Key)
    ensures Opened(existing, order + [more]) == Opened(existing, order) + (if Opens(existing, more) then [more] else [])
  {
    hide Opens;
    if order == [] {
      assert [more][1..] == [] && order + [more] == [more];
    } else {
      OpenedSplits(existing, order[1..], more);
      assert (order + [more])[1..] == order[1..] + [more];
    }
  }

  lemma {:induction false} ClosedSplits(existing: map<Key, Row>, triggered: map<Key, string>, order: seq<Key>,
                                        more: Key)
    ensures Closed(existing, triggered, order + [more])
            == Closed(existing, triggered, order) + (if Cleared(existing, triggered, more) then [more] else [])
  {
    hide Cleared, Closed;
    ClosedNone(existing, triggered);
    ClosedCons(existing, triggered, order + [more]);
    if order == [] {
      assert [more][1..] == [] && order + [more] == [more];
    } else {
      ClosedSplits(existing, triggered, order[1..], more);
      ClosedCons(existing, triggered, order);
      assert (order + [more])[1..] == order[1..] + [more];
    }
  }

  lemma ClosedNone(existing: map<Key, Row>, triggered: map<Key, string>)
    ensures Closed(existing, triggered, []) == []
  {
  }

  lemma ClosedCons(existing: map<Key, Row>, triggered: map<Key, string>, order: seq<Key>)
    requires order != []
    ensures Closed(existing, triggered, order)
            == (if Cleared(existing, triggered, order[0]) then [order[0]] else [])
                + Closed(existing, triggered, order[1..])
  {
    hide Cleared;
  }

  lemma OpenTextsSplit(existing: map<Key, Row>, triggered: map<Key, string>, order: seq<Key>, more: Key)
    requires more in triggered
    ensures OpenTexts(existing, triggered, order + [more])
            == OpenTexts(existing, triggered, order) + (if Opens(existing, more) then [triggered[more]] else [])
  {
    OpenedSplits(existing, order, more);
    hide Opens, Opened;
  }

  lemma CloseTextsSplit(existing: map<Key, Row>, triggered: map<Key, string>, order: seq<Key>, more: Key)
    requires more in existing
    ensures CloseTexts(existing, triggered, order + [more])
            == CloseTexts(existing, triggered, order)
                + (if Cleared(existing, triggered, more) then [existing[more].message] else [])
  {
    ClosedSplits(existing, triggered, order, more);
    hide Cleared, Closed;
  }

  class AlertTable {
    var rows: seq<Row>

    ghost predicate Valid()
      reads this
    {
      TableOk(rows)
    }

    constructor ()
      ensures Valid() && rows == []
    {
      rows := [];
    }

    /** The row inserted must not meet the partial unique index on firing rows. */
    method Insert(key: Key, message: string, now: int)
      requires Valid() && !HasFiring(rows, key)
      modifies this
      ensures Valid() && rows == old(rows) + [NewRow(old(rows), key, message, now)]
    {
      OpenKeepsTable(rows, key, message, now);
      rows := rows + [NewRow(rows, key, message, now)];
    }

    /** Rows ordered by id; a later row of a key replaces an earlier one. */
    method LoadExisting() returns (existing: map<Key, Row>)
      ensures existing == Existing(rows)
    {
      existing := map[];
      for i := 0 to |rows|
        invariant existing == Existing(rows[..i])
      {
        assert rows[..i + 1][..i] == rows[..i];
        existing := existing[rows[i].key := rows[i]];
      }
      assert rows[..|rows|] == rows;
    }

    method Ack(id: nat, at: int) returns (found: bool)
      requires Valid()
      modifies this
      ensures Valid() && rows == Update(old(rows), id, Acknowledge(at))
      ensures found <==> exists i :: 0 <= i < |old(rows)| && old(rows)[i].id == id
      ensures |rows| == |old(rows)| && forall i :: 0 <= i < |rows| ==>
                rows[i] == if old(rows)[i].id != id then old(rows)[i]
                           else old(rows)[i].(status := Acknowledged, acknowledgedAt := at)
    {
      UpdateKeepsTable(rows, id, Acknowledge(at));
      found := exists i :: 0 <= i < |rows| && rows[i].id == id;
      rows := Update(rows, id, Acknowledge(at));
    }

    /** One turn of the first loop; left is what it still has to visit. */
    method FireOne(e: Evaluation, ghost left: set<Key>, key: Key) returns (text: seq<string>)
      requires Inv(Db(rows, Some(e.(toFire := left)))) && key in left && key in e.triggered
      modifies this
      ensures Db(rows, Some(e.(toFire := left - {key}))) == Next(old(Db(rows, Some(e.(toFire := left)))), FireStep(key))
      ensures Inv(Db(rows, Some(e.(toFire := left - {key}))))
      ensures text == (if Opens(e.existing, key) then [e.triggered[key]] else []) && |rows| == |old(rows)| + |text|
      ensures rows == Fired(old(rows), e, key)
    {
      hide Inv, Next, TableOk, HasFiring, Update, NewRow;
      ghost var before := Db(rows, Some(e.(toFire := left)));
      NextKeepsInv(before, FireStep(key));
      FireMeans(before, e, left, key);
      text := [];
      if Opens(e.existing, key) {
        InsertIsSafe(before, key);
        Insert(key, e.triggered[key], e.now);
        text := [e.triggered[key]];
      } else if e.existing[key].status.Acknowledged? {
        rows := Update(rows, e.existing[key].id, Touch(e.now));
      } else {
        rows := Update(rows, e.existing[key].id, Refresh(e.now, e.triggered[key]));
      }
    }

    /** The first loop; the statement after budget others fails. done keys are visited, left are not. */
    method Fire(e: Evaluation, order: seq<Key>, budget: nat)
        returns (fires: seq<string>, done: nat, ghost left: set<Key>)
      requires Inv(Db(rows, Some(e))) && Visits(order, e.toFire) && e.toFire == e.triggered.Keys
      requires e.existing == Existing(rows)
      modifies this
      ensures done == (if budget < |order| then budget else |order|) && (done == |order| ==> left == {})
      ensures Db(rows, Some(e.(toFire := left))) == After(old(Db(rows, Some(e))), FireSteps(order[..done]))
      ensures Inv(Db(rows, Some(e.(toFire := left))))
      ensures fires == OpenTexts(e.existing, e.triggered, order[..done]) && |rows| == |old(rows)| + |fires|
      ensures RowsExactly(old(rows), rows, e.now, e.triggered, order[..done], [])
    {
      hide Inv, Next, After, OpenTexts, Opens, FireSteps, Left, Visits, RowsExactly, Fired, Existing;
      NothingVisited(rows, e.now, e.triggered);
      ghost var db := Db(rows, Some(e));
      fires, done := [], 0;
      left := e.toFire;
      NoSteps(db, e);
      LeftAtFirst(order, left);
      while done < |order| && done < budget
        invariant done <= |order| && done <= budget
        invariant Db(rows, Some(e.(toFire := left))) == After(db, FireSteps(order[..done]))
        invariant Inv(Db(rows, Some(e.(toFire := left))))
        invariant Left(order, done, left)
        invariant fires == OpenTexts(e.existing, e.triggered, order[..done]) && |rows| == |old(rows)| + |fires|
        invariant RowsExactly(old(rows), rows, e.now, e.triggered, order[..done], [])
      {
        var key := order[done];
        NotVisited(order, e.toFire, done);
        InvAscends(Db(rows, Some(e.(toFire := left))));
        FireExactly(old(rows), rows, e, order[..done], key);
        VisitNext(order, e.toFire, done, left);
        OneMore(db, order[..done], key);
        OpenTextsSplit(e.existing, e.triggered, order[..done], key);
        var text := FireOne(e, left, key);
        fires := fires + text;
        left := left - {key};
        done := done + 1;
      }
      if done == |order| { NothingLeft(order, left); }
    }

    method RecoverOne(e: Evaluation, ghost left: set<Key>, key: Key) returns (text: seq<string>)
      requires Inv(Db(rows, Some(e.(toRecover := left)))) && e.toFire == {} && key in left && key in e.existing
      modifies this
      ensures Db(rows, Some(e.(toRecover := left - {key})))
              == Next(old(Db(rows, Some(e.(toRecover := left)))), RecoverStep(key))
      ensures Inv(Db(rows, Some(e.(toRecover := left - {key}))))
      ensures text == (if Cleared(e.existing, e.triggered, key) then [e.existing[key].message] else [])
              && |rows| == |old(rows)|
      ensures rows == Recovering(old(rows), e, key)
    {
      hide Inv, Next, Update;
      ghost var before := Db(rows, Some(e.(toRecover := left)));
      NextKeepsInv(before, RecoverStep(key));
      RecoverMeans(before, e, left, key);
      text := [];
      if Cleared(e.existing, e.triggered, key) {
        rows := Update(rows, e.existing[key].id, Change.Recover(e.now));
        text := [e.existing[key].message];
      }
    }

    /** The second loop; ok is false if it met the failing statement. */
    method Recover(e: Evaluation, order: seq<Key>, budget: nat, ghost before: seq<Row>, ghost fires: seq<Key>)
        returns (recoveries: seq<string>, ok: bool, done: nat, ghost left: set<Key>)
      requires Inv(Db(rows, Some(e))) && e.toFire == {} && Visits(order, e.toRecover) && e.toRecover == e.existing.Keys
      requires e.existing == Existing(before) && RowsExactly(before, rows, e.now, e.triggered, fires, [])
      requires forall key :: key in fires ==> key in e.triggered
      modifies this
      ensures done == Reach(e.existing, e.triggered, order, budget)
      ensures (ok <==> done == |order|) && (ok ==> left == {})
      ensures Db(rows, Some(e.(toRecover := left))) == After(old(Db(rows, Some(e))), RecoverSteps(order[..done]))
      ensures Inv(Db(rows, Some(e.(toRecover := left))))
      ensures recoveries == CloseTexts(e.existing, e.triggered, order[..done]) && |rows| == |old(rows)|
      ensures RowsExactly(before, rows, e.now, e.triggered, fires, order[..done])
    {
      hide Inv, Next, After, CloseTexts, Cleared, RecoverSteps, Reach, Left, Visits, RowsExactly, Recovering, Existing;
      ghost var db := Db(rows, Some(e));
      recoveries, done := [], 0;
      left := e.toRecover;
      NoSteps(db, e);
      LeftAtFirst(order, left);
      assert order[0..] == order;
      while done < |order|
        invariant done <= |order| && |recoveries| <= budget
        invariant done + Reach(e.existing, e.triggered, order[done..], budget - |recoveries|)
                  == Reach(e.existing, e.triggered, order, budget)
        invariant Db(rows, Some(e.(toRecover := left))) == After(db, RecoverSteps(order[..done]))
        invariant Inv(Db(rows, Some(e.(toRecover := left))))
        invariant Left(order, done, left)
        invariant recoveries == CloseTexts(e.existing, e.triggered, order[..done]) && |rows| == |old(rows)|
        invariant RowsExactly(before, rows, e.now, e.triggered, fires, order[..done])
      {
        var key := order[done];
        VisitNext(order, e.toRecover, done, left);
        NotVisited(order, e.toRecover, done);
        ReachSteps(e.existing, e.triggered, order, done, budget - |recoveries|);
        if Cleared(e.existing, e.triggered, key) && |recoveries| == budget {
          return recoveries, false, done, left;
        }
        InvAscends(Db(rows, Some(e.(toRecover := left))));
        RecoverExactly(before, rows, e, fires, order[..done], key);
        OneMoreRecovery(db, order[..done], key);
        CloseTextsSplit(e.existing, e.triggered, order[..done], key);
        var text := RecoverOne(e, left, key);
        recoveries := recoveries + text;
        left := left - {key};
        done := done + 1;
      }
      ok := true;
      ReachNothing(e.existing, e.triggered, budget - |recoveries|);
      NothingLeft(order, left);
    }

    /** Every message is sent after its prefix, whatever became of the others; failed if any was not delivered. */
    method Notify(prefix: string, texts: seq<string>, delivers: nat -> bool, first: nat)
        returns (sent: seq<string>, failed: bool)
      ensures sent == Prefixed(prefix, texts)
      ensures failed <==> exists i :: first <= i < first + |texts| && !delivers(i)
    {
      sent, failed := [], false;
      for i := 0 to |texts|
        invariant sent == Prefixed(prefix, texts[..i])
        invariant failed <==> exists j :: first <= j < first + i && !delivers(j)
      {
        sent := sent + [prefix + texts[i]];
        if !delivers(first + i) {
          failed := true;
        }
      }
      assert texts[..|texts|] == texts;
    }

    /** One evaluation, of which the statement after budget others fails; n keys of the first loop and m of the second
        are visited. It is completed exactly if there are statements enough for both loops. Completed, it leaves exactly
        the triggered keys open. The texts of all it opened and closed are sent if it is completed, and none of them
        otherwise. The orders are those in which the maps are walked. */
    method Evaluate(now: int, triggered: map<Key, string>, fireOrder: seq<Key>, recoverOrder: seq<Key>, budget: nat,
                    delivers: nat -> bool)
        returns (sent: seq<string>, completed: bool, failed: bool, ghost n: nat, ghost m: nat)
      requires Valid() && Visits(fireOrder, triggered.Keys) && Visits(recoverOrder, Existing(rows).Keys)
      modifies this
      ensures Valid()
      ensures n == AtMost(budget, |fireOrder|)
      ensures m == if budget < |fireOrder| then 0
                   else Reach(Existing(old(rows)), triggered, recoverOrder, budget - |fireOrder|)
      ensures rows == After(Next(Db(old(rows), None), Begin(now, triggered)),
                            FireSteps(fireOrder[..n]) + RecoverSteps(recoverOrder[..m])).rows
      ensures RowsExactly(old(rows), rows, now, triggered, fireOrder[..n], recoverOrder[..m])
      ensures |rows| == |old(rows)| + |OpenTexts(Existing(old(rows)), triggered, fireOrder[..n])|
      ensures completed <==>
                budget >= |fireOrder| + |CloseTexts(Existing(old(rows)), triggered, recoverOrder)|
      ensures completed ==> forall key :: key in triggered ==> Open(rows, key)
      ensures completed ==> forall key :: HasFiring(rows, key) ==> key in triggered
      ensures completed ==> n == |fireOrder| && m == |recoverOrder|
      ensures sent == if completed then Due(Existing(old(rows)), triggered, fireOrder[..n], recoverOrder[..m]) else []
      ensures failed <==> !completed || exists i :: 0 <= i < |sent| && !delivers(i)
    {
      hide Inv, Existing, Newest, HasFiring, Halfway, OpenTexts, CloseTexts, After, Next, FireSteps, RecoverSteps,
           Reach, RowsExactly, Prefixed;
      ghost var begun := Next(Db(rows, None), Begin(now, triggered));
      StartsWell(rows, now, triggered);
      var existing := LoadExisting();
      var e := Evaluation(now, triggered, existing, triggered.Keys, existing.Keys);
      BeginIs(rows, e);
      ghost var before := rows;
      var started, done;
      ghost var left;
      started, done, left := Fire(e, fireOrder, budget);
      n, m := done, 0;
      NoMoreSteps(FireSteps(fireOrder[..n]), recoverOrder);
      if done < |fireOrder| {
        InvTable(Db(rows, Some(e.(toFire := left))));
        return [], false, true, n, m;
      }
      var closed, ok, done';
      assert fireOrder[..n] == fireOrder;
      closed, ok, done', left := Recover(e.(toFire := {}), recoverOrder, budget - done, before, fireOrder[..n]);
      m := done';
      EnoughStatements(existing, triggered, recoverOrder, budget - done);
      AfterConcat(begun, FireSteps(fireOrder[..n]), RecoverSteps(recoverOrder[..m]));
      InvTable(Db(rows, Some(e.(toFire := {}, toRecover := left))));
      if !ok {
        return [], false, true, n, m;
      }
      StepsOnly(fireOrder[..n], recoverOrder[..m]);
      HalfwayFrom(begun, FireSteps(fireOrder[..n]) + RecoverSteps(recoverOrder[..m]));
      EndsWell(Db(rows, Some(e.(toFire := {}, toRecover := {}))));
      var fires, recoveries, late;
      fires, failed := Notify(OPENED_PREFIX, started, delivers, 0);
      recoveries, late := Notify(CLOSED_PREFIX, closed, delivers, |started|);
      sent, failed, completed := fires + recoveries, failed || late, true;
    }
  }

  /** An evaluation loses notifications if and only if it is cut short after it has opened or closed an alert. */
  lemma NotificationsLostIff(existing: map<Key, Row>, triggered: map<Key, string>, fires: seq<Key>, recovers: seq<Key>,
                             completed: bool, sent: seq<string>)
    requires sent == if completed then Due(existing, triggered, fires, recovers) else []
    ensures sent != Due(existing, triggered, fires, recovers) <==>
              !completed && ((exists key :: key in fires && Opens(existing, key))
                             || (exists key :: key in recovers && Cleared(existing, triggered, key)))
  {
    OpenedMeans(existing, fires);
    ClosedMeans(existing, triggered, recovers);
    SomeElement(Opened(existing, fires));
    SomeElement(Closed(existing, triggered, recovers));
    hide Opened, Closed, Opens, Cleared;
  }

  lemma SomeElement(keys: seq<Key>)
    ensures keys != [] <==> exists key :: key in keys
  {
    if keys != [] { assert keys[0] in keys; }
  }

  /** Such a run: two alerts to open, and a database that fails after one. Nothing is sent; the evaluation that follows
      finds the first alert open and sends the second one only. */
  method LostNotification(a: Key, b: Key, now: int)
      returns (table: AlertTable, completed: bool, sent: seq<string>, later: seq<string>)
    requires a != b
    ensures !completed && sent == []
    ensures later == [OPENED_PREFIX + "b"] && |table.rows| == 2 && Open(table.rows, a) && Open(table.rows, b)
  {
    hide Existing, Newest, HasFiring, After, Next, FireSteps, RecoverSteps, OpenTexts, CloseTexts, Reach;
    var triggered := map[a := "a", b := "b"];
    table := new AlertTable();
    NothingExists();
    var failed;
    ghost var n, m;
    sent, completed, failed, n, m := table.Evaluate(now, triggered, [a, b], [], 1, i => true);
    FirstOnly(a, b, triggered, now);
    assert table.rows == [NewRow([], a, "a", now)];
    SecondOnly(a, b, triggered, NewRow([], a, "a", now));
    var completed';
    later, completed', failed, n, m := table.Evaluate(now, triggered, [a, b], [a], 2, i => true);
    assert [a, b][..n] == [a, b] && [a][..m] == [a];
  }

  lemma FirstOnly(a: Key, b: Key, triggered: map<Key, string>, now: int)
    requires a in triggered
    ensures After(Next(Db([], None), Begin(now, triggered)), FireSteps([a, b][..1]) + RecoverSteps([][..0])).rows
            == [NewRow([], a, triggered[a], now)]
  {
    assert FireSteps([a, b][..1]) + RecoverSteps([][..0]) == [FireStep(a)];
    var begun := Next(Db([], None), Begin(now, triggered));
    assert Existing([]) == map[];
    OneStep(begun, FireStep(a));
    assert Next(begun, FireStep(a)).rows == [] + [NewRow([], a, triggered[a], now)];
  }

  lemma SecondOnly(a: Key, b: Key, triggered: map<Key, string>, row: Row)
    requires a != b && b in triggered && a in triggered && row.key == a && row.status.Firing?
    ensures Existing([row]) == map[a := row]
    ensures Due(Existing([row]), triggered, [a, b], [a]) == [OPENED_PREFIX + triggered[b]]
    ensures CloseTexts(Existing([row]), triggered, [a]) == []
    ensures OpenTexts(Existing([row]), triggered, [a, b]) == [triggered[b]]
  {
    assert [row][..0] == [] && Existing([row][..0]) == map[];
    var existing := Existing([row]);
    assert [a, b][1..] == [b] && [b][1..] == [] && [a][1..] == [];
    assert Opened(existing, [b]) == [b] + [] && Opened(existing, [a, b]) == [] + [b];
    assert Closed(existing, triggered, [a]) == [] + [];
  }

  lemma NotVisited(order: seq<Key>, keys: set<Key>, done: nat)
    requires done < |order| && Visits(order, keys)
    ensures order[done] !in order[..done] && order[done] in keys
  {
  }

  lemma InvAscends(db: Db)
    requires Inv(db)
    ensures Ascending(db.rows)
  {
  }

  /** left is what a loop over the order has still to visit. */
  ghost predicate Left(order: seq<Key>, done: nat, left: set<Key>)
    requires done <= |order|
  {
    forall key :: key in left <==> key in order[done..]
  }

  lemma LeftAtFirst(order: seq<Key>, keys: set<Key>)
    requires Visits(order, keys)
    ensures Left(order, 0, keys) && order[..0] == []
  {
    assert order[0..] == order;
  }

  lemma VisitNext(order: seq<Key>, keys: set<Key>, done: nat, left: set<Key>)
    requires done < |order| && Visits(order, keys) && Left(order, done, left)
    ensures order[done] in keys && order[done] in left && Left(order, done + 1, left - {order[done]})
    ensures order[..done + 1] == order[..done] + [order[done]]
  {
    var key := order[done];
    assert order[done..] == [key] + order[done + 1..];
    assert key !in order[done + 1..];
    assert key in order;
  }

  lemma NothingLeft(order: seq<Key>, left: set<Key>)
    requires Left(order, |order|, left)
    ensures left == {} && order[|order|..] == [] && order[..|order|] == order
  {
  }

  lemma NothingExists()
    ensures Existing([]) == map[] && forall triggered :: CloseTexts(map[], triggered, []) == []
  {
  }

  lemma NoMoreSteps(steps: seq<Event>, order: seq<Key>)
    ensures steps + RecoverSteps(order[..0]) == steps
    ensures forall existing, triggered :: CloseTexts(existing, triggered, order[..0]) == []
  {
    assert order[..0] == [] && RecoverSteps([]) == [];
  }

  lemma EnoughStatements(existing: map<Key, Row>, triggered: map<Key, string>, order: seq<Key>, budget: nat)
    ensures Reach(existing, triggered, order, budget) == |order| <==> |CloseTexts(existing, triggered, order)| <= budget
  {
    ReachMeans(existing, triggered, order, budget);
    hide Closed, Reach;
  }

  lemma ReachNothing(existing: map<Key, Row>, triggered: map<Key, string>, budget: nat)
    ensures Reach(existing, triggered, [], budget) == 0
  {
  }

  lemma ReachSteps(existing: map<Key, Row>, triggered: map<Key, string>, order: seq<Key>, done: nat, budget: nat)
    requires done < |order|
    ensures Reach(existing, triggered, order[done..], budget) ==
            if !Cleared(existing, triggered, order[done]) then 1 + Reach(existing, triggered, order[done + 1..], budget)
            else if budget == 0 then 0
            else 1 + Reach(existing, triggered, order[done + 1..], budget - 1)
  {
    hide Cleared;
    assert order[done..][1..] == order[done + 1..];
  }

  lemma BeginIs(rows: seq<Row>, e: Evaluation)
    requires e.existing == Existing(rows) && e.toFire == e.triggered.Keys && e.toRecover == e.existing.Keys
    ensures Next(Db(rows, None), Begin(e.now, e.triggered)) == Db(rows, Some(e))
  {
    hide Existing;
  }

  lemma InvTable(db: Db)
    requires Inv(db)
    ensures TableOk(db.rows)
  {
  }

  function FireSteps(order: seq<Key>): seq<Event> {
    seq(|order|, i requires 0 <= i < |order| => FireStep(order[i]))
  }

  function RecoverSteps(order: seq<Key>): seq<Event> {
    seq(|order|, i requires 0 <= i < |order| => RecoverStep(order[i]))
  }

  lemma StepsOnly(fires: seq<Key>, recovers: seq<Key>)
    ensures forall e :: e in FireSteps(fires) + RecoverSteps(recovers) ==> !e.Finish? && !e.DeleteNode?
  {
  }

  lemma {:induction false} AfterConcat(db: Db, first: seq<Event>, more: seq<Event>)
    ensures After(db, first + more) == After(After(db, first), more)
    decreases |first|
  {
    hide Next;
    if first == [] {
      assert first + more == more;
    } else {
      assert (first + more)[1..] == first[1..] + more;
      AfterConcat(Next(db, first[0]), first[1..], more);
    }
  }

  lemma NoSteps(db: Db, e: Evaluation)
    ensures After(db, FireSteps([])) == db && After(db, RecoverSteps([])) == db
    ensures OpenTexts(e.existing, e.triggered, []) == [] && CloseTexts(e.existing, e.triggered, []) == []
    ensures forall order: seq<Key> :: order[..0] == []
  {
    assert FireSteps([]) == [] && RecoverSteps([]) == [];
  }

  lemma OneMore(db: Db, order: seq<Key>, key: Key)
    ensures After(db, FireSteps(order + [key])) == Next(After(db, FireSteps(order)), FireStep(key))
  {
    hide Next, After;
    assert FireSteps(order + [key]) == FireSteps(order) + [FireStep(key)];
    AfterConcat(db, FireSteps(order), [FireStep(key)]);
    OneStep(After(db, FireSteps(order)), FireStep(key));
  }

  lemma OneMoreRecovery(db: Db, order: seq<Key>, key: Key)
    ensures After(db, RecoverSteps(order + [key])) == Next(After(db, RecoverSteps(order)), RecoverStep(key))
  {
    hide Next, After;
    assert RecoverSteps(order + [key]) == RecoverSteps(order) + [RecoverStep(key)];
    AfterConcat(db, RecoverSteps(order), [RecoverStep(key)]);
    OneStep(After(db, RecoverSteps(order)), RecoverStep(key));
  }

  lemma FireMeans(db: Db, e: Evaluation, left: set<Key>, key: Key)
    requires db.run == Some(e.(toFire := left)) && key in left && key in e.triggered && !Violates(db, FireStep(key))
    ensures Next(db, FireStep(key)) == Db(Fired(db.rows, e, key), Some(e.(toFire := left - {key})))
  {
    hide HasFiring, Newest, Update;
  }

  lemma RecoverMeans(db: Db, e: Evaluation, left: set<Key>, key: Key)
    requires db.run == Some(e.(toRecover := left)) && e.toFire == {} && key in left && key in e.existing
    ensures Next(db, RecoverStep(key)) == Db(Recovering(db.rows, e, key), Some(e.(toRecover := left - {key})))
  {
    hide HasFiring, Newest, Update;
  }

  lemma InsertIsSafe(db: Db, key: Key)
    requires Inv(db) && db.run.Some? && key in db.run.value.toFire && Opens(db.run.value.existing, key)
    ensures TableOk(db.rows) && !HasFiring(db.rows, key)
  {
  }

  lemma StartsWell(rows: seq<Row>, now: int, triggered: map<Key, string>)
    requires TableOk(rows)
    ensures var begun := Next(Db(rows, None), Begin(now, triggered)); Inv(begun) && Halfway(begun)
  {
    BeginIsHalfway(Db(rows, None), now, triggered);
    NextKeepsInv(Db(rows, None), Begin(now, triggered));
  }

  lemma EndsWell(db: Db)
    requires Inv(db) && Halfway(db) && db.run.Some? && db.run.value.toFire == {} && db.run.value.toRecover == {}
    ensures TableOk(db.rows)
    ensures forall key :: key in db.run.value.triggered ==> Open(db.rows, key)
    ensures forall key :: HasFiring(db.rows, key) ==> key in db.run.value.triggered
  {
    hide Open;
  }
}
