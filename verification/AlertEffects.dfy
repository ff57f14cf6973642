/** What an evaluation does to each row of the alert table, column by column (internal/panel/alert/alert.go:109-150). */
module AlertEffects {
  import opened Wrappers
  import opened Alerts

  /** An old row after the first loop visited the keys fires and the second the keys recovers: only the newest row of a
      key is ever touched; a recovered one not at all; an acknowledged one is seen again; a firing one is seen again
      with the new message, or ends if its key is not triggered any more. */
  ghost function RowAfter(before: seq<Row>, i: nat, now: int, triggered: map<Key, string>, fires: seq<Key>,
                          recovers: seq<Key>): Row
    requires i < |before|
  {
    var row := before[i];
    if !LastOfKey(before, i, row.key) then row
    else
      match row.status
      case Recovered => row
      case Acknowledged => if row.key in fires then row.(lastSeen := now) else row
      case Firing =>
        if row.key in fires && row.key in triggered then row.(lastSeen := now, message := triggered[row.key])
        else if row.key in recovers && row.key !in triggered then
          row.(status := Recovered, recoveredAt := now, lastSeen := now)
        else row
  }

  /** A row added for a visited key whose newest old row, if any, had recovered. */
  ghost predicate Added(before: seq<Row>, offset: nat, row: Row, now: int, triggered: map<Key, string>,
                        fires: seq<Key>)
  {
    && row.key in fires && row.key in triggered
    && row == Row((if before == [] then 1 else before[|before| - 1].id + 1) + offset, row.key, Firing,
                  triggered[row.key], now, now, 0, 0)
    && forall i :: 0 <= i < |before| && before[i].key == row.key && LastOfKey(before, i, row.key) ==>
         before[i].status == Recovered
  }

  ghost predicate RowsExactly(before: seq<Row>, after: seq<Row>, now: int, triggered: map<Key, string>,
                              fires: seq<Key>, recovers: seq<Key>) {
    && |before| <= |after|
    && (forall i :: 0 <= i < |before| ==> after[i] == RowAfter(before, i, now, triggered, fires, recovers))
    && forall i :: |before| <= i < |after| ==> Added(before, i - |before|, after[i], now, triggered, fires)
  }

  lemma NothingVisited(rows: seq<Row>, now: int, triggered: map<Key, string>)
    ensures RowsExactly(rows, rows, now, triggered, [], [])
  {
    hide LastOfKey;
  }

  /** The row an update by the remembered id touches. */
  lemma NewestPlace(rows: seq<Row>, key: Key) returns (i: nat)
    requires Newest(rows, key).Some?
    ensures i < |rows| && rows[i] == Newest(rows, key).value && LastOfKey(rows, i, key) && rows[i].key == key
    ensures forall j :: 0 <= j < |rows| && j != i && rows[j].key == key ==> !LastOfKey(rows, j, key)
  {
    NewestMeans(rows, key);
    hide Newest;
    i :| 0 <= i < |rows| && rows[i] == Newest(rows, key).value && LastOfKey(rows, i, key);
  }

  lemma KeepsId(before: seq<Row>, after: seq<Row>, now: int, triggered: map<Key, string>, fires: seq<Key>,
                recovers: seq<Key>)
    requires RowsExactly(before, after, now, triggered, fires, recovers)
    ensures forall i :: 0 <= i < |before| ==> after[i].id == before[i].id
  {
    hide LastOfKey, Added;
  }

  lemma UpdateOfOne(rows: seq<Row>, i: nat, c: Change)
    requires Ascending(rows) && i < |rows|
    ensures Update(rows, rows[i].id, c) == rows[i := Changed(c, rows[i])]
  {
  }

  lemma AddedGrows(before: seq<Row>, offset: nat, row: Row, now: int, triggered: map<Key, string>, fires: seq<Key>,
                   key: Key)
    requires Added(before, offset, row, now, triggered, fires)
    ensures Added(before, offset, row, now, triggered, fires + [key])
  {
    hide LastOfKey;
  }

  lemma OtherRowsStay(before: seq<Row>, i: nat, now: int, triggered: map<Key, string>, fires: seq<Key>,
                      recovers: seq<Key>, key: Key)
    requires i < |before|
    requires before[i].key != key || !LastOfKey(before, i, key)
    ensures RowAfter(before, i, now, triggered, fires + [key], recovers)
            == RowAfter(before, i, now, triggered, fires, recovers)
    ensures RowAfter(before, i, now, triggered, fires, recovers + [key])
            == RowAfter(before, i, now, triggered, fires, recovers)
  {
    hide LastOfKey;
  }

  /** One turn of the first loop. */
  lemma FireExactly(before: seq<Row>, rows: seq<Row>, e: Evaluation, fires: seq<Key>, key: Key)
    requires RowsExactly(before, rows, e.now, e.triggered, fires, []) && Ascending(rows)
    requires e.existing == Existing(before) && key in e.triggered && key !in fires
    ensures RowsExactly(before, Fired(rows, e, key), e.now, e.triggered, fires + [key], [])
  {
    hide Ascending, LastOfKey, Existing, Newest;
    if key !in e.existing {
      NewestMeans(before, key);
      OpenExactly(before, rows, e, fires, key);
    } else {
      var i := NewestPlace(before, key);
      if before[i].status.Recovered? {
        OpenExactly(before, rows, e, fires, key);
      } else {
        var c := if before[i].status.Acknowledged? then Touch(e.now) else Refresh(e.now, e.triggered[key]);
        KeepsId(before, rows, e.now, e.triggered, fires, []);
        UpdateOfOne(rows, i, c);
        ChangeExactly(before, rows, e, fires, key, i, c);
      }
    }
  }

  lemma OpenExactly(before: seq<Row>, rows: seq<Row>, e: Evaluation, fires: seq<Key>, key: Key)
    requires RowsExactly(before, rows, e.now, e.triggered, fires, []) && key in e.triggered
    requires forall i :: 0 <= i < |before| && before[i].key == key && LastOfKey(before, i, key) ==>
               before[i].status == Recovered
    requires Opens(e.existing, key)
    ensures RowsExactly(before, Fired(rows, e, key), e.now, e.triggered, fires + [key], [])
  {
    var after := Fired(rows, e, key);
    NextIdOf(before, rows, e.now, e.triggered, fires);
    hide LastOfKey, RowAfter, Added, NextId;
    forall i | 0 <= i < |before| ensures after[i] == RowAfter(before, i, e.now, e.triggered, fires + [key], []) {
      OpenLeaves(before, i, e, fires, key);
    }
    forall i | |before| <= i < |after|
      ensures Added(before, i - |before|, after[i], e.now, e.triggered, fires + [key]) {
      if i < |rows| {
        AddedGrows(before, i - |before|, rows[i], e.now, e.triggered, fires, key);
      } else {
        AddedNow(before, i - |before|, after[i], e, fires, key);
      }
    }
  }

  lemma OpenLeaves(before: seq<Row>, i: nat, e: Evaluation, fires: seq<Key>, key: Key)
    requires i < |before| && (before[i].key == key && LastOfKey(before, i, key) ==> before[i].status == Recovered)
    ensures RowAfter(before, i, e.now, e.triggered, fires + [key], [])
            == RowAfter(before, i, e.now, e.triggered, fires, [])
  {
    hide LastOfKey;
  }

  lemma AddedNow(before: seq<Row>, offset: nat, row: Row, e: Evaluation, fires: seq<Key>, key: Key)
    requires key in e.triggered && row.key == key
    requires row == Row((if before == [] then 1 else before[|before| - 1].id + 1) + offset, key, Firing,
                        e.triggered[key], e.now, e.now, 0, 0)
    requires forall i :: 0 <= i < |before| && before[i].key == key && LastOfKey(before, i, key) ==>
               before[i].status == Recovered
    ensures Added(before, offset, row, e.now, e.triggered, fires + [key])
  {
    hide LastOfKey;
  }

  lemma NextIdOf(before: seq<Row>, rows: seq<Row>, now: int, triggered: map<Key, string>, fires: seq<Key>)
    requires RowsExactly(before, rows, now, triggered, fires, [])
    ensures NextId(rows) == (if before == [] then 1 else before[|before| - 1].id + 1) + (|rows| - |before|)
  {
    KeepsId(before, rows, now, triggered, fires, []);
    hide LastOfKey, RowAfter;
    if |rows| > |before| {
      assert Added(before, |rows| - 1 - |before|, rows[|rows| - 1], now, triggered, fires);
    }
  }

  /** A visited key whose newest row is not recovered has that row changed. */
  lemma ChangeExactly(before: seq<Row>, rows: seq<Row>, e: Evaluation, fires: seq<Key>, key: Key, i: nat, c: Change)
    requires RowsExactly(before, rows, e.now, e.triggered, fires, []) && key in e.triggered && key !in fires
    requires i < |before| && before[i].key == key && LastOfKey(before, i, key) && !before[i].status.Recovered?
    requires forall j :: 0 <= j < |before| && j != i && before[j].key == key ==> !LastOfKey(before, j, key)
    requires c == if before[i].status.Acknowledged? then Touch(e.now) else Refresh(e.now, e.triggered[key])
    ensures RowsExactly(before, rows[i := Changed(c, rows[i])], e.now, e.triggered, fires + [key], [])
  {
    var after := rows[i := Changed(c, rows[i])];
    assert after[i] == RowAfter(before, i, e.now, e.triggered, fires + [key], []) by { hide Added, LastOfKey; }
    hide LastOfKey, RowAfter, Added;
    forall j | 0 <= j < |before| && j != i
      ensures after[j] == RowAfter(before, j, e.now, e.triggered, fires + [key], [])
    {
      OtherRowsStay(before, j, e.now, e.triggered, fires, [], key);
    }
    forall j | |before| <= j < |after|
      ensures Added(before, j - |before|, after[j], e.now, e.triggered, fires + [key]) {
      AddedGrows(before, j - |before|, rows[j], e.now, e.triggered, fires, key);
    }
  }

  /** One turn of the second loop. */
  lemma RecoverExactly(before: seq<Row>, rows: seq<Row>, e: Evaluation, fires: seq<Key>, recovers: seq<Key>, key: Key)
    requires RowsExactly(before, rows, e.now, e.triggered, fires, recovers) && Ascending(rows)
    requires e.existing == Existing(before) && key in e.existing && key !in recovers
    requires forall k :: k in fires ==> k in e.triggered
    ensures RowsExactly(before, Recovering(rows, e, key), e.now, e.triggered, fires, recovers + [key])
  {
    hide Ascending, LastOfKey, Existing, Newest;
    var i := NewestPlace(before, key);
    KeepsId(before, rows, e.now, e.triggered, fires, recovers);
    var after := Recovering(rows, e, key);
    if Cleared(e.existing, e.triggered, key) {
      UpdateOfOne(rows, i, Change.Recover(e.now));
      assert after == rows[i := Changed(Change.Recover(e.now), rows[i])];
    }
    assert after[i] == RowAfter(before, i, e.now, e.triggered, fires, recovers + [key]) by { hide Added; }
    hide RowAfter, Added;
    forall j | 0 <= j < |before| && j != i
      ensures after[j] == RowAfter(before, j, e.now, e.triggered, fires, recovers + [key])
    {
      OtherRowsStay(before, j, e.now, e.triggered, fires, recovers, key);
    }
  }
}
