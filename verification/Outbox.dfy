/** The durable report outbox (internal/agent/outbox.go): what its directory holds, and what becomes of every report
    put into it. */
module Outbox {
  import opened Wrappers

  /** A file name: a fixed-width time and random suffix, so that name order is number order. */
  type Id = nat
  type Dest = string

  datatype Report = Report(body: seq<char>, destinations: seq<Dest>)

  datatype Item = Item(id: Id, body: seq<char>, pending: seq<Dest>)

  datatype Limits = Limits(maxItems: nat, maxBytes: nat)

  predicate Positive(l: Limits) {
    l.maxItems > 0 && l.maxBytes > 0
  }

  // ---------- destinations ----------

  /** uniqueDestinations: no empty name, first occurrences only. */
  function Unique(values: seq<Dest>): seq<Dest> {
    if values == [] then []
    else
      var front, last := Unique(values[..|values| - 1]), values[|values| - 1];
      if last == "" || last in front then front else front + [last]
  }

  ghost predicate Distinct(list: seq<Dest>) {
    forall i, j :: 0 <= i < j < |list| ==> list[i] != list[j]
  }

  /** The same destinations, each once. */
  lemma {:induction false} UniqueMeans(values: seq<Dest>)
    ensures Distinct(Unique(values)) && forall d :: d in Unique(values) <==> d != "" && d in values
  {
    if values != [] {
      var n := |values| - 1;
      UniqueMeans(values[..n]);
      assert values == values[..n] + [values[n]];
    }
  }

  /** Where a value stands first. */
  ghost predicate FirstAt(values: seq<Dest>, d: Dest, i: nat) {
    i < |values| && values[i] == d && d !in values[..i]
  }

  lemma NothingBefore(values: seq<Dest>, d: Dest, i: nat)
    requires FirstAt(values, d, i)
    ensures forall m :: 0 <= m < i ==> values[m] != d
  {
    forall m | 0 <= m < i ensures values[m] != d {
      assert values[..i][m] in values[..i];
    }
  }

  /** They keep the order of their first occurrences. */
  lemma {:induction false} UniqueKeepsOrder(values: seq<Dest>, j: nat, k: nat, a: nat, b: nat)
    requires j < k < |Unique(values)|
    requires FirstAt(values, Unique(values)[j], a) && FirstAt(values, Unique(values)[k], b)
    ensures a < b
    decreases |values|
  {
    var n, u := |values| - 1, Unique(values);
    var front := Unique(values[..n]);
    UniqueMeans(values[..n]);
    assert u[j] in front;
    assert u[j] in values[..n];
    NothingBefore(values, u[j], a);
    assert a < n;
    if k < |front| && b < n {
      assert values[..n][..a] == values[..a] && values[..n][..b] == values[..b];
      assert FirstAt(values[..n], front[j], a) && FirstAt(values[..n], front[k], b);
      UniqueKeepsOrder(values[..n], j, k, a, b);
    }
  }

  method UniqueDestinations(values: seq<Dest>) returns (out: seq<Dest>)
    ensures out == Unique(values)
  {
    out := [];
    var seen := {};
    for i := 0 to |values|
      invariant out == Unique(values[..i]) && forall d :: d in seen <==> d in out
    {
      assert values[..i + 1][..i] == values[..i];
      if values[i] == "" || values[i] in seen {
        continue;
      }
      seen, out := seen + {values[i]}, out + [values[i]];
    }
    assert values[..|values|] == values;
  }

  // ---------- cost and eviction ----------

  function Lengths(list: seq<Dest>): nat {
    if list == [] then 0 else |list[0]| + Lengths(list[1..])
  }

  function Cost(item: Item): nat {
    |item.body| + Lengths(item.pending)
  }

  function Total(items: seq<Item>): nat {
    if items == [] then 0 else Cost(items[0]) + Total(items[1..])
  }

  predicate Fits(items: seq<Item>, l: Limits) {
    |items| <= l.maxItems && Total(items) <= l.maxBytes
  }

  /** The texts the limit counts: the names of some destinations, one after the other ... */
  ghost function Names(list: seq<Dest>): string {
    if list == [] then "" else Names(list[..|list| - 1]) + list[|list| - 1]
  }

  /** ... and of a directory, every body followed by the names it is pending for. */
  ghost function Texts(items: seq<Item>): string {
    if items == [] then ""
    else
      var last := items[|items| - 1];
      Texts(items[..|items| - 1]) + last.body + Names(last.pending)
  }

  lemma {:induction false} NamesLength(list: seq<Dest>)
    ensures |Names(list)| == Lengths(list)
    decreases |list|
  {
    if list != [] {
      NamesLength(list[..|list| - 1]);
      LengthsAdd(list[..|list| - 1], list[|list| - 1]);
      assert list == list[..|list| - 1] + [list[|list| - 1]];
    }
  }

  lemma {:induction false} LengthsAdd(list: seq<Dest>, d: Dest)
    ensures Lengths(list + [d]) == Lengths(list) + |d|
  {
    if list == [] {
      assert [] + [d] == [d] && [d][1..] == [];
    } else {
      assert (list + [d])[1..] == list[1..] + [d];
      LengthsAdd(list[1..], d);
    }
  }

  lemma {:induction false} TotalAdd(items: seq<Item>, x: Item)
    ensures Total(items + [x]) == Total(items) + Cost(x)
  {
    hide Cost;
    if items == [] {
      assert [] + [x] == [x] && [x][1..] == [];
    } else {
      assert (items + [x])[1..] == items[1..] + [x];
      TotalAdd(items[1..], x);
    }
  }

  /** The cost of a directory is the length of these texts. */
  lemma {:induction false} TotalIsLength(items: seq<Item>)
    ensures Total(items) == |Texts(items)|
    decreases |items|
  {
    if items != [] {
      var front, last := items[..|items| - 1], items[|items| - 1];
      TotalIsLength(front);
      TotalAdd(front, last);
      NamesLength(last.pending);
      assert items == front + [last];
    }
  }

  /** What enforceLimitsLocked leaves when it may remove at most the given number of files. */
  function Evict(items: seq<Item>, l: Limits, removals: nat): (r: (seq<Item>, bool))
    decreases |items|
  {
    if items == [] || Fits(items, l) then (items, true)
    else if removals == 0 then (items, false)
    else Evict(items[1..], l, removals - 1)
  }

  lemma SuffixFits(items: seq<Item>, l: Limits, k: nat)
    requires k <= |items| && Fits(items, l)
    ensures Fits(items[k..], l)
  {
    if k > 0 {
      SuffixFits(items[1..], l, k - 1);
      assert items[1..][k - 1..] == items[k..];
    }
  }

  /** Eviction keeps exactly the longest suffix in name order that fits both limits. */
  lemma {:induction false} EvictKeepsLongestSuffix(items: seq<Item>, l: Limits, removals: nat) returns (k: nat)
    requires removals >= |items| && Positive(l)
    ensures k <= |items| && Evict(items, l, removals) == (items[k..], true) && Fits(items[k..], l)
    ensures forall j :: 0 <= j <= |items| ==> (Fits(items[j..], l) <==> k <= j)
    decreases |items|
  {
    if items == [] || Fits(items, l) {
      k := 0;
      forall j | 0 <= j <= |items| ensures Fits(items[j..], l) { SuffixFits(items, l, j); }
    } else {
      hide Fits;
      k := EvictKeepsLongestSuffix(items[1..], l, removals - 1);
      assert items[0..] == items && items[1..][k..] == items[k + 1..];
      k := k + 1;
      forall j | 0 <= j <= |items| ensures Fits(items[j..], l) <==> k <= j {
        if j > 0 { assert items[1..][j - 1..] == items[j..]; }
      }
    }
  }

  // ---------- the directory in name order ----------

  ghost predicate Sorted(dir: seq<Item>) {
    forall i, j :: 0 <= i < j < |dir| ==> dir[i].id < dir[j].id
  }

  /** The place of a name among the files of a directory. */
  function Place(dir: seq<Item>, id: Id): (k: nat)
    ensures k <= |dir|
    ensures forall i :: 0 <= i < k ==> dir[i].id < id
    ensures k < |dir| ==> dir[k].id >= id
  {
    if dir == [] || dir[0].id >= id then 0 else 1 + Place(dir[1..], id)
  }

  function Insert(dir: seq<Item>, item: Item): seq<Item> {
    var k := Place(dir, item.id);
    dir[..k] + [item] + dir[k..]
  }

  predicate Has(dir: seq<Item>, id: Id) {
    exists i :: 0 <= i < |dir| && dir[i].id == id
  }

  function Find(dir: seq<Item>, id: Id): Option<nat> {
    var k := Place(dir, id);
    if k < |dir| && dir[k].id == id then Some(k) else None
  }

  function Readable(dir: seq<Item>, moved: set<Id>): seq<Item> {
    if dir == [] then [] else (if dir[0].id in moved then [] else [dir[0]]) + Readable(dir[1..], moved)
  }

  lemma FindMeans(dir: seq<Item>, id: Id)
    requires Sorted(dir)
    ensures Find(dir, id).Some? <==> Has(dir, id)
  {
  }

  lemma InsertMeans(dir: seq<Item>, item: Item)
    requires Sorted(dir) && !Has(dir, item.id)
    ensures Sorted(Insert(dir, item)) && forall x :: x in Insert(dir, item) <==> x in dir || x == item
  {
    var k := Place(dir, item.id);
    assert k < |dir| ==> dir[k].id != item.id;
    assert dir == dir[..k] + dir[k..];
  }

  lemma {:induction false} ReadableMeans(dir: seq<Item>, moved: set<Id>)
    requires Sorted(dir)
    ensures Sorted(Readable(dir, moved)) && forall x :: x in Readable(dir, moved) <==> x in dir && x.id !in moved
  {
    if dir != [] {
      ReadableMeans(dir[1..], moved);
      assert dir == [dir[0]] + dir[1..];
      var rest := Readable(dir[1..], moved);
      assert forall i :: 0 <= i < |rest| ==> rest[i] in rest;
    }
  }

  // ---------- the history of every report ----------

  datatype Act = Sent(id: Id, dest: Dest, body: seq<char>, accepted: bool) | Acked(id: Id, dest: Dest)

  /** The directory and, for every report ever put, what happened to it. */
  datatype Store = Store(
    dir: seq<Item>, puts: map<Id, Report>, acked: set<(Id, Dest)>, evicted: set<Id>, lost: set<Id>, trace: seq<Act>)

  /** The destinations not yet acknowledged, in order. */
  function Remaining(list: seq<Dest>, id: Id, acked: set<(Id, Dest)>): seq<Dest> {
    if list == [] then []
    else (if (id, list[0]) in acked then [] else [list[0]]) + Remaining(list[1..], id, acked)
  }

  lemma {:induction false} RemainingMeans(list: seq<Dest>, id: Id, acked: set<(Id, Dest)>)
    ensures forall d :: d in Remaining(list, id, acked) <==> d in list && (id, d) !in acked
    ensures Distinct(list) ==> Distinct(Remaining(list, id, acked))
  {
    if list != [] {
      RemainingMeans(list[1..], id, acked);
      assert list == [list[0]] + list[1..];
      var rest := Remaining(list[1..], id, acked);
      assert forall i :: 0 <= i < |rest| ==> rest[i] in rest;
      assert forall i :: 1 <= i < |list| ==> list[i] == list[1..][i - 1];
      if Distinct(list) { assert Distinct(list[1..]); assert list[0] !in list[1..]; }
    }
  }

  /** Filtering one more destination out of what remains. */
  function Filter(list: seq<Dest>, dest: Dest): seq<Dest> {
    if list == [] then [] else (if list[0] == dest then [] else [list[0]]) + Filter(list[1..], dest)
  }

  /** Filtering takes a destination out and leaves the others in their order. */
  lemma {:induction false} FilterSplits(front: seq<Dest>, dest: Dest, back: seq<Dest>)
    requires dest !in front && dest !in back
    ensures Filter(front + [dest] + back, dest) == front + back
    decreases |front|
  {
    hide Filter;
    var list := front + [dest] + back;
    FilterNext(list, dest);
    if front == [] {
      FilterNone(back, dest);
      assert list[1..] == back && [] + back == back;
    } else {
      assert list[0] == front[0] && list[1..] == front[1..] + [dest] + back;
      FilterSplits(front[1..], dest, back);
      assert [front[0]] + (front[1..] + back) == front + back;
    }
  }

  lemma {:induction false} FilterNone(list: seq<Dest>, dest: Dest)
    requires dest !in list
    ensures Filter(list, dest) == list
  {
    if list != [] { FilterNone(list[1..], dest); }
  }

  lemma FilterNext(list: seq<Dest>, dest: Dest)
    requires list != []
    ensures Filter(list, dest) == (if list[0] == dest then [] else [list[0]]) + Filter(list[1..], dest)
  {
  }

  lemma {:induction false} RemainingAfterAck(list: seq<Dest>, id: Id, acked: set<(Id, Dest)>, dest: Dest)
    ensures Filter(Remaining(list, id, acked), dest) == Remaining(list, id, acked + {(id, dest)})
  {
    if list != [] {
      RemainingAfterAck(list[1..], id, acked, dest);
      var rest := Remaining(list[1..], id, acked);
      assert ([list[0]] + rest)[1..] == rest && [] + rest == rest;
    }
  }

  lemma {:induction false} RemainingOfOther(list: seq<Dest>, id: Id, acked: set<(Id, Dest)>, other: Id, dest: Dest)
    requires other != id
    ensures Remaining(list, id, acked + {(other, dest)}) == Remaining(list, id, acked)
  {
    if list != [] { RemainingOfOther(list[1..], id, acked, other, dest); }
  }

  /** Every stored report is owed to exactly the destinations it was put for minus those that acknowledged it. */
  ghost predicate Owed(h: Store) {
    && Sorted(h.dir)
    && forall x :: x in h.dir ==>
         x.id in h.puts && x.id !in h.evicted && x.id !in h.lost && x.body == h.puts[x.id].body && x.body != []
         && x.pending == Remaining(h.puts[x.id].destinations, x.id, h.acked) && x.pending != []
  }

  /** Every report ever put is still stored, or acknowledged by all, or evicted, or moved aside as unreadable. */
  ghost predicate Accounted(h: Store) {
    forall id :: id in h.puts ==>
      Distinct(h.puts[id].destinations) &&
      (Has(h.dir, id) || id in h.evicted || id in h.lost || Remaining(h.puts[id].destinations, id, h.acked) == [])
  }

  /** Nothing is sent after it was acknowledged. */
  ghost predicate Honest(h: Store) {
    && (forall i, j :: 0 <= i < j < |h.trace| && h.trace[i].Acked? && h.trace[j].Sent? ==>
          (h.trace[i].id, h.trace[i].dest) != (h.trace[j].id, h.trace[j].dest))
    && (forall i :: 0 <= i < |h.trace| && h.trace[i].Acked? ==> (h.trace[i].id, h.trace[i].dest) in h.acked)
    && (forall i :: 0 <= i < |h.trace| ==>
          h.trace[i].id in h.puts && (h.trace[i].Sent? ==> h.trace[i].body == h.puts[h.trace[i].id].body))
    && (forall id, d :: (id, d) in h.acked ==> id in h.puts)
  }

  /** Nothing is acknowledged that was not accepted; this the reporter guarantees, not the outbox. */
  ghost predicate Earned(h: Store) {
    forall id, d :: (id, d) in h.acked ==> id in h.puts && Sent(id, d, h.puts[id].body, true) in h.trace
  }

  lemma EarnedCarries(h: Store, h': Store)
    requires Earned(h) && h'.acked == h.acked && h.trace <= h'.trace
    requires forall id :: id in h.puts ==> id in h'.puts && h'.puts[id] == h.puts[id]
    ensures Earned(h')
  {
  }

  lemma AckKeepsEarned(h: Store, k: nat, dest: Dest)
    requires Owed(h) && Earned(h) && k < |h.dir| && Sent(h.dir[k].id, dest, h.dir[k].body, true) in h.trace
    ensures Earned(AckAt(h, k, dest))
  {
    assert h.dir[k] in h.dir;
    hide Remaining, Filter;
  }

  ghost predicate Inv(h: Store) {
    Owed(h) && Accounted(h) && Honest(h)
  }

  // ---------- steps ----------

  function Stored(h: Store, item: Item): Store {
    h.(dir := Insert(h.dir, item), puts := h.puts[item.id := Report(item.body, item.pending)])
  }

  function EvictFirst(h: Store): Store
    requires h.dir != []
  {
    h.(dir := h.dir[1..], evicted := h.evicted + {h.dir[0].id})
  }

  function Moved(h: Store, moved: set<Id>): Store {
    h.(dir := Readable(h.dir, moved),
       lost := h.lost + (set i | 0 <= i < |h.dir| && h.dir[i].id in moved :: h.dir[i].id))
  }

  function Sending(h: Store, item: Item, dest: Dest, accepted: bool): Store {
    h.(trace := h.trace + [Sent(item.id, dest, item.body, accepted)])
  }

  /** The record of the k-th file rewritten without dest, or removed with its last destination. */
  function AckAt(h: Store, k: nat, dest: Dest): Store
    requires k < |h.dir|
  {
    var item := h.dir[k];
    var left := Filter(item.pending, dest);
    h.(dir := if left == [] then h.dir[..k] + h.dir[k + 1..] else h.dir[k := item.(pending := left)],
       acked := h.acked + {(item.id, dest)}, trace := h.trace + [Acked(item.id, dest)])
  }

  /** What an acknowledgement changes: one destination of one record, or the record with its last destination. */
  lemma AckLeaves(h: Store, k: nat, front: seq<Dest>, dest: Dest, back: seq<Dest>)
    requires k < |h.dir| && h.dir[k].pending == front + [dest] + back && dest !in front && dest !in back
    ensures var h', id := AckAt(h, k, dest), h.dir[k].id;
            && h'.dir == (if front + back == [] then h.dir[..k] + h.dir[k + 1..]
                          else h.dir[k := Item(id, h.dir[k].body, front + back)])
            && h'.acked == h.acked + {(id, dest)} && h'.trace == h.trace + [Acked(id, dest)]
            && h'.puts == h.puts && h'.evicted == h.evicted && h'.lost == h.lost
  {
    FilterSplits(front, dest, back);
    hide Filter;
  }

  lemma StoredKeepsInv(h: Store, item: Item)
    requires Inv(h) && item.id !in h.puts && item.id !in h.evicted && item.id !in h.lost
    requires item.body != [] && item.pending != [] && Distinct(item.pending)
    ensures Inv(Stored(h, item))
  {
    StoredIsOwed(h, item);
    StoredIsAccounted(h, item);
    hide Owed, Accounted, Remaining, Insert;
  }

  lemma NewToDirectory(h: Store, item: Item)
    requires Owed(h) && item.id !in h.puts
    ensures !Has(h.dir, item.id)
  {
    HasMember(h.dir);
    hide Has;
  }

  lemma StoredIsOwed(h: Store, item: Item)
    requires Owed(h) && Honest(h) && item.id !in h.puts && item.id !in h.evicted && item.id !in h.lost
    requires item.body != [] && item.pending != []
    ensures Owed(Stored(h, item))
  {
    NewToDirectory(h, item);
    InsertMeans(h.dir, item);
    NothingAcked(item.pending, item.id, h.acked);
    hide Insert, Remaining, Has;
  }

  lemma StoredIsAccounted(h: Store, item: Item)
    requires Owed(h) && Accounted(h) && item.id !in h.puts && Distinct(item.pending)
    ensures Accounted(Stored(h, item))
  {
    NewToDirectory(h, item);
    InsertMeans(h.dir, item);
    var h' := Stored(h, item);
    HasAfter(h.dir, h'.dir);
    HasMember(h'.dir);
    assert item in h'.dir;
    hide Insert, Remaining, Has, Owed;
  }

  lemma HasMember(dir: seq<Item>)
    ensures forall id :: Has(dir, id) <==> exists x :: x in dir && x.id == id
  {
    forall id ensures Has(dir, id) <==> exists x :: x in dir && x.id == id {
      if Has(dir, id) {
        var i :| 0 <= i < |dir| && dir[i].id == id;
        assert dir[i] in dir;
      }
    }
  }

  lemma HasAfter(dir: seq<Item>, dir': seq<Item>)
    ensures (forall x :: x in dir ==> x in dir') ==> forall id :: Has(dir, id) ==> Has(dir', id)
  {
    if forall x :: x in dir ==> x in dir' {
      forall id | Has(dir, id) ensures Has(dir', id) {
        var i :| 0 <= i < |dir| && dir[i].id == id;
        assert dir[i] in dir';
      }
    }
  }

  lemma {:induction false} NothingAcked(list: seq<Dest>, id: Id, acked: set<(Id, Dest)>)
    requires forall d :: (id, d) !in acked
    ensures Remaining(list, id, acked) == list
  {
    if list != [] {
      NothingAcked(list[1..], id, acked);
      assert list == [list[0]] + list[1..];
    }
  }

  lemma EvictFirstKeepsInv(h: Store)
    requires Inv(h) && h.dir != []
    ensures Inv(EvictFirst(h))
  {
    EvictFirstIsOwed(h);
    EvictFirstIsAccounted(h);
    hide Owed, Accounted, Remaining;
  }

  lemma EvictFirstIsOwed(h: Store)
    requires Owed(h) && h.dir != []
    ensures Owed(EvictFirst(h))
  {
    assert h.dir == [h.dir[0]] + h.dir[1..];
    assert forall i :: 0 <= i < |h.dir| - 1 ==> h.dir[1..][i] == h.dir[i + 1];
    hide Remaining;
  }

  lemma EvictFirstIsAccounted(h: Store)
    requires Accounted(h) && h.dir != []
    ensures Accounted(EvictFirst(h))
  {
    HasMember(h.dir);
    HasMember(h.dir[1..]);
    assert h.dir == [h.dir[0]] + h.dir[1..];
    hide Has, Remaining;
  }

  lemma MovedKeepsInv(h: Store, moved: set<Id>)
    requires Inv(h)
    ensures Inv(Moved(h, moved))
  {
    var h' := Moved(h, moved);
    ReadableMeans(h.dir, moved);
    HasMember(h.dir);
    HasMember(h'.dir);
    forall x | x in h'.dir ensures x.id !in h'.lost {
      assert x.id !in moved;
    }
    forall x | x in h.dir && x !in h'.dir ensures x.id in h'.lost {
      var i :| 0 <= i < |h.dir| && h.dir[i] == x;
    }
    hide Has, Remaining, Readable;
  }

  lemma SendingKeepsInv(h: Store, item: Item, dest: Dest, accepted: bool)
    requires Inv(h) && item.id in h.puts && item.body == h.puts[item.id].body && (item.id, dest) !in h.acked
    ensures Inv(Sending(h, item, dest, accepted))
  {
    hide Has, Remaining;
  }

  lemma AckKeepsPlace(h: Store, k: nat, dest: Dest)
    requires Owed(h) && k < |h.dir|
    ensures Owed(AckAt(h, k, dest))
  {
    var item, h' := h.dir[k], AckAt(h, k, dest);
    var owed := h.puts[item.id].destinations;
    assert item in h.dir;
    RemainingAfterAck(owed, item.id, h.acked, dest);
    forall x | x in h'.dir
      ensures x.id in h'.puts && x.id !in h'.evicted && x.id !in h'.lost && x.body == h'.puts[x.id].body && x.body != []
              && x.pending == Remaining(h'.puts[x.id].destinations, x.id, h'.acked) && x.pending != []
    {
      if x.id != item.id {
        assert x in h.dir;
        RemainingOfOther(h.puts[x.id].destinations, x.id, h.acked, item.id, dest);
      }
    }
  }

  lemma AckKeepsAccounts(h: Store, k: nat, dest: Dest)
    requires Owed(h) && Accounted(h) && k < |h.dir|
    ensures Accounted(AckAt(h, k, dest))
  {
    var item, h' := h.dir[k], AckAt(h, k, dest);
    assert item in h.dir;
    RemainingAfterAck(h.puts[item.id].destinations, item.id, h.acked, dest);
    HasMember(h.dir);
    HasMember(h'.dir);
    forall id | id in h.puts && id != item.id
      ensures Has(h.dir, id) ==> Has(h'.dir, id)
      ensures Remaining(h.puts[id].destinations, id, h'.acked) == Remaining(h.puts[id].destinations, id, h.acked)
    {
      RemainingOfOther(h.puts[id].destinations, id, h.acked, item.id, dest);
      KeptApart(h.dir, k, Filter(item.pending, dest));
    }
    if Filter(item.pending, dest) != [] {
      assert h'.dir[k] in h'.dir;
    }
    hide Has, Remaining, Filter;
  }

  lemma KeptApart(dir: seq<Item>, k: nat, left: seq<Dest>)
    requires k < |dir|
    ensures forall x :: x in dir && x != dir[k] ==>
              x in dir[..k] + dir[k + 1..] && x in dir[k := dir[k].(pending := left)]
  {
    forall x | x in dir && x != dir[k] ensures x in dir[..k] + dir[k + 1..] && x in dir[k := dir[k].(pending := left)] {
      var i :| 0 <= i < |dir| && dir[i] == x;
      assert dir[k := dir[k].(pending := left)][i] == x;
      assert if i < k then (dir[..k] + dir[k + 1..])[i] == x else (dir[..k] + dir[k + 1..])[i - 1] == x;
    }
  }

  lemma AckKeepsInv(h: Store, k: nat, dest: Dest)
    requires Inv(h) && k < |h.dir|
    ensures Inv(AckAt(h, k, dest))
  {
    AckKeepsPlace(h, k, dest);
    AckKeepsAccounts(h, k, dest);
    AckIsHonest(h, k, dest);
    hide Owed, Accounted, Honest;
  }

  lemma AckIsHonest(h: Store, k: nat, dest: Dest)
    requires Owed(h) && Honest(h) && k < |h.dir|
    ensures Honest(AckAt(h, k, dest))
  {
    assert h.dir[k] in h.dir;
    hide Remaining, Filter;
  }

  // ---------- runs ----------

  /** Any interleaving of the steps above; a step that does not apply changes nothing. */
  datatype Event =
    | Put(item: Item)
    | Evicted
    | Unreadable(moved: set<Id>)
    | Delivery(k: nat, dest: Dest, accepted: bool)
    | Acknowledgement(k: nat, dest: Dest)

  const EMPTY: Store := Store([], map[], {}, {}, {}, [])

  function Next(h: Store, e: Event): Store {
    match e
    case Put(item) =>
      if item.id in h.puts || item.id in h.evicted || item.id in h.lost || item.body == []
          || Unique(item.pending) == [] then h
      else Stored(h, item.(pending := Unique(item.pending)))
    case Evicted => if h.dir == [] then h else EvictFirst(h)
    case Unreadable(moved) => Moved(h, moved)
    case Delivery(k, dest, accepted) =>
      if k < |h.dir| && dest in h.dir[k].pending then Sending(h, h.dir[k], dest, accepted) else h
    case Acknowledgement(k, dest) =>
      if k < |h.dir| && Act.Sent(h.dir[k].id, dest, h.dir[k].body, true) in h.trace then AckAt(h, k, dest) else h
  }

  function After(h: Store, events: seq<Event>): Store
    decreases |events|
  {
    if events == [] then h else After(Next(h, events[0]), events[1..])
  }

  lemma NextKeepsInv(h: Store, e: Event)
    requires Inv(h) && Earned(h)
    ensures Inv(Next(h, e)) && Earned(Next(h, e))
  {
    hide Inv, Unique, Insert, Readable, AckAt, Earned;
    match e
    case Put(item) =>
      UniqueMeans(item.pending);
      if Next(h, e) != h { StoredKeepsInv(h, item.(pending := Unique(item.pending))); }
      EarnedCarries(h, Next(h, e));
    case Evicted =>
      if h.dir != [] { EvictFirstKeepsInv(h); }
      EarnedCarries(h, Next(h, e));
    case Unreadable(moved) =>
      MovedKeepsInv(h, moved);
      EarnedCarries(h, Next(h, e));
    case Delivery(k, dest, accepted) =>
      if k < |h.dir| && dest in h.dir[k].pending {
        PendingIsUnacked(h, k, dest);
        SendingKeepsInv(h, h.dir[k], dest, accepted);
      }
      EarnedCarries(h, Next(h, e));
    case Acknowledgement(k, dest) => if Next(h, e) != h { AckKeepsBoth(h, k, dest); }
  }

  lemma AckKeepsBoth(h: Store, k: nat, dest: Dest)
    requires Inv(h) && Earned(h) && k < |h.dir| && Sent(h.dir[k].id, dest, h.dir[k].body, true) in h.trace
    ensures Inv(AckAt(h, k, dest)) && Earned(AckAt(h, k, dest))
  {
    AckKeepsInv(h, k, dest);
    AckKeepsEarned(h, k, dest);
    hide Accounted, Honest;
  }

  lemma PendingIsUnacked(h: Store, k: nat, dest: Dest)
    requires Inv(h) && k < |h.dir| && dest in h.dir[k].pending
    ensures h.dir[k].id in h.puts && h.dir[k].body == h.puts[h.dir[k].id].body && (h.dir[k].id, dest) !in h.acked
  {
    assert h.dir[k] in h.dir;
    RemainingMeans(h.puts[h.dir[k].id].destinations, h.dir[k].id, h.acked);
    hide Remaining, Has;
  }

  lemma {:induction false} InvFrom(h: Store, events: seq<Event>)
    requires Inv(h) && Earned(h)
    ensures Inv(After(h, events)) && Earned(After(h, events))
    decreases |events|
  {
    hide Inv, Earned, Next;
    if events != [] {
      NextKeepsInv(h, events[0]);
      InvFrom(Next(h, events[0]), events[1..]);
    }
  }

  /** Over every run: a stored report is owed to exactly its destinations minus those that acknowledged it; a report
      leaves only when all have acknowledged, by eviction or as unreadable; nothing is delivered again after its
      acknowledgement; nothing is acknowledged that was not accepted. */
  lemma ReportsAreConserved(events: seq<Event>)
    ensures var h := After(EMPTY, events);
            && (forall x :: x in h.dir ==>
                  && x.id in h.puts && x.body == h.puts[x.id].body
                  && forall d :: d in x.pending <==> d in h.puts[x.id].destinations && (x.id, d) !in h.acked)
            && (forall id :: id in h.puts && !Has(h.dir, id) && id !in h.evicted && id !in h.lost ==>
                  forall d :: d in h.puts[id].destinations ==> (id, d) in h.acked)
            && (forall i, j, id, d, body, ok :: 0 <= i < j < |h.trace| && h.trace[i] == Acked(id, d) ==>
                  h.trace[j] != Act.Sent(id, d, body, ok))
            && (forall id, d :: (id, d) in h.acked ==>
                  id in h.puts && Act.Sent(id, d, h.puts[id].body, true) in h.trace)
  {
    InvFrom(EMPTY, events);
    var h := After(EMPTY, events);
    hide After;
    forall x | x in h.dir
      ensures forall d :: d in x.pending <==> d in h.puts[x.id].destinations && (x.id, d) !in h.acked
    {
      RemainingMeans(h.puts[x.id].destinations, x.id, h.acked);
    }
    forall id | id in h.puts && Remaining(h.puts[id].destinations, id, h.acked) == []
      ensures forall d :: d in h.puts[id].destinations ==> (id, d) in h.acked
    {
      RemainingMeans(h.puts[id].destinations, id, h.acked);
    }
    hide Remaining, Has;
  }
}
