/** The outbox as the object its callers use (internal/agent/outbox.go:65-189). */
module OutboxStore {
  import opened Wrappers
  import opened Outbox

  /** One directory listing: the unreadable files it moves aside, and whether all of that succeeded. */
  datatype Listing = Listing(moved: set<Id>, ok: bool)

  datatype PutFaults = PutFaults(write: Effect, listing: Listing, removals: nat, syncOk: bool)

  lemma {:induction false} EvictDrops(items: seq<Item>, l: Limits, removals: nat)
    ensures |Evict(items, l, removals).0| <= |items|
    ensures Evict(items, l, removals).0 == items[|items| - |Evict(items, l, removals).0|..]
    ensures Evict(items, l, removals).1 ==> Evict(items, l, removals).0 == [] || Fits(Evict(items, l, removals).0, l)
    decreases |items|
  {
    hide Fits;
    if items != [] && !Fits(items, l) && removals > 0 {
      EvictDrops(items[1..], l, removals - 1);
      var n := |items| - |Evict(items, l, removals).0|;
      assert items[1..][n - 1..] == items[n..];
    }
  }

  /** The whole of Put on the directory. */
  function PutResult(dir: seq<Item>, l: Limits, id: Id, body: seq<char>, destinations: seq<Dest>,
                     f: PutFaults): (seq<Item>, bool) {
    var item := Item(id, body, Unique(destinations));
    if body == [] || item.pending == [] || f.write.NotDone? then (dir, false)
    else if f.write.DoneWithError? then (Insert(dir, item), false)
    else
      var listed := Readable(Insert(dir, item), f.listing.moved);
      if !f.listing.ok then (listed, false)
      else
        var (kept, removed) := Evict(listed, l, f.removals);
        (kept, removed && f.syncOk && Find(kept, id).Some?)
  }

  /** Put succeeds only if the new report itself is kept, whole, and what is kept fits both limits. */
  lemma PutMeansKept(dir: seq<Item>, l: Limits, id: Id, body: seq<char>, destinations: seq<Dest>, f: PutFaults)
    requires Sorted(dir) && !Has(dir, id) && PutResult(dir, l, id, body, destinations, f).1
    ensures var dir' := PutResult(dir, l, id, body, destinations, f).0;
            Item(id, body, Unique(destinations)) in dir' && Fits(dir', l)
  {
    hide Fits, Evict, Insert, Readable, Place, Unique, Has, Sorted;
    var item := Item(id, body, Unique(destinations));
    var all := Insert(dir, item);
    var listed := Readable(all, f.listing.moved);
    var kept := Evict(listed, l, f.removals).0;
    InsertMeans(dir, item);
    ReadableMeans(all, f.listing.moved);
    EvictDrops(listed, l, f.removals);
    var k := Find(kept, id).value;
    assert kept[k] in listed && kept[k].id == id;
    SameId(all, kept[k], item);
  }

  /** The directory and the answer of Put under every fault: without a body, a destination or its own write nothing
      changes; a write that is made but reported as failed leaves the report stored and an error; otherwise the readable
      files are cut at the front until both limits hold or a removal fails, and the answer is ok exactly if everything
      succeeded and the new report is among what is left. */
  lemma PutLeavesExactly(dir: seq<Item>, l: Limits, id: Id, body: seq<char>, destinations: seq<Dest>, f: PutFaults)
    returns (k: nat)
    requires Sorted(dir) && !Has(dir, id)
    ensures var (dir', ok) := PutResult(dir, l, id, body, destinations, f);
            var empty := body == [] || (forall d :: d in destinations ==> d == "");
            var all := Insert(dir, Item(id, body, Unique(destinations)));
            var listed := Readable(all, f.listing.moved);
            && (empty || f.write == NotDone ==> dir' == dir && !ok)
            && (!empty && f.write == DoneWithError ==> dir' == all && !ok)
            && (!empty && f.write == Done && !f.listing.ok ==> dir' == listed && !ok)
            && (!empty && f.write == Done && f.listing.ok ==>
                  && k <= |listed| && k <= f.removals && dir' == listed[k..]
                  && (forall j :: 0 <= j < k ==> !Fits(listed[j..], l))
                  && (ok <==> (dir' == [] || Fits(dir', l)) && f.syncOk && Has(dir', id)))
  {
    UniqueMeans(destinations);
    k := 0;
    var item := Item(id, body, Unique(destinations));
    assert item.pending == [] <==> forall d :: d in destinations ==> d == "" by {
      if item.pending != [] { assert item.pending[0] in item.pending; }
    }
    var listed := Readable(Insert(dir, item), f.listing.moved);
    InsertMeans(dir, item);
    ReadableMeans(Insert(dir, item), f.listing.moved);
    hide Fits, Readable, Insert, Find, Unique, Has, Evict;
    k := EvictCuts(listed, l, f.removals);
    SuffixSorted(listed, k);
    FindMeans(listed[k..], id);
  }

  lemma SuffixSorted(items: seq<Item>, k: nat)
    requires Sorted(items) && k <= |items|
    ensures Sorted(items[k..])
  {
  }

  /** Eviction removes from the front, never more than it must nor than it can. */
  lemma {:induction false} EvictCuts(items: seq<Item>, l: Limits, removals: nat) returns (k: nat)
    ensures k <= |items| && k <= removals && Evict(items, l, removals).0 == items[k..]
    ensures Evict(items, l, removals).1 <==> items[k..] == [] || Fits(items[k..], l)
    ensures forall j :: 0 <= j < k ==> !Fits(items[j..], l)
    decreases |items|
  {
    hide Fits;
    assert items[0..] == items;
    if items == [] || Fits(items, l) || removals == 0 {
      k := 0;
    } else {
      var n := EvictCuts(items[1..], l, removals - 1);
      k := n + 1;
      assert items[1..][n..] == items[k..];
      forall j | 0 <= j < k ensures !Fits(items[j..], l) {
        if j > 0 { assert items[1..][j - 1..] == items[j..]; }
      }
    }
  }

  lemma SameId(dir: seq<Item>, x: Item, y: Item)
    requires Sorted(dir) && x in dir && y in dir && x.id == y.id
    ensures x == y
  {
  }

  /** Without faults, a report with a body and a destination is kept if and only if it fits together with every report
      whose name follows it; with a clock that never runs back, if and only if it fits on its own. */
  lemma PutSucceedsIff(dir: seq<Item>, l: Limits, id: Id, body: seq<char>, destinations: seq<Dest>)
    requires Sorted(dir) && !Has(dir, id) && Positive(l) && body != [] && Unique(destinations) != []
    ensures var item := Item(id, body, Unique(destinations));
            var ok := PutResult(dir, l, id, body, destinations, PutFaults(Done, Listing({}, true), |dir| + 1, true)).1;
            && (ok <==> Fits([item] + dir[Place(dir, id)..], l))
            && ((forall x :: x in dir ==> x.id < id) ==> (ok <==> Cost(item) <= l.maxBytes))
  {
    hide Fits, Place, Insert, Find, PutResult, Cost, Unique, Sorted, Has, Evict;
    var item := Item(id, body, Unique(destinations));
    var all, p := Insert(dir, item), Place(dir, id);
    InsertMeans(dir, item);
    InsertSplits(dir, item);
    var k := EvictKeepsLongestSuffix(all, l, |dir| + 1);
    FindInSuffix(all, k, p);
    PutWithoutFaults(dir, l, id, body, destinations, all[k..]);
    if forall x :: x in dir ==> x.id < id { AloneWhenLast(dir, item, l); }
  }

  lemma InsertSplits(dir: seq<Item>, item: Item)
    ensures var p := Place(dir, item.id);
            |Insert(dir, item)| == |dir| + 1 && Insert(dir, item)[p] == item
                && Insert(dir, item)[p..] == [item] + dir[p..]
  {
    hide Place;
  }

  lemma PutWithoutFaults(dir: seq<Item>, l: Limits, id: Id, body: seq<char>, destinations: seq<Dest>, kept: seq<Item>)
    requires body != [] && Unique(destinations) != []
    requires Evict(Insert(dir, Item(id, body, Unique(destinations))), l, |dir| + 1) == (kept, true)
    ensures PutResult(dir, l, id, body, destinations, PutFaults(Done, Listing({}, true), |dir| + 1, true)).1
            == Find(kept, id).Some?
  {
    hide Evict, Insert, Place, Find;
    ReadableNothing(Insert(dir, Item(id, body, Unique(destinations))));
  }

  lemma AloneWhenLast(dir: seq<Item>, item: Item, l: Limits)
    requires Positive(l) && forall x :: x in dir ==> x.id < item.id
    ensures Fits([item] + dir[Place(dir, item.id)..], l) <==> Cost(item) <= l.maxBytes
  {
    var p := Place(dir, item.id);
    if p < |dir| { LateIsNotBelow(dir, p, item.id); }
    assert [item] + dir[p..] == [item];
    TotalOfOne(item);
  }

  lemma LateIsNotBelow(dir: seq<Item>, p: nat, id: Id)
    requires p < |dir| && dir[p].id >= id
    ensures exists x :: x in dir && x.id >= id
  {
    assert dir[p] in dir;
  }

  lemma TotalOfOne(item: Item)
    ensures Total([item]) == Cost(item)
  {
    assert Total([item][1..]) == 0;
  }

  lemma ReadableNothing(dir: seq<Item>)
    ensures Readable(dir, {}) == dir
  {
    if dir != [] {
      ReadableNothing(dir[1..]);
      assert dir == [dir[0]] + dir[1..];
    }
  }

  lemma FindInSuffix(all: seq<Item>, k: nat, p: nat)
    requires Sorted(all) && k <= |all| && p < |all|
    ensures Find(all[k..], all[p].id).Some? <==> k <= p
  {
    FindMeans(all[k..], all[p].id);
    if k <= p { assert all[k..][p - k].id == all[p].id; }
  }

  lemma FilterNothing(dest: Dest)
    ensures Filter([], dest) == []
  {
  }

  lemma FilterStep(list: seq<Dest>, i: nat, dest: Dest)
    requires i < |list|
    ensures Filter(list[i..], dest) == (if list[i] == dest then [] else [list[i]]) + Filter(list[i + 1..], dest)
  {
    assert list[i..][1..] == list[i + 1..];
  }

  lemma PutWithinLimits(h: Store, l: Limits, id: Id, body: seq<char>, destinations: seq<Dest>, f: PutFaults)
    requires Inv(h) && id !in h.puts
    ensures var (dir', ok) := PutResult(h.dir, l, id, body, destinations, f);
            ok ==> |dir'| <= l.maxItems && |Texts(dir')| <= l.maxBytes
  {
    var (dir', ok) := PutResult(h.dir, l, id, body, destinations, f);
    if ok {
      NewToDirectory(h, Item(id, body, Unique(destinations)));
      PutMeansKept(h.dir, l, id, body, destinations, f);
      TotalIsLength(dir');
    }
    hide Inv, PutResult, Texts, Total;
  }

  class DurableOutbox {
    const limits: Limits
    var dir: seq<Item>
    ghost var history: Store

    ghost predicate Valid()
      reads this
    {
      history.dir == dir && Inv(history) && Positive(limits)
    }

    constructor (limits: Limits)
      requires Positive(limits)
      ensures Valid() && dir == [] && history == Store([], map[], {}, {}, {}, []) && this.limits == limits
    {
      this.limits, dir, history := limits, [], Store([], map[], {}, {}, {}, []);
    }

    ghost predicate Fresh(id: Id)
      reads this
    {
      id !in history.puts && id !in history.evicted && id !in history.lost
    }

    method List(f: Listing) returns (items: Option<seq<Item>>)
      requires Valid()
      modifies this`dir, this`history
      ensures Valid() && history == Moved(old(history), f.moved)
      ensures items == if f.ok then Some(dir) else None
    {
      MovedKeepsInv(history, f.moved);
      history := Moved(history, f.moved);
      dir := Readable(dir, f.moved);
      items := if f.ok then Some(dir) else None;
    }

    method EnforceLimits(listing: Listing, removals: nat, syncOk: bool) returns (ok: bool)
      requires Valid()
      modifies this`dir, this`history
      ensures Valid()
      ensures var listed := Readable(old(dir), listing.moved);
              dir == (if listing.ok then Evict(listed, limits, removals).0 else listed)
              && ok == (listing.ok && Evict(listed, limits, removals).1 && syncOk)
      ensures history.puts == old(history).puts && history.acked == old(history).acked
              && history.trace == old(history).trace
      ensures old(history).evicted <= history.evicted && old(history).lost <= history.lost
    {
      hide Inv;
      var listed := List(listing);
      if listed.None? {
        return false;
      }
      var items := listed.value;
      var total := TotalCost(items);
      var left := removals;
      ghost var middle := history;
      while |items| > limits.maxItems || total > limits.maxBytes
        invariant Valid() && items == dir && total == Total(items)
        invariant Evict(items, limits, left) == Evict(listed.value, limits, removals)
        invariant history.puts == middle.puts && history.acked == middle.acked && history.trace == middle.trace
        invariant middle.evicted <= history.evicted && history.lost == middle.lost
        decreases |items|
      {
        assert items != [];
        if left == 0 {
          return false;
        }
        EvictFirstKeepsInv(history);
        history := EvictFirst(history);
        dir, left := dir[1..], left - 1;
        var cost := ItemCost(items[0]);
        total := total - cost;
        items := items[1..];
      }
      ok := syncOk;
    }

    method TotalCost(items: seq<Item>) returns (total: nat)
      ensures total == Total(items)
    {
      total := 0;
      for i := 0 to |items|
        invariant total + Total(items[i..]) == Total(items)
      {
        assert items[i..][1..] == items[i + 1..];
        var cost := ItemCost(items[i]);
        total := total + cost;
      }
      assert items[|items|..] == [];
    }

    method ItemCost(item: Item) returns (total: nat)
      ensures total == Cost(item)
    {
      total := |item.body|;
      for i := 0 to |item.pending|
        invariant total + Lengths(item.pending[i..]) == Cost(item)
      {
        assert item.pending[i..][1..] == item.pending[i + 1..];
        total := total + |item.pending[i]|;
      }
      assert item.pending[|item.pending|..] == [];
    }

    method Put(id: Id, body: seq<char>, destinations: seq<Dest>, f: PutFaults) returns (ok: bool)
      requires Valid() && Fresh(id)
      modifies this`dir, this`history
      ensures Valid() && (dir, ok) == PutResult(old(dir), limits, id, body, destinations, f)
      ensures ok ==> |dir| <= limits.maxItems && |Texts(dir)| <= limits.maxBytes
      ensures history.acked == old(history).acked && history.trace == old(history).trace
      ensures history.puts == (if body == [] || Unique(destinations) == [] || f.write.NotDone? then old(history).puts
                               else old(history).puts[id := Report(body, Unique(destinations))])
      ensures old(history).evicted <= history.evicted && old(history).lost <= history.lost
    {
      PutWithinLimits(history, limits, id, body, destinations, f);
      hide Inv, Readable, Evict, Insert, Texts;
      if body == [] || destinations == [] {
        return false;
      }
      var pending := UniqueDestinations(destinations);
      if pending == [] || f.write.NotDone? {
        return false;
      }
      UniqueMeans(destinations);
      StoredKeepsInv(history, Item(id, body, pending));
      history := Stored(history, Item(id, body, pending));
      dir := Insert(dir, Item(id, body, pending));
      if !f.write.Done? {
        return false;
      }
      ok := EnforceLimits(f.listing, f.removals, f.syncOk);
      if !ok {
        return;
      }
      ok := Find(dir, id).Some?;
    }

    /** Ack; the record is filtered in place and rewritten, or removed when nothing is left. */
    method Ack(id: Id, dest: Dest, effect: Effect) returns (ok: bool)
      requires Valid()
      modifies this`dir, this`history
      ensures Valid() && (ok ==> effect.Done?)
      ensures var k := Find(old(dir), id);
              if dest == "" || k.None? || effect.NotDone? then !ok && history == old(history)
              else ok == effect.Done? && history == AckAt(old(history), k.value, dest)
    {
      hide Inv, Place, Filter;
      var k := Find(dir, id);
      if dest == "" || k.None? || effect.NotDone? {
        return false;
      }
      var item := dir[k.value];
      var pending := Others(item.pending, dest);
      AckKeepsInv(history, k.value, dest);
      history := AckAt(history, k.value, dest);
      dir := if pending == [] then dir[..k.value] + dir[k.value + 1..] else dir[k.value := item.(pending := pending)];
      ok := effect.Done?;
    }

    method Others(list: seq<Dest>, dest: Dest) returns (kept: seq<Dest>)
      ensures kept == Filter(list, dest)
    {
      hide Filter;
      kept := [];
      FilterNothing(dest);
      for i := 0 to |list|
        invariant Filter(list, dest) == kept + Filter(list[i..], dest)
      {
        FilterStep(list, i, dest);
        if list[i] != dest {
          kept := kept + [list[i]];
        }
      }
      assert list[|list|..] == [];
    }
  }
}
