/** The reporter draining the outbox, destination by destination (internal/agent/reporter.go). */
module Reporting {
  import opened Wrappers
  import opened Outbox
  import opened OutboxStore

  /** What the outside does with one delivery: whether the context is over before it, which files a listing of another
      goroutine (a heartbeat asks for the depth) finds unreadable meanwhile, whether the sink accepts, and how the
      acknowledgement is written. */
  datatype Attempt = Attempt(cancelled: bool, moved: set<Id>, accepted: bool, ack: Effect)

  datatype FlushResult = Flushed | StillPending | Failed

  datatype SendResult = Sent | NotConfigured | NotStored | NotListed | RequiredPending

  /** What one delivery comes to; gone are the files found unreadable so far. */
  function OneDelivery(id: Id, dest: Dest, ids: seq<Dest>, a: Attempt, gone: set<Id>): FlushResult {
    if a.cancelled then Failed
    else if dest !in ids || !a.accepted then StillPending
    else if id in gone + a.moved || !a.ack.Done? then Failed
    else Flushed
  }

  /** A delivery is an error exactly if the context is over, or the sink accepted and the file is gone or its
      acknowledgement is not written; it leaves the report pending exactly if the sink is unknown or refuses. */
  lemma OneDeliveryMeans(id: Id, dest: Dest, ids: seq<Dest>, a: Attempt, gone: set<Id>)
    ensures var r := OneDelivery(id, dest, ids, a, gone);
            && (r.Failed? <==>
                a.cancelled
                || (dest in ids && a.accepted && (id in gone || id in a.moved || a.ack != Done)))
            && (r.StillPending? <==> !a.cancelled && (dest !in ids || !a.accepted))
  {
  }

  /** The worse of two results; an error ends the flush. */
  function Worse(a: FlushResult, b: FlushResult): FlushResult {
    if a.Failed? || b.Failed? then Failed else if a.StillPending? || b.StillPending? then StillPending else Flushed
  }

  /** A flush fails if any delivery fails, and is complete only if every delivery is. */
  lemma WorseMeans(a: FlushResult, b: FlushResult)
    ensures (Worse(a, b).Failed? <==> a.Failed? || b.Failed?) && (Worse(a, b).Flushed? <==> a.Flushed? && b.Flushed?)
  {
  }

  /** What the deliveries of one report come to, starting with the n-th attempt, and the files gone after them. */
  function ItemRun(id: Id, pending: seq<Dest>, ids: seq<Dest>, attempts: nat -> Attempt, n: nat, gone: set<Id>):
      (FlushResult, set<Id>) {
    if pending == [] then (Flushed, gone)
    else
      var one := OneDelivery(id, pending[0], ids, attempts(n), gone);
      var gone1 := if attempts(n).cancelled then gone else gone + attempts(n).moved;
      if one.Failed? then (Failed, gone1)
      else
        var (rest, gone2) := ItemRun(id, pending[1..], ids, attempts, n + 1, gone1);
        (Worse(one, rest), gone2)
  }

  /** The answer of a flush of these reports, for every behaviour of the sinks, the files and the context. */
  function FlushRun(items: seq<Item>, ids: seq<Dest>, attempts: nat -> Attempt, n: nat, gone: set<Id>): FlushResult {
    if items == [] then Flushed
    else
      var (one, gone1) := ItemRun(items[0].id, items[0].pending, ids, attempts, n, gone);
      if one.Failed? then Failed
      else Worse(one, FlushRun(items[1..], ids, attempts, n + |items[0].pending|, gone1))
  }

  /** What one delivery adds to the log: nothing if the context is over or the destination is not configured, otherwise
      the sending, and the acknowledgement of an accepted one whose record is there and is written. */
  function DeliveryLog(id: Id, body: seq<char>, dest: Dest, ids: seq<Dest>, a: Attempt, gone: set<Id>): seq<Act> {
    if a.cancelled || dest !in ids then []
    else
      [Act.Sent(id, dest, body, a.accepted)]
      + if a.accepted && id !in gone + a.moved && a.ack != NotDone then [Acked(id, dest)] else []
  }

  /** What the deliveries of one report add to the log: nothing follows the first error. */
  function ItemLog(id: Id, body: seq<char>, pending: seq<Dest>, ids: seq<Dest>, attempts: nat -> Attempt, n: nat,
                   gone: set<Id>): seq<Act>
    decreases |pending|
  {
    if pending == [] then []
    else
      DeliveryLog(id, body, pending[0], ids, attempts(n), gone)
      + if OneDelivery(id, pending[0], ids, attempts(n), gone).Failed? then []
        else ItemLog(id, body, pending[1..], ids, attempts, n + 1, gone + attempts(n).moved)
  }

  /** What a flush adds to the log. */
  function FlushLog(items: seq<Item>, ids: seq<Dest>, attempts: nat -> Attempt, n: nat, gone: set<Id>): seq<Act> {
    if items == [] then []
    else
      var item := items[0];
      var (one, gone1) := ItemRun(item.id, item.pending, ids, attempts, n, gone);
      ItemLog(item.id, item.body, item.pending, ids, attempts, n, gone)
      + if one.Failed? then [] else FlushLog(items[1..], ids, attempts, n + |item.pending|, gone1)
  }

  /** A log in which nothing is delivered to the same destination twice. */
  ghost predicate SentOnce(log: seq<Act>) {
    forall i, j :: 0 <= i < j < |log| && log[i].Sent? && log[j].Sent? ==>
      (log[i].id, log[i].dest) != (log[j].id, log[j].dest)
  }

  lemma {:induction false} ItemLogMeans(id: Id, body: seq<char>, pending: seq<Dest>, ids: seq<Dest>,
                                        attempts: nat -> Attempt, n: nat, gone: set<Id>)
    requires Distinct(pending)
    ensures var log := ItemLog(id, body, pending, ids, attempts, n, gone);
            && (forall act :: act in log ==>
                  act.id == id && act.dest in pending && act.dest in ids && (act.Sent? ==> act.body == body))
            && SentOnce(log)
    decreases |pending|
  {
    if pending != [] {
      var rest := pending[1..];
      assert pending == [pending[0]] + rest && pending[0] !in rest;
      ItemLogMeans(id, body, rest, ids, attempts, n + 1, gone + attempts(n).moved);
      OnceMore(DeliveryLog(id, body, pending[0], ids, attempts(n), gone),
               ItemLog(id, body, rest, ids, attempts, n + 1, gone + attempts(n).moved), id, pending[0]);
      hide OneDelivery, SentOnce;
    }
  }

  lemma OnceMore(first: seq<Act>, more: seq<Act>, id: Id, dest: Dest)
    requires SentOnce(first) && SentOnce(more)
    requires forall act :: act in first ==> act.id == id && act.dest == dest
    requires forall act :: act in more ==> (act.id, act.dest) != (id, dest)
    ensures SentOnce(first + more)
  {
    var log := first + more;
    forall i, j | 0 <= i < j < |log| && log[i].Sent? && log[j].Sent?
      ensures (log[i].id, log[i].dest) != (log[j].id, log[j].dest)
    {
      if i < |first| <= j { assert log[i] in first && log[j] in more; }
    }
  }

  lemma OnceApart(first: seq<Act>, more: seq<Act>, id: Id)
    requires SentOnce(first) && SentOnce(more)
    requires (forall act :: act in first ==> act.id == id) && forall act :: act in more ==> act.id != id
    ensures SentOnce(first + more)
  {
    var log := first + more;
    forall i, j | 0 <= i < j < |log| && log[i].Sent? && log[j].Sent?
      ensures (log[i].id, log[i].dest) != (log[j].id, log[j].dest)
    {
      if i < |first| <= j { assert log[i] in first && log[j] in more; }
    }
  }

  /** The act concerns a listed report and a configured destination it was pending for. */
  ghost predicate Wanted(items: seq<Item>, ids: seq<Dest>, act: Act) {
    act.dest in ids
    && exists x :: x in items && x.id == act.id && act.dest in x.pending && (act.Sent? ==> act.body == x.body)
  }

  ghost predicate OnlyWanted(items: seq<Item>, ids: seq<Dest>, log: seq<Act>) {
    forall act :: act in log ==> Wanted(items, ids, act)
  }

  lemma WantedOfFirst(items: seq<Item>, ids: seq<Dest>, log: seq<Act>)
    requires items != []
    requires forall act :: act in log ==>
               act.id == items[0].id && act.dest in items[0].pending && act.dest in ids
               && (act.Sent? ==> act.body == items[0].body)
    ensures OnlyWanted(items, ids, log)
  {
  }

  lemma WantedOfRest(items: seq<Item>, ids: seq<Dest>, log: seq<Act>, more: seq<Act>)
    requires items != [] && OnlyWanted(items[1..], ids, more) && OnlyWanted(items, ids, log)
    requires forall i, j :: 0 <= i < j < |items| ==> items[i].id != items[j].id
    ensures OnlyWanted(items, ids, log + more) && forall act :: act in more ==> act.id != items[0].id
  {
    forall act | act in more ensures Wanted(items, ids, act) && act.id != items[0].id {
      var x :| x in items[1..] && x.id == act.id && act.dest in x.pending && (act.Sent? ==> act.body == x.body);
      assert x in items;
    }
  }

  /** A flush delivers nothing to the same destination twice, and only what was listed to whom it was pending for. */
  lemma {:induction false} FlushSendsOnce(items: seq<Item>, ids: seq<Dest>, attempts: nat -> Attempt, n: nat,
                                          gone: set<Id>)
    requires forall x :: x in items ==> Distinct(x.pending)
    requires forall i, j :: 0 <= i < j < |items| ==> items[i].id != items[j].id
    ensures SentOnce(FlushLog(items, ids, attempts, n, gone))
    ensures OnlyWanted(items, ids, FlushLog(items, ids, attempts, n, gone))
    decreases |items|
  {
    hide ItemLog, ItemRun, SentOnce, OnlyWanted, Wanted, Distinct;
    if items == [] {
      EmptyLog(ids);
    } else {
      var item, rest := items[0], items[1..];
      var (one, gone1) := ItemRun(item.id, item.pending, ids, attempts, n, gone);
      var log, more := ItemLog(item.id, item.body, item.pending, ids, attempts, n, gone),
          FlushLog(rest, ids, attempts, n + |item.pending|, gone1);
      ItemLogMeans(item.id, item.body, item.pending, ids, attempts, n, gone);
      WantedOfFirst(items, ids, log);
      FlushSendsOnce(rest, ids, attempts, n + |item.pending|, gone1);
      WantedOfRest(items, ids, log, more);
      OnceApart(log, more, item.id);
      assert log + [] == log;
    }
  }

  lemma EmptyLog(ids: seq<Dest>)
    ensures SentOnce([]) && OnlyWanted([], ids, [])
  {
  }

  /** An error ends the deliveries of a report: there is a first destination at which it happens, and nothing is
      delivered to those after it. */
  lemma {:induction false} NothingAfterError(id: Id, body: seq<char>, pending: seq<Dest>, ids: seq<Dest>,
                                             attempts: nat -> Attempt, n: nat, gone: set<Id>)
    returns (k: nat, goneBy: set<Id>)
    requires ItemRun(id, pending, ids, attempts, n, gone).0.Failed?
    ensures k < |pending|
    ensures ItemRun(id, pending[..k], ids, attempts, n, gone).0 != Failed
            && ItemRun(id, pending[..k], ids, attempts, n, gone).1 == goneBy
    ensures OneDelivery(id, pending[k], ids, attempts(n + k), goneBy).Failed?
    ensures ItemLog(id, body, pending, ids, attempts, n, gone) ==
            ItemLog(id, body, pending[..k], ids, attempts, n, gone)
            + DeliveryLog(id, body, pending[k], ids, attempts(n + k), goneBy)
    decreases |pending|
  {
    hide DeliveryLog;
    var rest := pending[1..];
    if OneDelivery(id, pending[0], ids, attempts(n), gone).Failed? {
      k, goneBy := 0, gone;
    } else {
      var m := n + 1;
      k, goneBy := NothingAfterError(id, body, rest, ids, attempts, m, gone + attempts(n).moved);
      assert pending[..k + 1][1..] == rest[..k] && pending[..k + 1][0] == pending[0];
      assert n + (k + 1) == m + k;
      k := k + 1;
    }
  }

  /** The number of deliveries before those of the i-th report. */
  function Offset(items: seq<Item>, i: nat): nat
    requires i <= |items|
  {
    if i == 0 then 0 else |items[0].pending| + Offset(items[1..], i - 1)
  }

  ghost predicate NoFaults(attempts: nat -> Attempt) {
    forall k :: !attempts(k).cancelled && attempts(k).moved == {} && attempts(k).ack.Done?
  }

  predicate AcceptsAt(pending: seq<Dest>, ids: seq<Dest>, attempts: nat -> Attempt, n: nat, k: nat)
    requires k < |pending|
  {
    pending[k] in ids && attempts(n + k).accepted
  }

  /** Every destination the report is pending for is configured and accepts, the first with the n-th attempt. */
  predicate Accepts(item: Item, ids: seq<Dest>, attempts: nat -> Attempt, n: nat) {
    forall k :: 0 <= k < |item.pending| ==> AcceptsAt(item.pending, ids, attempts, n, k)
  }

  predicate AllAccept(items: seq<Item>, ids: seq<Dest>, attempts: nat -> Attempt, n: nat) {
    forall i :: 0 <= i < |items| ==> Accepts(items[i], ids, attempts, n + Offset(items, i))
  }

  lemma {:induction false} ItemWithoutFaults(item: Item, ids: seq<Dest>, attempts: nat -> Attempt, n: nat)
    requires NoFaults(attempts)
    ensures ItemRun(item.id, item.pending, ids, attempts, n, {})
            == (if Accepts(item, ids, attempts, n) then Flushed else StillPending, {})
    decreases |item.pending|
  {
    if item.pending != [] {
      var rest := item.(pending := item.pending[1..]);
      ItemWithoutFaults(rest, ids, attempts, n + 1);
      AcceptsRest(item, ids, attempts, n);
      var nothing: set<Id> := {};
      assert nothing + attempts(n).moved == {} && !attempts(n).cancelled && attempts(n).ack.Done?;
      hide Accepts;
    }
  }

  lemma AcceptsRest(item: Item, ids: seq<Dest>, attempts: nat -> Attempt, n: nat)
    requires item.pending != []
    ensures Accepts(item, ids, attempts, n) <==>
              && item.pending[0] in ids && attempts(n).accepted
              && Accepts(item.(pending := item.pending[1..]), ids, attempts, n + 1)
  {
    var all, rest := item.pending, item.pending[1..];
    assert AcceptsAt(all, ids, attempts, n, 0) <==> all[0] in ids && attempts(n).accepted;
    hide AcceptsAt;
    if Accepts(item.(pending := rest), ids, attempts, n + 1) && AcceptsAt(all, ids, attempts, n, 0) {
      forall k | 0 <= k < |all| ensures AcceptsAt(all, ids, attempts, n, k) {
        if k > 0 { AcceptsNext(all, ids, attempts, n, k - 1); }
      }
    }
    if Accepts(item, ids, attempts, n) {
      var m := n + 1;
      forall k | 0 <= k < |rest| ensures AcceptsAt(rest, ids, attempts, m, k) {
        AcceptsNext(all, ids, attempts, n, k);
      }
    }
  }

  lemma AcceptsNext(pending: seq<Dest>, ids: seq<Dest>, attempts: nat -> Attempt, n: nat, k: nat)
    requires k + 1 < |pending|
    ensures AcceptsAt(pending[1..], ids, attempts, n + 1, k) == AcceptsAt(pending, ids, attempts, n, k + 1)
  {
    assert n + 1 + k == n + (k + 1);
  }

  lemma AllAcceptRest(items: seq<Item>, ids: seq<Dest>, attempts: nat -> Attempt, n: nat)
    requires items != []
    ensures AllAccept(items, ids, attempts, n) <==>
              Accepts(items[0], ids, attempts, n) && AllAccept(items[1..], ids, attempts, n + |items[0].pending|)
  {
    hide Accepts;
    var rest, m := items[1..], n + |items[0].pending|;
    forall i | 0 <= i < |rest|
      ensures Accepts(rest[i], ids, attempts, m + Offset(rest, i))
              == Accepts(items[i + 1], ids, attempts, n + Offset(items, i + 1))
    {
      assert Offset(items, i + 1) == |items[0].pending| + Offset(rest, i);
    }
    assert Offset(items, 0) == 0;
    hide Offset;
    if Accepts(items[0], ids, attempts, n) && AllAccept(rest, ids, attempts, m) {
      forall i | 0 <= i < |items| ensures Accepts(items[i], ids, attempts, n + Offset(items, i)) {
        if i > 0 { assert Accepts(rest[i - 1], ids, attempts, m + Offset(rest, i - 1)); }
      }
    }
  }

  /** Without faults a flush never fails, and it empties the outbox if and only if every destination of every report is
      configured and accepts. */
  lemma {:induction false} FlushWithoutFaults(items: seq<Item>, ids: seq<Dest>, attempts: nat -> Attempt, n: nat)
    requires NoFaults(attempts)
    ensures FlushRun(items, ids, attempts, n, {})
            == if AllAccept(items, ids, attempts, n) then Flushed else StillPending
    decreases |items|
  {
    if items != [] {
      hide Accepts, AllAccept, ItemRun, Offset;
      AllAcceptRest(items, ids, attempts, n);
      ItemWithoutFaults(items[0], ids, attempts, n);
      FlushWithoutFaults(items[1..], ids, attempts, n + |items[0].pending|);
    }
  }

  /** And it ends the flush: nothing is delivered for the reports after the one at which it happens. */
  lemma {:induction false} NothingAfterFailedReport(items: seq<Item>, ids: seq<Dest>, attempts: nat -> Attempt, n: nat,
                                                    gone: set<Id>) returns (i: nat, goneBy: set<Id>)
    requires FlushRun(items, ids, attempts, n, gone).Failed?
    ensures i < |items| && !FlushRun(items[..i], ids, attempts, n, gone).Failed?
    ensures ItemRun(items[i].id, items[i].pending, ids, attempts, n + Offset(items, i), goneBy).0.Failed?
    ensures FlushLog(items, ids, attempts, n, gone) ==
            FlushLog(items[..i], ids, attempts, n, gone)
            + ItemLog(items[i].id, items[i].body, items[i].pending, ids, attempts, n + Offset(items, i), goneBy)
    decreases |items|
  {
    hide ItemRun, ItemLog, FlushRun, FlushLog;
    FlushNothing(ids, attempts, n, gone);
    FlushStep(items, ids, attempts, n, gone);
    var item, rest := items[0], items[1..];
    var (one, gone1) := ItemRun(item.id, item.pending, ids, attempts, n, gone);
    if one.Failed? {
      i, goneBy := 0, gone;
      assert n + Offset(items, 0) == n && items[..0] == [];
    } else {
      var m := n + |item.pending|;
      i, goneBy := NothingAfterFailedReport(rest, ids, attempts, m, gone1);
      i := i + 1;
      assert items[..i][1..] == rest[..i - 1] && items[..i][0] == item && items[i] == rest[i - 1];
      FlushStep(items[..i], ids, attempts, n, gone);
      assert n + Offset(items, i) == m + Offset(rest, i - 1);
    }
  }

  lemma FlushNothing(ids: seq<Dest>, attempts: nat -> Attempt, n: nat, gone: set<Id>)
    ensures FlushRun([], ids, attempts, n, gone) == Flushed && FlushLog([], ids, attempts, n, gone) == []
  {
  }

  lemma FlushStep(items: seq<Item>, ids: seq<Dest>, attempts: nat -> Attempt, n: nat, gone: set<Id>)
    requires items != []
    ensures var item, rest := items[0], items[1..];
            var (one, gone1) := ItemRun(item.id, item.pending, ids, attempts, n, gone);
            var m, log := n + |item.pending|, ItemLog(item.id, item.body, item.pending, ids, attempts, n, gone);
            && (FlushRun(items, ids, attempts, n, gone).Failed? <==>
                one.Failed? || FlushRun(rest, ids, attempts, m, gone1).Failed?)
            && (one.Failed? ==> FlushLog(items, ids, attempts, n, gone) == log)
            && (!one.Failed? ==>
                  FlushLog(items, ids, attempts, n, gone) == log + FlushLog(rest, ids, attempts, m, gone1))
  {
    hide ItemRun, ItemLog;
  }

  /** The report is still owed to someone, so its file exists unless it was found unreadable. */
  ghost predicate Owing(h: Store, id: Id) {
    id in h.puts && id !in h.evicted && Remaining(h.puts[id].destinations, id, h.acked) != []
  }

  lemma OwingIsFound(h: Store, id: Id)
    requires Inv(h) && Owing(h, id)
    ensures Find(h.dir, id).Some? <==> id !in h.lost
  {
    FoundIsOwed(h, id);
    hide Find, Remaining;
  }

  lemma MoveTracks(h: Store, moved: set<Id>, id: Id)
    requires Inv(h) && Owing(h, id)
    ensures Owing(Moved(h, moved), id) && (id in Moved(h, moved).lost <==> id in h.lost || id in moved)
  {
    hide Remaining, Readable, Honest;
    if id !in h.lost && id in moved {
      assert Has(h.dir, id);
    }
  }

  lemma OwingByDest(h: Store, id: Id, dest: Dest)
    requires id in h.puts && id !in h.evicted && dest in h.puts[id].destinations && (id, dest) !in h.acked
    ensures Owing(h, id)
  {
    RemainingMeans(h.puts[id].destinations, id, h.acked);
    hide Remaining;
  }

  /** Acknowledgements of one report leave what the others are owed. */
  lemma OthersStayOwing(h: Store, h': Store, id: Id, other: Id)
    requires Owing(h, other) && other != id && h'.puts == h.puts && h'.evicted == h.evicted && h.acked <= h'.acked
    requires forall i, d :: (i, d) in h'.acked ==> (i, d) in h.acked || i == id
    ensures Owing(h', other)
  {
    RemainingMeans(h.puts[other].destinations, other, h.acked);
    RemainingMeans(h.puts[other].destinations, other, h'.acked);
    hide Remaining;
    NoElements(Remaining(h.puts[other].destinations, other, h.acked));
  }

  predicate Configured(ids: seq<Dest>) {
    ids != [] && "" !in ids && forall i, j :: 0 <= i < j < |ids| ==> ids[i] != ids[j]
  }

  /** What a flush never touches: what was put and what was evicted; acknowledgements, unreadable files and the log
      only grow. */
  ghost predicate OnlyDelivers(before: Store, after: Store) {
    && after.puts == before.puts && after.evicted == before.evicted && before.lost <= after.lost
    && before.acked <= after.acked
    && |before.trace| <= |after.trace| && after.trace[..|before.trace|] == before.trace
    && forall x :: x in after.dir ==> Has(before.dir, x.id)
  }

  lemma OnlyDeliversChains(a: Store, b: Store, c: Store)
    requires OnlyDelivers(a, b) && OnlyDelivers(b, c)
    ensures OnlyDelivers(a, c)
  {
    assert a.trace == c.trace[..|b.trace|][..|a.trace|];
    forall x | x in c.dir ensures Has(a.dir, x.id) {
      var i :| 0 <= i < |b.dir| && b.dir[i].id == x.id;
      assert b.dir[i] in b.dir;
    }
  }

  /** A delivery of the report was tried after the log had the given length. */
  ghost predicate Tried(h: Store, since: nat, item: Item, dest: Dest) {
    since <= |h.trace| && exists accepted :: Act.Sent(item.id, dest, item.body, accepted) in h.trace[since..]
  }

  lemma TriedForGood(before: Store, after: Store, since: nat, item: Item, dest: Dest)
    requires OnlyDelivers(before, after) && Tried(before, since, item, dest)
    ensures Tried(after, since, item, dest)
  {
    var accepted :| Act.Sent(item.id, dest, item.body, accepted) in before.trace[since..];
    assert after.trace[since..] == before.trace[since..] + after.trace[|before.trace|..];
  }

  /** The first k destinations, as far as they are configured, were tried. */
  ghost predicate AllTried(h: Store, since: nat, item: Item, ids: seq<Dest>, k: nat) {
    k <= |item.pending|
    && forall j :: 0 <= j < k && item.pending[j] in ids ==> Tried(h, since, item, item.pending[j])
  }

  lemma NoneTried(h: Store, item: Item, ids: seq<Dest>)
    ensures AllTried(h, |h.trace|, item, ids, 0)
  {
  }

  lemma AllTriedNext(before: Store, middle: Store, after: Store, item: Item, ids: seq<Dest>, k: nat)
    requires OnlyDelivers(before, middle) && OnlyDelivers(middle, after) && k < |item.pending|
    requires AllTried(middle, |before.trace|, item, ids, k)
    requires item.pending[k] in ids ==> Tried(after, |middle.trace|, item, item.pending[k])
    ensures AllTried(after, |before.trace|, item, ids, k + 1)
  {
    LongerLog(before, middle);
    hide OnlyDelivers, Tried;
    forall j | 0 <= j < k + 1 && item.pending[j] in ids ensures Tried(after, |before.trace|, item, item.pending[j]) {
      if j < k { TriedForGood(middle, after, |before.trace|, item, item.pending[j]); }
      else { TriedSooner(after, |before.trace|, |middle.trace|, item, item.pending[j]); }
    }
  }

  lemma EachTried(h: Store, since: nat, item: Item, ids: seq<Dest>)
    ensures AllTried(h, since, item, ids, |item.pending|) ==>
              forall d :: d in item.pending && d in ids ==> Tried(h, since, item, d)
  {
    hide Tried;
  }

  lemma SendOnlyDelivers(h: Store, item: Item, dest: Dest, accepted: bool)
    ensures OnlyDelivers(h, Sending(h, item, dest, accepted))
            && Tried(Sending(h, item, dest, accepted), |h.trace|, item, dest)
  {
    var h' := Sending(h, item, dest, accepted);
    HasMember(h.dir);
    assert h'.trace[|h.trace|..] == [Act.Sent(item.id, dest, item.body, accepted)];
  }

  lemma AckOnlyDelivers(h: Store, k: nat, dest: Dest)
    requires k < |h.dir|
    ensures OnlyDelivers(h, AckAt(h, k, dest))
  {
    HasMember(h.dir);
    assert h.dir[k] in h.dir;
    forall x | x in AckAt(h, k, dest).dir ensures exists y :: y in h.dir && y.id == x.id {
      if x !in h.dir { assert x.id == h.dir[k].id; }
    }
    hide Has, Filter;
  }

  lemma MoveMeans(h: Store, moved: set<Id>)
    requires Inv(h)
    ensures var h' := Moved(h, moved);
            && h'.lost <= h.lost + moved && (forall x :: x in h'.dir ==> x in h.dir)
            && OnlyDelivers(h, h') && (Earned(h) ==> Earned(h'))
  {
    ReadableMeans(h.dir, moved);
    HasMember(h.dir);
    hide Has, Readable;
  }

  lemma FoundIsOwed(h: Store, id: Id)
    requires Inv(h)
    ensures Find(h.dir, id).Some? ==>
              var item := h.dir[Find(h.dir, id).value];
              Find(h.dir, id).value < |h.dir| && item in h.dir && item.id == id && id in h.puts && id !in h.lost
                  && item.body == h.puts[id].body
              && item.pending == Remaining(h.puts[id].destinations, id, h.acked)
    ensures (id in h.puts && id !in h.evicted && id !in h.lost
             && Remaining(h.puts[id].destinations, id, h.acked) != []) ==> Find(h.dir, id).Some?
  {
    FindMeans(h.dir, id);
    hide Remaining;
  }

  class Reporter {
    const outbox: DurableOutbox
    const orderedIds: seq<Dest>

    constructor (outbox: DurableOutbox, ids: seq<Dest>)
      requires Configured(ids)
      ensures this.outbox == outbox && orderedIds == ids
    {
      this.outbox, this.orderedIds := outbox, ids;
    }

    /** One destination of one listed report. */
    method Deliver(item: Item, dest: Dest, a: Attempt) returns (r: FlushResult)
      requires outbox.Valid() && Earned(outbox.history) && Configured(orderedIds)
      requires item.id in outbox.history.puts && item.body == outbox.history.puts[item.id].body
      requires dest in outbox.history.puts[item.id].destinations && (item.id, dest) !in outbox.history.acked
      requires item.id !in outbox.history.evicted
      modifies outbox`dir, outbox`history
      ensures outbox.Valid() && Earned(outbox.history) && OnlyDelivers(old(outbox.history), outbox.history)
      ensures r == OneDelivery(item.id, dest, orderedIds, a, old(outbox.history.lost))
      ensures outbox.history.trace
              == old(outbox.history.trace)
                 + DeliveryLog(item.id, item.body, dest, orderedIds, a, old(outbox.history.lost))
      ensures outbox.history.lost
              == (if a.cancelled then old(outbox.history) else Moved(old(outbox.history), a.moved)).lost
      ensures outbox.history.acked <= old(outbox.history.acked) + {(item.id, dest)}
      ensures !a.accepted ==> outbox.history.acked == old(outbox.history.acked)
      ensures r.Flushed? ==> (item.id, dest) in outbox.history.acked
      ensures !r.Failed? && dest in orderedIds ==> Tried(outbox.history, |old(outbox.history.trace)|, item, dest)
    {
      hide Inv, AckAt, Find, Moved, OnlyDelivers, Tried, Earned, Owing;
      ghost var start := outbox.history;
      if a.cancelled {
        Unchanged(start);
        return Failed;
      }
      OwingByDest(start, item.id, dest);
      MoveTracks(start, a.moved, item.id);
      MoveMeans(start, a.moved);
      MovedLog(start, a.moved);
      var _ := outbox.List(Listing(a.moved, true));
      if dest !in orderedIds {
        return StillPending;
      }
      OwingIsFound(outbox.history, item.id);
      r := SendAndAck(item, dest, a);
      OnlyDeliversChains(start, Moved(start, a.moved), outbox.history);
    }

    method SendAndAck(item: Item, dest: Dest, a: Attempt) returns (r: FlushResult)
      requires outbox.Valid() && Earned(outbox.history) && dest != ""
      requires item.id in outbox.history.puts && item.body == outbox.history.puts[item.id].body
               && (item.id, dest) !in outbox.history.acked
      modifies outbox`dir, outbox`history
      ensures outbox.Valid() && Earned(outbox.history) && OnlyDelivers(old(outbox.history), outbox.history)
      ensures r == if !a.accepted then StillPending
                   else if Find(old(outbox.dir), item.id).Some? && a.ack.Done? then Flushed else Failed
      ensures outbox.history.trace
              == old(outbox.history.trace) + [Act.Sent(item.id, dest, item.body, a.accepted)]
                 + if a.accepted && Find(old(outbox.dir), item.id).Some? && a.ack != NotDone
                   then [Acked(item.id, dest)] else []
      ensures outbox.history.lost == old(outbox.history.lost)
      ensures outbox.history.acked <= old(outbox.history.acked) + {(item.id, dest)}
      ensures !a.accepted ==> outbox.history.acked == old(outbox.history.acked)
      ensures r.Flushed? ==> (item.id, dest) in outbox.history.acked
      ensures Tried(outbox.history, |old(outbox.history.trace)|, item, dest)
    {
      hide Inv, AckAt, Find, OnlyDelivers, Tried, Earned;
      ghost var before := outbox.history;
      SendingKeepsInv(before, item, dest, a.accepted);
      SendOnlyDelivers(before, item, dest, a.accepted);
      EarnedCarries(before, Sending(before, item, dest, a.accepted));
      outbox.history := Sending(before, item, dest, a.accepted);
      if !a.accepted {
        return StillPending;
      }
      ghost var sent := outbox.history;
      FoundIsOwed(sent, item.id);
      assert sent.trace[|before.trace|] == Act.Sent(item.id, dest, item.body, true);
      if Find(sent.dir, item.id).Some? { AckedFacts(before, sent, item, dest); }
      var ok := outbox.Ack(item.id, dest, a.ack);
      r := if ok then Flushed else Failed;
    }

    lemma AckedFacts(before: Store, sent: Store, item: Item, dest: Dest)
      requires Inv(sent) && Earned(sent) && OnlyDelivers(before, sent) && Tried(sent, |before.trace|, item, dest)
      requires Act.Sent(item.id, dest, item.body, true) in sent.trace && item.id in sent.puts
               && item.body == sent.puts[item.id].body
      requires Find(sent.dir, item.id).Some?
      ensures var k := Find(sent.dir, item.id).value;
              && k < |sent.dir|
              && Earned(AckAt(sent, k, dest)) && OnlyDelivers(before, AckAt(sent, k, dest))
              && Tried(AckAt(sent, k, dest), |before.trace|, item, dest)
              && AckAt(sent, k, dest).acked == sent.acked + {(item.id, dest)} && AckAt(sent, k, dest).lost == sent.lost
              && AckAt(sent, k, dest).trace == sent.trace + [Acked(item.id, dest)]
    {
      hide AckAt, Find, OnlyDelivers, Tried, Earned;
      FoundIsOwed(sent, item.id);
      var k := Find(sent.dir, item.id).value;
      AckKeepsEarned(sent, k, dest);
      AckOnlyDelivers(sent, k, dest);
      OnlyDeliversChains(before, sent, AckAt(sent, k, dest));
      TriedForGood(sent, AckAt(sent, k, dest), |before.trace|, item, dest);
      AckedPair(sent, k, dest);
    }

    /** What the inner loop needs of a listed report. */
    ghost predicate Listed(h: Store, item: Item) {
      && Distinct(item.pending) && item.id in h.puts && item.id !in h.evicted && item.body == h.puts[item.id].body
      && forall d :: d in item.pending ==>
           d in h.puts[item.id].destinations && (item.id, d) !in h.acked
    }

    /** The inner loop of Flush; gone is what was found unreadable since the listing, before and after. */
    method FlushItem(item: Item, attempts: nat -> Attempt, first: nat, ghost gone: set<Id>)
        returns (r: FlushResult, next: nat, ghost gone': set<Id>)
      requires outbox.Valid() && Earned(outbox.history) && Configured(orderedIds) && Listed(outbox.history, item)
      requires item.id in outbox.history.lost <==> item.id in gone
      modifies outbox`dir, outbox`history
      ensures outbox.Valid() && Earned(outbox.history) && OnlyDelivers(old(outbox.history), outbox.history)
      ensures (r, gone') == ItemRun(item.id, item.pending, orderedIds, attempts, first, gone)
      ensures outbox.history.trace
              == old(outbox.history.trace)
                 + ItemLog(item.id, item.body, item.pending, orderedIds, attempts, first, gone)
      ensures !r.Failed? ==> next == first + |item.pending|
      ensures forall id :: Owing(old(outbox.history), id) && id != item.id
                           && (id in old(outbox.history.lost) <==> id in gone) ==>
                (id in outbox.history.lost <==> id in gone')
      ensures forall id, d :: (id, d) in outbox.history.acked ==> (id, d) in old(outbox.history.acked) || id == item.id
      ensures (forall k :: !attempts(k).accepted) ==> outbox.history.acked == old(outbox.history.acked)
      ensures r.Flushed? ==> forall d :: d in item.pending ==> (item.id, d) in outbox.history.acked
      ensures !r.Failed? ==>
                forall d :: d in item.pending && d in orderedIds ==>
                      Tried(outbox.history, |old(outbox.history.trace)|, item, d)
    {
      hide Inv, OnlyDelivers, Tried, Earned, ItemRun, Owing, Moved, OneDelivery, ItemLog, DeliveryLog, Appended,
           AllTried;
      ghost var before := outbox.history;
      NoneTried(before, item, orderedIds);
      assert item.pending[0..] == item.pending;
      AppendedNothing(before.trace, ItemLog(item.id, item.body, item.pending, orderedIds, attempts, first, gone));
      Unchanged(before);
      r, next, gone' := Flushed, first, gone;
      for k := 0 to |item.pending|
        invariant outbox.Valid() && Earned(outbox.history) && OnlyDelivers(before, outbox.history) && !r.Failed?
        invariant next == first + k
        invariant ItemRun(item.id, item.pending, orderedIds, attempts, first, gone)
                  == Join(r, ItemRun(item.id, item.pending[k..], orderedIds, attempts, next, gone'))
        invariant Appended(before.trace, ItemLog(item.id, item.body, item.pending, orderedIds, attempts, first, gone),
                           outbox.history.trace,
                           ItemLog(item.id, item.body, item.pending[k..], orderedIds, attempts, next, gone'))
        invariant outbox.history.puts == before.puts && outbox.history.evicted == before.evicted
        invariant k < |item.pending| ==> (item.id in outbox.history.lost <==> item.id in gone')
        invariant forall id :: Owing(before, id) && id != item.id && (id in before.lost <==> id in gone) ==>
                    Owing(outbox.history, id) && (id in outbox.history.lost <==> id in gone')
        invariant forall id, d :: (id, d) in outbox.history.acked ==>
                    (id, d) in before.acked || (id == item.id && d in item.pending[..k])
        invariant (forall j :: !attempts(j).accepted) ==> outbox.history.acked == before.acked
        invariant r.Flushed? ==> forall j :: 0 <= j < k ==> (item.id, item.pending[j]) in outbox.history.acked
        invariant AllTried(outbox.history, |before.trace|, item, orderedIds, k)
      {
        ghost var middle, soFar, goneSoFar, a := outbox.history, r, gone', attempts(next);
        LongerLog(before, middle);
        ItemRunOne(item.id, item.pending, k, orderedIds, attempts, next, gone');
        DeliveryByLost(item.id, item.pending[k], orderedIds, a, gone', middle.lost);
        ItemLogOne(item.id, item.body, item.pending, k, orderedIds, attempts, next, gone');
        LogByLost(item.id, item.body, item.pending[k], orderedIds, a, gone', middle.lost);
        ghost var all, act := ItemLog(item.id, item.body, item.pending, orderedIds, attempts, first, gone),
            DeliveryLog(item.id, item.body, item.pending[k], orderedIds, a, gone');
        var one := Deliver(item, item.pending[k], attempts(next));
        gone' := if a.cancelled then gone' else gone' + a.moved;
        next := next + 1;
        AppendedNext(before.trace, all, middle.trace, act,
                     if one.Failed? then []
                     else ItemLog(item.id, item.body, item.pending[k + 1..], orderedIds, attempts, next, gone'));
        OnlyDeliversChains(before, middle, outbox.history);
        FrameOf(middle, outbox.history);
        StillTracked(middle, outbox.history, item, item.pending[k], a, goneSoFar, gone');
        if one.Failed? {
          AppendedAll(before.trace, all, outbox.history.trace);
          return Failed, next, gone';
        }
        AllTriedNext(before, middle, outbox.history, item, orderedIds, k);
        if k + 1 < |item.pending| { OwingByDest(middle, item.id, item.pending[k]); }
        if one.StillPending? {
          r := StillPending;
        }
      }
      assert item.pending[|item.pending|..] == [];
      ItemRunNone(item.id, orderedIds, attempts, next, gone');
      ItemLogNone(item.id, item.body, orderedIds, attempts, next, gone');
      AppendedAll(before.trace, ItemLog(item.id, item.body, item.pending, orderedIds, attempts, first, gone),
                  outbox.history.trace);
      EachTried(outbox.history, |before.trace|, item, orderedIds);
    }

    /** The whole answer: it is FlushRun's, whatever the sinks, the files and the context do. */
    method Flush(listing: Listing, attempts: nat -> Attempt) returns (r: FlushResult)
      requires outbox.Valid() && Earned(outbox.history) && Configured(orderedIds)
      modifies outbox`dir, outbox`history
      ensures outbox.Valid() && Earned(outbox.history)
              && OnlyDelivers(Moved(old(outbox.history), listing.moved), outbox.history)
      ensures r == if !listing.ok then Failed
                   else FlushRun(Readable(old(outbox.dir), listing.moved), orderedIds, attempts, 0, {})
      ensures outbox.history.trace
              == old(outbox.history.trace)
                 + if !listing.ok then []
                   else FlushLog(Readable(old(outbox.dir), listing.moved), orderedIds, attempts, 0, {})
      ensures r.Flushed? ==> outbox.dir == []
      ensures (forall k :: !attempts(k).accepted) ==> outbox.history.acked == old(outbox.history.acked)
      ensures !r.Failed? ==>
                forall x, d :: x in Readable(old(outbox.dir), listing.moved) && d in x.pending && d in orderedIds ==>
                Tried(outbox.history, |old(outbox.history.trace)|, x, d)
    {
      hide Inv, OnlyDelivers, Tried, Moved, Readable, Earned, FlushRun, ItemRun, Listed, Owing, ItemLog, FlushLog,
           Appended;
      ghost var start := Moved(outbox.history, listing.moved);
      MoveMeans(outbox.history, listing.moved);
      MovedFrame(outbox.history, listing.moved);
      MovedLog(outbox.history, listing.moved);
      Unchanged(start);
      var listed := outbox.List(listing);
      if listed.None? {
        return Failed;
      }
      var items, n := listed.value, 0;
      assert items[0..] == items;
      AppendedNothing(start.trace, FlushLog(items, orderedIds, attempts, 0, {}));
      ListedFacts(start);
      AllListed(start);
      r := Flushed;
      ghost var gone: set<Id> := {};
      for i := 0 to |items|
        invariant outbox.Valid() && Earned(outbox.history) && OnlyDelivers(start, outbox.history) && !r.Failed?
        invariant FlushRun(items, orderedIds, attempts, 0, {})
                  == Worse(r, FlushRun(items[i..], orderedIds, attempts, n, gone))
        invariant Appended(start.trace, FlushLog(items, orderedIds, attempts, 0, {}), outbox.history.trace,
                           FlushLog(items[i..], orderedIds, attempts, n, gone))
        invariant forall j :: i <= j < |items| ==>
                    Listed(outbox.history, items[j]) && Owing(outbox.history, items[j].id)
                    && (items[j].id in outbox.history.lost <==> items[j].id in gone)
        invariant (forall k :: !attempts(k).accepted) ==> outbox.history.acked == start.acked
        invariant r.Flushed? ==>
                    forall j, d :: 0 <= j < i && d in items[j].pending ==> (items[j].id, d) in outbox.history.acked
        invariant forall j, d :: 0 <= j < i && d in items[j].pending && d in orderedIds ==>
                    Tried(outbox.history, |start.trace|, items[j], d)
      {
        ghost var middle := outbox.history;
        FrameOf(start, middle);
        LongerLog(start, middle);
        FlushRunOne(items, i, orderedIds, attempts, n, gone);
        FlushLogOne(items, i, orderedIds, attempts, n, gone);
        ghost var all, acts := FlushLog(items, orderedIds, attempts, 0, {}),
            ItemLog(items[i].id, items[i].body, items[i].pending, orderedIds, attempts, n, gone);
        var one;
        one, n, gone := FlushItem(items[i], attempts, n, gone);
        AppendedNext(start.trace, all, middle.trace, acts,
                     if one.Failed? then [] else FlushLog(items[i + 1..], orderedIds, attempts, n, gone));
        OnlyDeliversChains(start, middle, outbox.history);
        FrameOf(middle, outbox.history);
        if one.Failed? {
          AppendedAll(start.trace, all, outbox.history.trace);
          return Failed;
        }
        forall j | i < j < |items| ensures Listed(outbox.history, items[j]) && Owing(outbox.history, items[j].id) {
          assert items[j].id != items[i].id;
          OthersStayOwing(middle, outbox.history, items[i].id, items[j].id);
          StaysListed(middle, outbox.history, items[i].id, items[j]);
        }
        forall j, d | 0 <= j <= i && d in items[j].pending && d in orderedIds
          ensures Tried(outbox.history, |start.trace|, items[j], d)
        {
          if j < i { TriedForGood(middle, outbox.history, |start.trace|, items[j], d); }
          else { TriedSooner(outbox.history, |start.trace|, |middle.trace|, items[j], d); }
        }
        if one.StillPending? {
          r := StillPending;
        }
      }
      assert items[|items|..] == [];
      FlushRunNone(orderedIds, attempts, n, gone);
      FlushLogNone(orderedIds, attempts, n, gone);
      AppendedAll(start.trace, FlushLog(items, orderedIds, attempts, 0, {}), outbox.history.trace);
      if r.Flushed? { NothingLeft(start, outbox.history); }
    }

    lemma AllListed(h: Store)
      requires Inv(h)
      ensures forall x :: x in h.dir ==> Listed(h, x) && Owing(h, x.id) && x.id !in h.lost
    {
      ListedFacts(h);
      forall x | x in h.dir ensures Listed(h, x) {
        RemainingMeans(h.puts[x.id].destinations, x.id, h.acked);
      }
      hide Remaining, Has, Honest;
    }

    lemma StaysListed(h: Store, h': Store, id: Id, other: Item)
      requires Listed(h, other) && other.id != id && h'.puts == h.puts && h'.evicted == h.evicted
      requires forall i, d :: (i, d) in h'.acked ==> (i, d) in h.acked || i == id
      ensures Listed(h', other)
    {
    }

    method Send(id: Id, body: seq<char>, f: PutFaults, listing: Listing, attempts: nat -> Attempt)
        returns (stored: bool, r: FlushResult)
      requires outbox.Valid() && Earned(outbox.history) && Configured(orderedIds) && outbox.Fresh(id)
      modifies outbox`dir, outbox`history
      ensures outbox.Valid() && Earned(outbox.history)
      ensures stored == PutResult(old(outbox.dir), outbox.limits, id, body, orderedIds, f).1 && (!stored ==> r.Failed?)
      ensures stored ==>
                r == if !listing.ok then Failed
                     else
                       var put := PutResult(old(outbox.dir), outbox.limits, id, body, orderedIds, f).0;
                       FlushRun(Readable(put, listing.moved), orderedIds, attempts, 0, {})
      ensures stored && r.Flushed? ==> outbox.dir == []
    {
      ghost var before := outbox.history;
      stored := outbox.Put(id, body, orderedIds, f);
      EarnedCarries(before, outbox.history);
      if !stored {
        return false, Failed;
      }
      r := Flush(listing, attempts);
    }

    /** A nil answer means the required sink accepted this very body during the call, or the file of the report was
        found unreadable during it, by this call or by another goroutine's listing. */
    method SendRequired(id: Id, body: seq<char>, required: Dest, f: PutFaults, flush: Listing, attempts: nat -> Attempt,
                        last: Listing)
      returns (r: SendResult)
      requires outbox.Valid() && Earned(outbox.history) && Configured(orderedIds) && outbox.Fresh(id)
      modifies outbox`dir, outbox`history
      ensures outbox.Valid() && Earned(outbox.history)
      ensures r.Sent? ==>
                && required in orderedIds
                && |old(outbox.history.trace)| <= |outbox.history.trace|
                && (Act.Sent(id, required, body, true) in outbox.history.trace[|old(outbox.history.trace)|..]
                    || id in outbox.history.lost)
      ensures r.NotConfigured? <==> required !in orderedIds
      ensures r.Sent? || r.RequiredPending? <==>
                && required in orderedIds && last.ok
                && PutResult(old(outbox.dir), outbox.limits, id, body, orderedIds, f).1
      ensures r.RequiredPending? ==> id !in flush.moved && id !in last.moved
      ensures (forall k :: !attempts(k).accepted) ==> outbox.history.acked == old(outbox.history.acked)
      ensures r.Sent? || r.RequiredPending? ==>
                (r.Sent? <==> (id, required) in outbox.history.acked || id in outbox.history.lost)
    {
      hide Inv, OnlyDelivers, Moved, PutResult, Earned;
      if required !in orderedIds {
        return NotConfigured;
      }
      ghost var before := outbox.history;
      var stored := outbox.Put(id, body, orderedIds, f);
      EarnedCarries(before, outbox.history);
      if !stored {
        return NotStored;
      }
      ghost var put := outbox.history;
      PutLeaves(before, put, outbox.limits, id, body, orderedIds, f);
      var _ := Flush(flush, attempts);
      ghost var flushed := outbox.history;
      MoveMeans(flushed, last.moved);
      MovedLog(flushed, last.moved);
      var items := outbox.List(last);
      if items.None? {
        return NotListed;
      }
      Fates(put, flushed, outbox.history, id, required, flush, last);
      NewSends(put, outbox.history, id);
      var found := Find(items.value, id);
      if found.Some? && required in items.value[found.value].pending {
        r := RequiredPending;
      } else {
        r := SendResult.Sent;
      }
    }
  }

  /** The result so far joined with that of the rest. */
  function Join(r: FlushResult, rest: (FlushResult, set<Id>)): (FlushResult, set<Id>) {
    (Worse(r, rest.0), rest.1)
  }

  lemma DeliveryByLost(id: Id, dest: Dest, ids: seq<Dest>, a: Attempt, gone: set<Id>, lost: set<Id>)
    requires id in lost <==> id in gone
    ensures OneDelivery(id, dest, ids, a, gone) == OneDelivery(id, dest, ids, a, lost)
  {
  }

  lemma ItemRunNone(id: Id, ids: seq<Dest>, attempts: nat -> Attempt, n: nat, gone: set<Id>)
    ensures ItemRun(id, [], ids, attempts, n, gone) == (Flushed, gone)
  {
  }

  lemma ItemRunOne(id: Id, pending: seq<Dest>, k: nat, ids: seq<Dest>, attempts: nat -> Attempt, n: nat, gone: set<Id>)
    requires k < |pending|
    ensures var one := OneDelivery(id, pending[k], ids, attempts(n), gone);
            var gone1 := if attempts(n).cancelled then gone else gone + attempts(n).moved;
            ItemRun(id, pending[k..], ids, attempts, n, gone) ==
              if one.Failed? then (Failed, gone1)
              else Join(one, ItemRun(id, pending[k + 1..], ids, attempts, n + 1, gone1))
  {
    hide OneDelivery;
    assert pending[k..][1..] == pending[k + 1..];
  }

  /** The log is on its way from before to before + all: rest is still to be added. */
  ghost predicate Appended(before: seq<Act>, all: seq<Act>, log: seq<Act>, rest: seq<Act>) {
    log + rest == before + all
  }

  lemma AppendedNothing(before: seq<Act>, all: seq<Act>)
    ensures Appended(before, all, before, all)
  {
  }

  lemma AppendedNext(before: seq<Act>, all: seq<Act>, log: seq<Act>, next: seq<Act>, rest: seq<Act>)
    requires Appended(before, all, log, next + rest)
    ensures Appended(before, all, log + next, rest)
  {
    assert log + (next + rest) == (log + next) + rest;
  }

  lemma AppendedAll(before: seq<Act>, all: seq<Act>, log: seq<Act>)
    requires Appended(before, all, log, [])
    ensures log == before + all
  {
    assert log + [] == log;
  }

  lemma ItemLogNone(id: Id, body: seq<char>, ids: seq<Dest>, attempts: nat -> Attempt, n: nat, gone: set<Id>)
    ensures ItemLog(id, body, [], ids, attempts, n, gone) == []
  {
  }

  lemma LogByLost(id: Id, body: seq<char>, dest: Dest, ids: seq<Dest>, a: Attempt, gone: set<Id>, lost: set<Id>)
    requires id in lost <==> id in gone
    ensures DeliveryLog(id, body, dest, ids, a, gone) == DeliveryLog(id, body, dest, ids, a, lost)
  {
  }

  lemma ItemLogOne(id: Id, body: seq<char>, pending: seq<Dest>, k: nat, ids: seq<Dest>, attempts: nat -> Attempt,
                   n: nat, gone: set<Id>)
    requires k < |pending|
    ensures var one := OneDelivery(id, pending[k], ids, attempts(n), gone);
            ItemLog(id, body, pending[k..], ids, attempts, n, gone) ==
              DeliveryLog(id, body, pending[k], ids, attempts(n), gone)
              + (if one.Failed? then []
                 else ItemLog(id, body, pending[k + 1..], ids, attempts, n + 1, gone + attempts(n).moved))
    ensures attempts(n).cancelled ==> OneDelivery(id, pending[k], ids, attempts(n), gone).Failed?
  {
    hide DeliveryLog;
    assert pending[k..][1..] == pending[k + 1..];
  }

  lemma FlushLogNone(ids: seq<Dest>, attempts: nat -> Attempt, n: nat, gone: set<Id>)
    ensures FlushLog([], ids, attempts, n, gone) == []
  {
  }

  lemma FlushLogOne(items: seq<Item>, i: nat, ids: seq<Dest>, attempts: nat -> Attempt, n: nat, gone: set<Id>)
    requires i < |items|
    ensures var item := items[i];
            var (one, gone1) := ItemRun(item.id, item.pending, ids, attempts, n, gone);
            FlushLog(items[i..], ids, attempts, n, gone) ==
              ItemLog(item.id, item.body, item.pending, ids, attempts, n, gone)
              + (if one.Failed? then [] else FlushLog(items[i + 1..], ids, attempts, n + |item.pending|, gone1))
  {
    hide ItemRun, ItemLog;
    assert items[i..][1..] == items[i + 1..];
  }

  lemma FlushRunNone(ids: seq<Dest>, attempts: nat -> Attempt, n: nat, gone: set<Id>)
    ensures FlushRun([], ids, attempts, n, gone) == Flushed
  {
  }

  lemma FlushRunOne(items: seq<Item>, i: nat, ids: seq<Dest>, attempts: nat -> Attempt, n: nat, gone: set<Id>)
    requires i < |items|
    ensures var (one, gone1) := ItemRun(items[i].id, items[i].pending, ids, attempts, n, gone);
            FlushRun(items[i..], ids, attempts, n, gone) ==
              if one.Failed? then Failed
              else Worse(one, FlushRun(items[i + 1..], ids, attempts, n + |items[i].pending|, gone1))
  {
    hide ItemRun;
    assert items[i..][1..] == items[i + 1..];
  }

  /** Which files are gone stays known through one delivery. */
  lemma StillTracked(h: Store, h': Store, item: Item, dest: Dest, a: Attempt, gone: set<Id>, gone': set<Id>)
    requires Inv(h) && h'.puts == h.puts && h'.evicted == h.evicted && h.acked <= h'.acked
    requires h'.lost == (if a.cancelled then h else Moved(h, a.moved)).lost
    requires h'.acked <= h.acked + {(item.id, dest)} && gone' == if a.cancelled then gone else gone + a.moved
    ensures forall id :: Owing(h, id) && (id in h.lost <==> id in gone) ==> (id in h'.lost <==> id in gone')
    ensures forall id :: Owing(h, id) && id != item.id ==> Owing(h', id)
  {
    hide Owing, Moved, Inv;
    forall id | Owing(h, id) ensures id in Moved(h, a.moved).lost <==> id in h.lost || id in a.moved {
      MoveTracks(h, a.moved, id);
    }
    forall id | Owing(h, id) && id != item.id ensures Owing(h', id) {
      OthersStayOwing(h, h', item.id, id);
    }
  }

  /** A successful Put leaves the report stored, owed to every configured destination, and never yet sent. */
  lemma PutLeaves(before: Store, put: Store, l: Limits, id: Id, body: seq<char>, ids: seq<Dest>, f: PutFaults)
    requires Inv(before) && Inv(put) && id !in before.puts
    requires (put.dir, true) == PutResult(before.dir, l, id, body, ids, f)
    requires put.puts == (if body == [] || Unique(ids) == [] || f.write.NotDone? then before.puts
                          else before.puts[id := Report(body, Unique(ids))])
    requires put.trace == before.trace
    ensures put.puts == before.puts[id := Report(body, Unique(ids))] && id !in put.evicted && id !in put.lost
    ensures forall d :: d != "" && d in ids ==> d in put.puts[id].destinations
    ensures forall k :: 0 <= k < |put.trace| ==> put.trace[k].id != id
    ensures Has(put.dir, id)
  {
    NewToDirectory(before, Item(id, body, Unique(ids)));
    PutMeansKept(before.dir, l, id, body, ids, f);
    UniqueMeans(ids);
    HasMember(put.dir);
    hide PutResult, Unique, Remaining, Has;
  }

  /** The answer nil is then possible without a delivery: a report found unreadable leaves the listing and nothing is
      sent. */
  lemma UnreadableIsForgotten(h: Store, id: Id)
    requires Inv(h)
    ensures var h' := Moved(h, {id}); Find(h'.dir, id).None? && h'.trace == h.trace && h'.acked == h.acked
  {
    MovedKeepsInv(h, {id});
    MoveMeans(h, {id});
    ReadableMeans(h.dir, {id});
    FoundIsOwed(Moved(h, {id}), id);
    hide Readable, Find, Inv;
  }

  lemma NewSends(put: Store, end: Store, id: Id)
    requires |put.trace| <= |end.trace| && end.trace[..|put.trace|] == put.trace
    requires forall k :: 0 <= k < |put.trace| ==> put.trace[k].id != id
    ensures forall act :: act in end.trace && act.id == id ==> act in end.trace[|put.trace|..]
  {
    assert end.trace == put.trace + end.trace[|put.trace|..];
  }

  /** What can have become of a report between its Put and the last listing of SendRequired. */
  lemma Fates(put: Store, flushed: Store, end: Store, id: Id, required: Dest, flush: Listing, last: Listing)
    requires Inv(put) && Inv(flushed) && Inv(end) && Earned(end)
    requires id in put.puts && id !in put.evicted && id !in put.lost && required in put.puts[id].destinations
    requires OnlyDelivers(Moved(put, flush.moved), flushed) && end == Moved(flushed, last.moved) && Has(put.dir, id)
    ensures id in end.puts && end.puts[id] == put.puts[id]
    ensures |put.trace| <= |end.trace| && end.trace[..|put.trace|] == put.trace
    ensures var found := Find(end.dir, id);
            && (found.Some? ==> found.value < |end.dir|)
            && (found.Some? && required in end.dir[found.value].pending <==>
                  (id, required) !in end.acked && id !in end.lost)
    ensures (id, required) in end.acked ==> Act.Sent(id, required, put.puts[id].body, true) in end.trace
    ensures id in flush.moved || id in last.moved ==> id in end.lost || Find(end.dir, id).None?
  {
    MoveMeans(put, flush.moved);
    MoveMeans(flushed, last.moved);
    ReadableMeans(flushed.dir, last.moved);
    FoundIsOwed(end, id);
    assert id in flush.moved ==> id in Moved(put, flush.moved).lost;
    RemainingMeans(put.puts[id].destinations, id, end.acked);
    hide Remaining, Find, Readable, Owed, Accounted;
  }

  lemma FrameOf(before: Store, after: Store)
    requires OnlyDelivers(before, after)
    ensures after.puts == before.puts && after.evicted == before.evicted && before.lost <= after.lost
            && before.acked <= after.acked
  {
  }

  lemma LongerLog(before: Store, after: Store)
    requires OnlyDelivers(before, after)
    ensures |before.trace| <= |after.trace|
  {
  }

  lemma MovedFrame(h: Store, moved: set<Id>)
    ensures Moved(h, moved).trace == h.trace && Moved(h, moved).dir == Readable(h.dir, moved)
  {
  }

  lemma TriedSooner(h: Store, since: nat, later: nat, item: Item, dest: Dest)
    requires since <= later && Tried(h, later, item, dest)
    ensures Tried(h, since, item, dest)
  {
    var accepted :| Act.Sent(item.id, dest, item.body, accepted) in h.trace[later..];
    assert h.trace[since..][later - since..] == h.trace[later..];
  }

  /** What a listing tells about its items. */
  lemma ListedFacts(h: Store)
    requires Inv(h)
    ensures forall x :: x in h.dir ==> x.id in h.puts && x.body == h.puts[x.id].body && Distinct(x.pending)
    ensures forall x, d :: x in h.dir && d in x.pending ==> (x.id, d) !in h.acked
    ensures forall i, j :: 0 <= i < j < |h.dir| ==> h.dir[i].id != h.dir[j].id
  {
    forall x | x in h.dir ensures Distinct(x.pending) && forall d :: d in x.pending ==> (x.id, d) !in h.acked {
      RemainingMeans(h.puts[x.id].destinations, x.id, h.acked);
    }
    hide Remaining, Has;
  }

  lemma NothingLeft(start: Store, end: Store)
    requires Inv(start) && Inv(end) && OnlyDelivers(start, end)
    requires forall j, d :: 0 <= j < |start.dir| && d in start.dir[j].pending ==> (start.dir[j].id, d) in end.acked
    ensures end.dir == []
  {
    if end.dir != [] {
      var x := end.dir[0];
      assert x in end.dir && Has(start.dir, x.id);
      var j :| 0 <= j < |start.dir| && start.dir[j].id == x.id;
      assert start.dir[j] in start.dir;
      RemainingMeans(end.puts[x.id].destinations, x.id, end.acked);
      RemainingMeans(start.puts[x.id].destinations, x.id, start.acked);
      NoElements(x.pending);
    }
  }

  lemma NoElements(list: seq<Dest>)
    ensures list != [] ==> exists d :: d in list
  {
    if list != [] {
      assert list[0] in list;
    }
  }

  lemma MovedLog(h: Store, moved: set<Id>)
    ensures var h' := Moved(h, moved); h'.trace == h.trace && h'.puts == h.puts && h'.acked == h.acked
  {
  }

  lemma Unchanged(h: Store)
    ensures OnlyDelivers(h, h)
  {
    HasMember(h.dir);
  }

  lemma AckedPair(h: Store, k: nat, dest: Dest)
    requires k < |h.dir|
    ensures AckAt(h, k, dest).acked == h.acked + {(h.dir[k].id, dest)} && AckAt(h, k, dest).lost == h.lost
    ensures AckAt(h, k, dest).trace == h.trace + [Acked(h.dir[k].id, dest)]
  {
  }

  // ---------- nil without a delivery ----------

  lemma OneDestination(dest: Dest)
    requires dest != ""
    ensures Unique([dest]) == [dest] && Lengths([dest]) == |dest|
  {
    assert [dest][..0] == [] && Unique([dest][..0]) == [];
    assert [dest][1..] == [] && Lengths([dest][1..]) == 0;
  }

  lemma FirstPutFits(l: Limits, id: Id, body: seq<char>, dest: Dest)
    requires Positive(l) && body != [] && dest != "" && |body| + |dest| <= l.maxBytes
    ensures PutResult([], l, id, body, [dest], PutFaults(Done, Listing({}, true), 1, true)).1
  {
    OneDestination(dest);
    PutSucceedsIff([], l, id, body, [dest]);
    hide PutResult, Unique, Lengths;
  }

  /** The only sink refuses, the file is found unreadable at the last listing, and SendRequired answers nil. */
  method NilWithoutDelivery(l: Limits, id: Id, body: seq<char>) returns (box: DurableOutbox, r: SendResult)
    requires Positive(l) && body != [] && |body| + |"panel"| <= l.maxBytes
    ensures r.Sent? && box.history.acked == {}
  {
    hide PutResult, Inv;
    box := new DurableOutbox(l);
    var reporter := new Reporter(box, ["panel"]);
    FirstPutFits(l, id, body, "panel");
    r := reporter.SendRequired(id, body, "panel", PutFaults(Done, Listing({}, true), 1, true), Listing({}, true),
                               k => Attempt(false, {}, false, Done), Listing({id}, true));
  }
}
