/** The deduplicating refresh queue: any number of producers, one worker (internal/panel/geo/refresher.go:51-66 and
    176-213). */
module Refresher {

  type Ip = string

  const CAPACITY: nat := 128

  /** Where Run stands: at its select, holding an address it has not yet marked, before refreshOne, inside it, or
      returned. */
  datatype Worker = Waiting | Received(ip: Ip) | Marked(ip: Ip) | Refreshing(ip: Ip) | Stopped

  datatype State = State(queue: seq<Ip>, pending: set<Ip>, processing: set<Ip>, dirty: set<Ip>, worker: Worker)

  /** Each critical section is one event; Work is the worker's next step, whatever it is. */
  datatype Event = Enqueue(ip: Ip) | Work | Stop

  const START: State := State([], {}, {}, {}, Waiting)

  function Enqueued(s: State, ip: Ip): State {
    if ip in s.pending then (if ip in s.processing then s.(dirty := s.dirty + {ip}) else s)
    else if |s.queue| < CAPACITY then s.(pending := s.pending + {ip}, queue := s.queue + [ip])
    else s
  }

  function Finished(s: State, ip: Ip): State {
    var s1 := s.(processing := s.processing - {ip}, worker := Waiting);
    if ip !in s.dirty then s1.(pending := s.pending - {ip})
    else if |s.queue| < CAPACITY then s1.(dirty := s.dirty - {ip}, queue := s.queue + [ip])
    else s1.(dirty := s.dirty - {ip}, pending := s.pending - {ip})
  }

  function Worked(s: State): State {
    match s.worker
    case Waiting => if s.queue == [] then s else s.(queue := s.queue[1..], worker := Received(s.queue[0]))
    case Received(ip) => s.(processing := s.processing + {ip}, worker := Marked(ip))
    case Marked(ip) => s.(worker := Refreshing(ip))
    case Refreshing(ip) => Finished(s, ip)
    case Stopped => s
  }

  function Next(s: State, e: Event): State {
    match e
    case Enqueue(ip) => Enqueued(s, ip)
    case Work => Worked(s)
    case Stop => if s.worker.Waiting? then s.(worker := Stopped) else s
  }

  function After(s: State, events: seq<Event>): State
    decreases |events|
  {
    if events == [] then s else After(Next(s, events[0]), events[1..])
  }

  /** The event starts a refreshOne for ip. */
  predicate Serves(s: State, e: Event, ip: Ip) {
    e.Work? && s.worker == Marked(ip)
  }

  /** The event logs that a refresh of ip is deferred. */
  predicate Defers(s: State, e: Event, ip: Ip) {
    |s.queue| >= CAPACITY &&
    match e
    case Enqueue(x) => x == ip && ip !in s.pending
    case Work => s.worker == Refreshing(ip) && ip in s.dirty
    case Stop => false
  }

  // ---------- bookkeeping ----------

  function InFlight(w: Worker): set<Ip> {
    match w
    case Received(ip) => {ip}
    case Marked(ip) => {ip}
    case Refreshing(ip) => {ip}
    case _ => {}
  }

  function Elements(q: seq<Ip>): set<Ip> {
    set i | 0 <= i < |q| :: q[i]
  }

  ghost predicate Distinct(q: seq<Ip>) {
    forall i, j :: 0 <= i < j < |q| ==> q[i] != q[j]
  }

  ghost predicate Inv(s: State) {
    && s.pending == Elements(s.queue) + InFlight(s.worker)
    && Distinct(s.queue) && |s.queue| <= CAPACITY
    && Elements(s.queue) !! InFlight(s.worker)
    && s.processing == (if s.worker.Marked? || s.worker.Refreshing? then {s.worker.ip} else {})
    && s.dirty <= s.processing <= s.pending
  }

  lemma AppendElements(q: seq<Ip>, ip: Ip)
    requires ip !in Elements(q) && Distinct(q)
    ensures Elements(q + [ip]) == Elements(q) + {ip} && Distinct(q + [ip])
  {
    forall x ensures x in Elements(q + [ip]) <==> x in Elements(q) + {ip} {
      if x == ip { assert (q + [ip])[|q|] == ip; }
      if x in Elements(q) {
        var i :| 0 <= i < |q| && q[i] == x;
        assert (q + [ip])[i] == x;
      }
    }
  }

  lemma RemoveFirst(q: seq<Ip>)
    requires q != [] && Distinct(q)
    ensures Elements(q[1..]) == Elements(q) - {q[0]} && Distinct(q[1..])
  {
    forall x ensures x in Elements(q[1..]) <==> x in Elements(q) - {q[0]} {
      if x in Elements(q) && x != q[0] {
        var i :| 0 <= i < |q| && q[i] == x;
        assert q[1..][i - 1] == x;
      }
    }
  }

  /** The queue, the pending set and the worker agree, whatever the producers and the worker do next. */
  lemma NextKeepsInv(s: State, e: Event)
    requires Inv(s)
    ensures Inv(Next(s, e))
  {
    hide Elements, Distinct;
    match e
    case Enqueue(ip) => if ip !in s.pending { AppendElements(s.queue, ip); }
    case Work =>
      if s.worker.Waiting? && s.queue != [] {
        RemoveFirst(s.queue);
        HeadIsElement(s.queue);
      }
      if s.worker.Refreshing? && s.worker.ip in s.dirty { AppendElements(s.queue, s.worker.ip); }
    case Stop =>
  }

  lemma HeadIsElement(q: seq<Ip>)
    requires q != []
    ensures q[0] in Elements(q)
  {
  }

  lemma {:induction false} InvFrom(s: State, events: seq<Event>)
    requires Inv(s)
    ensures Inv(After(s, events))
    decreases |events|
  {
    hide Inv, Next;
    if events != [] {
      NextKeepsInv(s, events[0]);
      InvFrom(Next(s, events[0]), events[1..]);
    }
  }

  /** From an idle start, in every interleaving: pending is exactly what is queued or in the worker's hands, nothing
      is queued twice or while in hand, at most 128 wait, and dirty marks only what is being processed. */
  lemma PendingIsQueuedOrInFlight(events: seq<Event>)
    ensures var s := After(START, events);
            && s.pending == Elements(s.queue) + InFlight(s.worker) && Distinct(s.queue) && |s.queue| <= CAPACITY
            && Elements(s.queue) !! InFlight(s.worker) && s.dirty <= s.processing <= s.pending
  {
    InvFrom(START, events);
  }

  /** A refresh that is over and that nobody asked for again leaves the address free for the next enqueue to queue. */
  lemma DoneIsForgotten(s: State, ip: Ip)
    requires Inv(s) && s.worker == Refreshing(ip) && ip !in s.dirty && |s.queue| < CAPACITY
    ensures var done := Next(s, Work);
            && done.worker == Waiting && ip !in done.pending && ip !in done.queue
            && Next(done, Enqueue(ip)).queue == s.queue + [ip]
  {
    assert ip in s.queue ==> ip in Elements(s.queue);
  }

  // ---------- every accepted request is served ----------

  /** A refreshOne for ip is still to start. */
  predicate Scheduled(s: State, ip: Ip) {
    ip in s.queue || s.worker == Received(ip) || s.worker == Marked(ip) || (s.worker == Refreshing(ip) && ip in s.dirty)
  }

  function Position(q: seq<Ip>, ip: Ip): (i: nat)
    requires ip in q
    ensures i < |q| && q[i] == ip
  {
    if q[0] == ip then 0 else 1 + Position(q[1..], ip)
  }

  /** Worker steps until the address in hand is done with. */
  function Busy(w: Worker): nat {
    match w
    case Received(_) => 3
    case Marked(_) => 2
    case Refreshing(_) => 1
    case _ => 0
  }

  /** An upper bound on the worker steps before refreshOne starts for ip. */
  function Wait(s: State, ip: Ip): nat
    requires Scheduled(s, ip)
  {
    if s.worker == Marked(ip) then 1
    else if s.worker == Received(ip) then 2
    else if ip in s.queue then Busy(s.worker) + 4 * Position(s.queue, ip) + 3
    else 4 * CAPACITY
  }

  lemma {:induction false} PositionUnique(q: seq<Ip>, ip: Ip, i: nat)
    requires Distinct(q) && i < |q| && q[i] == ip
    ensures Position(q, ip) == i
  {
    if i > 0 {
      assert q[1..][i - 1] == ip;
      RemoveFirst(q);
      PositionUnique(q[1..], ip, i - 1);
    }
  }

  lemma PositionAfterAppend(q: seq<Ip>, more: Ip, ip: Ip)
    requires Distinct(q + [more]) && ip in q
    ensures Position(q + [more], ip) == Position(q, ip)
  {
    assert (q + [more])[Position(q, ip)] == ip;
    PositionUnique(q + [more], ip, Position(q, ip));
  }

  /** An enqueue that is not deferred leaves a refresh to come, even when the address is already pending: it is
      still queued, or in hand with refreshOne not yet started, or marked dirty and so rerun. */
  lemma EnqueueSchedules(s: State, ip: Ip)
    requires Inv(s) && !Defers(s, Enqueue(ip), ip)
    ensures Scheduled(Enqueued(s, ip), ip)
  {
    if ip in s.pending && ip !in InFlight(s.worker) {
      assert ip in Elements(s.queue);
    } else if ip !in s.pending {
      assert (s.queue + [ip])[|s.queue|] == ip;
    }
  }

  /** No event loses a scheduled refresh: it starts, or is deferred by a full queue, or stays scheduled; and every
      step of the worker brings it nearer while no producer can push it back. */
  lemma ScheduledAdvances(s: State, e: Event, ip: Ip)
    requires Inv(s) && Scheduled(s, ip) && !Serves(s, e, ip) && !Defers(s, e, ip)
    ensures Scheduled(Next(s, e), ip)
    ensures Wait(Next(s, e), ip) + (if e.Work? && !s.worker.Stopped? then 1 else 0) <= Wait(s, ip)
  {
    NextKeepsInv(s, e);
    if ip in s.queue { QueuedAdvances(s, e, ip); }
    else if s.worker == Refreshing(ip) && e.Work? { RequeueAdvances(s, ip); }
    else if s.worker == Received(ip) || s.worker == Marked(ip) || s.worker == Refreshing(ip) {
      InHandAdvances(s, e, ip);
    }
  }

  lemma QueuedAdvances(s: State, e: Event, ip: Ip)
    requires Inv(s) && Inv(Next(s, e)) && ip in s.queue
    ensures Scheduled(Next(s, e), ip)
    ensures Wait(Next(s, e), ip) + (if e.Work? && !s.worker.Stopped? then 1 else 0) <= Wait(s, ip)
  {
    QueuedIsNotInHand(s, ip);
    hide Inv, Elements;
    if s.worker.Waiting? && e.Work? {
      QueueMovesUp(s, ip);
    } else {
      QueueGrows(s, e, ip);
    }
  }

  lemma QueuedIsNotInHand(s: State, ip: Ip)
    requires Inv(s) && ip in s.queue
    ensures ip !in InFlight(s.worker) && Distinct(s.queue)
  {
    assert ip in Elements(s.queue);
  }

  lemma QueueMovesUp(s: State, ip: Ip)
    requires Distinct(s.queue) && s.worker.Waiting? && ip in s.queue
    ensures Scheduled(Worked(s), ip) && Wait(Worked(s), ip) + 1 <= Wait(s, ip)
  {
    if s.queue[0] != ip {
      var p := Position(s.queue, ip);
      assert s.queue[1..][p - 1] == ip;
      RemoveFirst(s.queue);
      PositionUnique(s.queue[1..], ip, p - 1);
    } else {
      PositionUnique(s.queue, ip, 0);
      NotBehindItself(s.queue);
    }
  }

  lemma NotBehindItself(q: seq<Ip>)
    requires Distinct(q) && q != []
    ensures q[0] !in q[1..]
  {
  }

  lemma QueueGrows(s: State, e: Event, ip: Ip)
    requires ip in s.queue && ip !in InFlight(s.worker) && Distinct(Next(s, e).queue) && !(s.worker.Waiting? && e.Work?)
    ensures Scheduled(Next(s, e), ip)
    ensures Wait(Next(s, e), ip) + (if e.Work? && !s.worker.Stopped? then 1 else 0) <= Wait(s, ip)
  {
    hide Distinct;
    var s' := Next(s, e);
    if s'.queue != s.queue {
      assert s'.queue == s.queue + [s'.queue[|s.queue|]];
      PositionAfterAppend(s.queue, s'.queue[|s.queue|], ip);
    }
    hide Position;
  }

  lemma RequeueAdvances(s: State, ip: Ip)
    requires Inv(s) && s.worker == Refreshing(ip) && ip in s.dirty && |s.queue| < CAPACITY && ip !in s.queue
    requires Inv(Worked(s))
    ensures Scheduled(Worked(s), ip) && Wait(Worked(s), ip) + 1 <= Wait(s, ip)
  {
    assert (s.queue + [ip])[|s.queue|] == ip;
    PositionUnique(s.queue + [ip], ip, |s.queue|);
  }

  lemma InHandAdvances(s: State, e: Event, ip: Ip)
    requires Inv(s) && Inv(Next(s, e)) && Scheduled(s, ip) && ip !in s.queue && ip in InFlight(s.worker)
    requires !Serves(s, e, ip) && !(s.worker.Refreshing? && e.Work?)
    ensures Scheduled(Next(s, e), ip)
    ensures Wait(Next(s, e), ip) + (if e.Work? && !s.worker.Stopped? then 1 else 0) <= Wait(s, ip)
  {
    var s' := Next(s, e);
    if ip in s'.queue { assert ip in Elements(s'.queue); assert ip !in InFlight(s'.worker); }
  }

  ghost predicate ServedOrDeferred(s: State, events: seq<Event>, ip: Ip)
    decreases |events|
  {
    events != [] &&
    (Serves(s, events[0], ip) || Defers(s, events[0], ip) || ServedOrDeferred(Next(s, events[0]), events[1..], ip))
  }

  function Works(events: seq<Event>): nat {
    if events == [] then 0 else (if events[0].Work? then 1 else 0) + Works(events[1..])
  }

  /** In any interleaving, once the worker has taken Wait steps the refresh has started, unless it was deferred. */
  lemma {:induction false} ServedWithin(s: State, ip: Ip, events: seq<Event>)
    requires Inv(s) && Scheduled(s, ip) && !s.worker.Stopped? && Stop !in events
    requires Works(events) >= Wait(s, ip)
    ensures ServedOrDeferred(s, events, ip)
    decreases |events|
  {
    hide Inv, Wait, Next, Serves, Defers, Scheduled;
    WaitIsPositive(s, ip);
    var e := events[0];
    if !Serves(s, e, ip) && !Defers(s, e, ip) {
      ScheduledAdvances(s, e, ip);
      NextKeepsInv(s, e);
      OnlyStopStops(s, e);
      ServedWithin(Next(s, e), ip, events[1..]);
    }
  }

  lemma WaitIsPositive(s: State, ip: Ip)
    requires Inv(s) && Scheduled(s, ip)
    ensures 0 < Wait(s, ip) <= 4 * CAPACITY + 3
  {
  }

  lemma OnlyStopStops(s: State, e: Event)
    requires !s.worker.Stopped? && !e.Stop?
    ensures !Next(s, e).worker.Stopped?
  {
  }

  /** Each enqueue in each interleaving is followed, within 515 worker steps, by a refreshOne that starts after it,
      unless a full queue defers that address. */
  lemma EveryEnqueueIsServed(before: seq<Event>, ip: Ip, after: seq<Event>)
    requires Stop !in before && Stop !in after && Works(after) >= 4 * CAPACITY + 3
    ensures ServedOrDeferred(After(START, before), [Enqueue(ip)] + after, ip)
  {
    var s := After(START, before);
    InvFrom(START, before);
    NeverStopped(START, before);
    assert ([Enqueue(ip)] + after)[1..] == after;
    if !Defers(s, Enqueue(ip), ip) {
      EnqueueSchedules(s, ip);
      NextKeepsInv(s, Enqueue(ip));
      WaitIsPositive(Enqueued(s, ip), ip);
      ServedWithin(Enqueued(s, ip), ip, after);
    }
  }

  lemma {:induction false} NeverStopped(s: State, events: seq<Event>)
    requires !s.worker.Stopped? && Stop !in events
    ensures !After(s, events).worker.Stopped?
    decreases |events|
  {
    hide Next;
    if events != [] {
      OnlyStopStops(s, events[0]);
      NeverStopped(Next(s, events[0]), events[1..]);
    }
  }

  // ---------- the refresher itself ----------

  class GeoRefresher {
    var queue: seq<Ip>
    var pending: set<Ip>
    var processing: set<Ip>
    var dirty: set<Ip>
    ghost var worker: Worker

    ghost function View(): State
      reads this
    {
      State(queue, pending, processing, dirty, worker)
    }

    constructor ()
      ensures View() == START && Inv(View())
    {
      queue, pending, processing, dirty, worker := [], {}, {}, {}, Waiting;
    }

    method Enqueue(ip: Ip) returns (deferred: bool)
      requires Inv(View())
      modifies this`queue, this`pending, this`dirty
      ensures View() == Next(old(View()), Event.Enqueue(ip)) && Inv(View())
      ensures deferred <==> Defers(old(View()), Event.Enqueue(ip), ip)
      ensures !deferred ==> Scheduled(View(), ip)
      ensures deferred <==> ip !in old(pending) && |old(queue)| >= 128
      ensures if ip in old(pending) || deferred then queue == old(queue) && pending == old(pending)
              else queue == old(queue) + [ip] && pending == old(pending) + {ip}
      ensures dirty == if ip in old(pending) && ip in processing then old(dirty) + {ip} else old(dirty)
    {
      NextKeepsInv(View(), Event.Enqueue(ip));
      ghost var s := View();
      if ip in pending {
        if ip in processing {
          dirty := dirty + {ip};
        }
        deferred := false;
      } else {
        pending := pending + {ip};
        if |queue| < CAPACITY {
          queue := queue + [ip];
          deferred := false;
        } else {
          pending := pending - {ip};
          deferred := true;
        }
      }
      assert View() == Enqueued(s, ip);
      if !deferred { EnqueueSchedules(s, ip); }
    }

    /** The receive case of the worker's select. */
    method Receive() returns (ip: Ip)
      requires Inv(View()) && worker.Waiting? && queue != []
      modifies this`queue, this`worker
      ensures View() == Next(old(View()), Work) && Inv(View()) && worker == Received(ip)
      ensures old(queue) == [ip] + queue
    {
      NextKeepsInv(View(), Work);
      ip := queue[0];
      queue, worker := queue[1..], Received(ip);
    }

    method MarkProcessing(ip: Ip)
      requires Inv(View()) && worker == Received(ip)
      modifies this`processing, this`worker
      ensures View() == Next(old(View()), Work) && Inv(View()) && worker == Marked(ip)
      ensures processing == old(processing) + {ip}
    {
      NextKeepsInv(View(), Work);
      processing, worker := processing + {ip}, Marked(ip);
    }

    method FinishProcessing(ip: Ip) returns (deferred: bool)
      requires Inv(View()) && worker == Refreshing(ip)
      modifies this`queue, this`pending, this`processing, this`dirty, this`worker
      ensures View() == Next(old(View()), Work) && Inv(View()) && worker.Waiting?
      ensures deferred <==> Defers(old(View()), Work, ip)
      ensures deferred <==> ip in old(dirty) && |old(queue)| >= 128
      ensures processing == old(processing) - {ip} && dirty == old(dirty) - {ip}
      ensures queue == if ip in old(dirty) && !deferred then old(queue) + [ip] else old(queue)
      ensures pending == if ip in old(dirty) && !deferred then old(pending) else old(pending) - {ip}
    {
      NextKeepsInv(View(), Work);
      worker, deferred := Waiting, false;
      processing := processing - {ip};
      if ip !in dirty {
        pending := pending - {ip};
        return;
      }
      dirty := dirty - {ip};
      if |queue| < CAPACITY {
        queue := queue + [ip];
      } else {
        pending := pending - {ip};
        deferred := true;
      }
    }
  }
}
