/** The coalescing collection scheduler: a one-slot trigger, a waiter list and the loop
    (internal/agent/scheduler.go:44-171). */
module Scheduler {
  import opened Wrappers

  type Id = nat

  /** Where a call of Request stands: past the stop check, listed, past Trigger's stop check, in its final select,
      gone after its context ended, or refused at once. at counts the collections started when it was listed. */
  datatype Stage = Entering | Listed | Armed | Waiting | Left | Refused

  datatype Caller = Caller(stage: Stage, at: nat)

  /** An answer to a waiter: the outcome of the n-th collection, or Canceled. */
  datatype Reply = Reply(id: Id, run: Option<nat>)

  /** Where Run stands. AtTake is pending == true; Failing is the deferred failWaiters before it takes the list. */
  datatype Loop =
    | AtTake
    | Taken(held: seq<Id>)
    | Collecting(held: seq<Id>)
    | Replying(held: seq<Id>)
    | AfterRun
    | Probing
    | Selecting
    | Failing
    | Cancelling(held: seq<Id>)
    | Exited

  datatype State = State(
    token: bool, stop: bool, waiters: seq<Id>, callers: map<Id, Caller>, loop: Loop, started: nat, replies: seq<Reply>)

  datatype Choice = Onward | ByTimer | ByToken | ByStop | ByContext

  datatype Event =
    | Enter(id: Id)
    | Register(id: Id)
    | TriggerCheck(id: Id)
    | TriggerPut(id: Id)
    | Leave(id: Id)
    | Poke
    | StopCall
    | Step(choice: Choice)

  const START: State := State(false, false, [], map[], AtTake, 0, [])

  predicate At(s: State, id: Id, stage: Stage) {
    id in s.callers && s.callers[id].stage == stage
  }

  function Moved(s: State, id: Id, stage: Stage): State
    requires id in s.callers
  {
    s.(callers := s.callers[id := s.callers[id].(stage := stage)])
  }

  function Without(list: seq<Id>, id: Id): seq<Id> {
    if list == [] then [] else if list[0] == id then list[1..] else [list[0]] + Without(list[1..], id)
  }

  function Held(loop: Loop): seq<Id> {
    match loop
    case Taken(held) => held
    case Collecting(held) => held
    case Replying(held) => held
    case Cancelling(held) => held
    case _ => []
  }

  /** The choices the loop has at this point. */
  predicate Enabled(s: State, c: Choice) {
    match s.loop
    case AfterRun => c == Onward || c == ByContext
    case Selecting => c == ByTimer || c == ByContext || (c == ByToken && s.token) || (c == ByStop && s.stop)
    case Exited => false
    case _ => c == Onward
  }

  function Stepped(s: State, c: Choice): State
    requires Enabled(s, c)
  {
    match s.loop
    case AtTake => s.(waiters := [], loop := Taken(s.waiters))
    case Taken(held) => s.(started := s.started + 1, loop := Collecting(held))
    case Collecting(held) => s.(loop := Replying(held))
    case Replying(held) =>
      if held == [] then s.(loop := AfterRun)
      else s.(replies := s.replies + [Reply(held[0], Some(s.started))], loop := Replying(held[1..]))
    case AfterRun => if c.ByContext? || s.stop then s.(loop := Failing) else s.(loop := Probing)
    case Probing => if s.token then s.(token := false, loop := AtTake) else s.(loop := Selecting)
    case Selecting =>
      (match c
       case ByToken => s.(token := false, loop := AtTake)
       case ByTimer => s.(loop := AtTake)
       case _ => s.(loop := Failing))
    case Failing => s.(waiters := [], loop := Cancelling(s.waiters))
    case Cancelling(held) =>
      if held == [] then s.(loop := Exited)
      else s.(replies := s.replies + [Reply(held[0], None)], loop := Cancelling(held[1..]))
  }

  function Next(s: State, e: Event): State {
    match e
    case Enter(id) =>
      if id in s.callers then s
      else s.(callers := s.callers[id := Caller(if s.stop then Refused else Entering, 0)])
    case Register(id) =>
      if At(s, id, Entering) then s.(waiters := s.waiters + [id], callers := s.callers[id := Caller(Listed, s.started)])
      else s
    case TriggerCheck(id) => if At(s, id, Listed) then Moved(s, id, if s.stop then Waiting else Armed) else s
    case TriggerPut(id) => if At(s, id, Armed) then Moved(s, id, Waiting).(token := true) else s
    case Leave(id) => if At(s, id, Waiting) then Moved(s, id, Left).(waiters := Without(s.waiters, id)) else s
    case Poke => s.(token := true)
    case StopCall => s.(stop := true)
    case Step(c) => if Enabled(s, c) then Stepped(s, c) else s
  }

  function After(s: State, events: seq<Event>): State
    decreases |events|
  {
    if events == [] then s else After(Next(s, events[0]), events[1..])
  }

  // ---------- invariant ----------

  /** Run has taken the waiter list for the last time. */
  predicate Over(s: State) {
    s.loop.Cancelling? || s.loop.Exited?
  }

  ghost predicate Distinct(list: seq<Id>) {
    forall i, j :: 0 <= i < j < |list| ==> list[i] != list[j]
  }

  ghost predicate Replied(s: State, id: Id) {
    exists k :: 0 <= k < |s.replies| && s.replies[k].id == id
  }

  /** No waiter is listed twice, or in two places. */
  ghost predicate OnePlace(s: State) {
    && Distinct(s.waiters) && Distinct(Held(s.loop))
    && (forall id :: id in s.waiters ==> id !in Held(s.loop) && !Replied(s, id))
    && (forall id :: id in Held(s.loop) ==> !Replied(s, id))
    && (forall i, j :: 0 <= i < j < |s.replies| ==> s.replies[i].id != s.replies[j].id)
  }

  predicate Registered(s: State, id: Id) {
    id in s.callers && s.callers[id].stage != Entering && s.callers[id].stage != Refused
  }

  ghost predicate ListedInOrder(s: State) {
    forall id :: id in s.waiters ==> Registered(s, id) && s.callers[id].at <= s.started && s.callers[id].stage != Left
  }

  ghost predicate HeldInOrder(s: State) {
    forall id :: id in Held(s.loop) ==>
      Registered(s, id) && s.callers[id].at <= s.started
          && (s.loop.Collecting? || s.loop.Replying? ==> s.callers[id].at < s.started)
  }

  ghost predicate RepliesInOrder(s: State) {
    forall k :: 0 <= k < |s.replies| ==>
      Registered(s, s.replies[k].id)
      && (s.replies[k].run.Some? ==> s.callers[s.replies[k].id].at < s.replies[k].run.value <= s.started)
  }

  /** Who is listed, held or answered was listed before the collection that answers it started. */
  ghost predicate Ordered(s: State) {
    ListedInOrder(s) && HeldInOrder(s) && RepliesInOrder(s)
  }

  /** A listed waiter whose Trigger has completed is not forgotten. */
  ghost predicate NoLostWaiter(s: State) {
    !Over(s) && !s.stop && !s.token && !s.loop.AtTake? ==> forall id :: id in s.waiters ==> !At(s, id, Waiting)
  }

  ghost predicate Inv(s: State) {
    OnePlace(s) && Ordered(s) && NoLostWaiter(s)
  }

  lemma {:induction false} WithoutMeans(list: seq<Id>, id: Id)
    requires Distinct(list)
    ensures Distinct(Without(list, id))
    ensures forall x :: x in Without(list, id) <==> x in list && x != id
  {
    if list != [] {
      WithoutMeans(list[1..], id);
      assert list == [list[0]] + list[1..];
      assert list[0] !in list[1..];
      if list[0] != id {
        var rest := Without(list[1..], id);
        assert forall k :: 0 <= k < |rest| ==> rest[k] in rest;
      }
    }
  }

  /** Removal takes out the first occurrence and keeps everything else in its order ... */
  lemma {:induction false} WithoutSplits(front: seq<Id>, id: Id, back: seq<Id>)
    requires id !in front
    ensures Without(front + [id] + back, id) == front + back
    decreases |front|
  {
    hide Without;
    if front == [] {
      assert [] + [id] + back == [id] + back && ([id] + back)[1..] == back && [] + back == back;
      WithoutNext([id] + back, id);
    } else {
      var list := front + [id] + back;
      assert list[0] == front[0] && list[1..] == front[1..] + [id] + back;
      WithoutSplits(front[1..], id, back);
      WithoutNext(list, id);
      assert [front[0]] + (front[1..] + back) == front + back;
    }
  }

  /** ... and does nothing where there is none. */
  lemma {:induction false} WithoutNone(list: seq<Id>, id: Id)
    requires id !in list
    ensures Without(list, id) == list
    decreases |list|
  {
    if list != [] { WithoutNone(list[1..], id); }
  }

  lemma WithoutNext(list: seq<Id>, id: Id)
    requires list != []
    ensures Without(list, id) == if list[0] == id then list[1..] else [list[0]] + Without(list[1..], id)
  {
  }

  lemma RepliedAfter(s: State, s': State, id: Id, run: Option<nat>)
    requires s'.replies == s.replies + [Reply(id, run)]
    ensures forall x :: Replied(s', x) <==> Replied(s, x) || x == id
  {
    forall x ensures Replied(s', x) <==> Replied(s, x) || x == id {
      if Replied(s, x) {
        var k :| 0 <= k < |s.replies| && s.replies[k].id == x;
        assert s'.replies[k].id == x;
      }
      if x == id { assert s'.replies[|s.replies|].id == x; }
    }
  }

  lemma ReplyKeepsPlaces(s: State, c: Choice)
    requires OnePlace(s) && Enabled(s, c) && (s.loop.Replying? || s.loop.Cancelling?) && s.loop.held != []
    ensures OnePlace(Stepped(s, c))
  {
    var s', held := Stepped(s, c), s.loop.held;
    RepliedAfter(s, s', held[0], s'.replies[|s.replies|].run);
    hide Replied;
    assert held == [held[0]] + held[1..] && held[0] !in held[1..];
    forall i, j | 0 <= i < j < |s'.replies| ensures s'.replies[i].id != s'.replies[j].id {
      if j == |s.replies| { IsReplied(s, i); }
    }
  }

  lemma IsReplied(s: State, i: nat)
    requires i < |s.replies|
    ensures Replied(s, s.replies[i].id)
  {
  }

  lemma LoopKeepsPlaces(s: State, c: Choice)
    requires OnePlace(s) && Enabled(s, c)
    ensures OnePlace(Stepped(s, c))
  {
    if (s.loop.Replying? || s.loop.Cancelling?) && s.loop.held != [] {
      ReplyKeepsPlaces(s, c);
    } else {
      hide Replied;
      OnlyRepliesReply(s, c);
      SameReplies(s, Stepped(s, c));
    }
  }

  lemma OnlyRepliesReply(s: State, c: Choice)
    requires Enabled(s, c) && !((s.loop.Replying? || s.loop.Cancelling?) && s.loop.held != [])
    ensures Stepped(s, c).replies == s.replies
    ensures (Stepped(s, c).waiters == s.waiters && Held(Stepped(s, c).loop) == Held(s.loop))
            || (Stepped(s, c).waiters == [] && Held(Stepped(s, c).loop) == s.waiters)
  {
  }

  lemma LoopKeepsOrder(s: State, c: Choice)
    requires Ordered(s) && Enabled(s, c)
    ensures Ordered(Stepped(s, c))
  {
    LoopKeepsReplyOrder(s, c);
    LoopKeepsHeldOrder(s, c);
    assert ListedInOrder(Stepped(s, c)) by { hide HeldInOrder, RepliesInOrder; }
  }

  lemma LoopKeepsReplyOrder(s: State, c: Choice)
    requires HeldInOrder(s) && RepliesInOrder(s) && Enabled(s, c)
    ensures RepliesInOrder(Stepped(s, c))
  {
    var s' := Stepped(s, c);
    assert s'.callers == s.callers && s.started <= s'.started;
    if (s.loop.Replying? || s.loop.Cancelling?) && s.loop.held != [] {
      assert s.loop.held[0] in Held(s.loop);
      assert s'.replies == s.replies + [s'.replies[|s.replies|]];
    } else {
      assert s'.replies == s.replies;
    }
  }

  lemma LoopKeepsHeldOrder(s: State, c: Choice)
    requires HeldInOrder(s) && ListedInOrder(s) && Enabled(s, c)
    ensures HeldInOrder(Stepped(s, c))
  {
    var s' := Stepped(s, c);
    if s.loop.AtTake? || s.loop.Failing? {
      assert Held(s'.loop) == s.waiters;
    } else {
      assert forall id :: id in Held(s'.loop) ==> id in Held(s.loop);
    }
  }

  lemma LoopKeepsWaiters(s: State, c: Choice)
    requires NoLostWaiter(s) && Enabled(s, c)
    ensures NoLostWaiter(Stepped(s, c))
  {
  }

  lemma SameReplies(s: State, s': State)
    requires s'.replies == s.replies
    ensures forall id :: Replied(s', id) <==> Replied(s, id)
  {
  }

  lemma CallerKeepsPlaces(s: State, e: Event)
    requires OnePlace(s) && Ordered(s) && !e.Step?
    ensures OnePlace(Next(s, e))
  {
    hide Replied, Without, Ordered;
    SameLog(s, e);
    SameReplies(s, Next(s, e));
    WithoutFrom(s, e);
    if e.Register? && At(s, e.id, Entering) { NotPlaced(s, e.id); }
  }

  lemma SameLog(s: State, e: Event)
    requires !e.Step?
    ensures Next(s, e).replies == s.replies && Next(s, e).loop == s.loop
  {
    hide Without;
  }

  /** Registration is for good, and its time is never changed. */
  lemma CallersGrow(s: State, e: Event)
    requires !e.Step?
    ensures forall id :: Registered(s, id) ==>
              Registered(Next(s, e), id) && Next(s, e).callers[id].at == s.callers[id].at
    ensures Next(s, e).loop == s.loop && Next(s, e).started == s.started && Next(s, e).replies == s.replies
  {
    hide Without;
  }

  lemma ListKeepsOrder(s: State, e: Event)
    requires Distinct(s.waiters) && ListedInOrder(s) && !e.Step?
    ensures ListedInOrder(Next(s, e))
  {
    WithoutFrom(s, e);
    hide Without, Distinct;
  }

  lemma CallerKeepsOrder(s: State, e: Event)
    requires Distinct(s.waiters) && Ordered(s) && !e.Step?
    ensures Ordered(Next(s, e))
  {
    ListKeepsOrder(s, e);
    CallersGrow(s, e);
    hide Next, Registered, Distinct, ListedInOrder;
  }

  lemma CallerKeepsWaiters(s: State, e: Event)
    requires Distinct(s.waiters) && NoLostWaiter(s) && !e.Step?
    ensures NoLostWaiter(Next(s, e))
  {
    WithoutFrom(s, e);
    hide Without, Distinct;
  }

  lemma WithoutFrom(s: State, e: Event)
    requires Distinct(s.waiters)
    ensures e.Leave? ==>
              && Distinct(Without(s.waiters, e.id))
              && forall x :: x in Without(s.waiters, e.id) <==> x in s.waiters && x != e.id
  {
    if e.Leave? { WithoutMeans(s.waiters, e.id); }
  }

  lemma NotPlaced(s: State, id: Id)
    requires Ordered(s) && At(s, id, Entering)
    ensures id !in s.waiters && id !in Held(s.loop) && !Replied(s, id)
  {
  }

  lemma NextKeepsInv(s: State, e: Event)
    requires Inv(s)
    ensures Inv(Next(s, e))
  {
    if e.Step? {
      if Enabled(s, e.choice) {
        LoopKeepsPlaces(s, e.choice);
        LoopKeepsOrder(s, e.choice);
        LoopKeepsWaiters(s, e.choice);
      }
    } else {
      CallerKeepsPlaces(s, e);
      CallerKeepsOrder(s, e);
      CallerKeepsWaiters(s, e);
    }
    hide Ordered, OnePlace, NoLostWaiter;
  }

  lemma {:induction false} InvFrom(s: State, events: seq<Event>)
    requires Inv(s)
    ensures Inv(After(s, events))
    decreases |events|
  {
    hide Inv, Next;
    if events != [] {
      NextKeepsInv(s, events[0]);
      InvFrom(Next(s, events[0]), events[1..]);
    }
  }

  /** In every interleaving: each waiter is answered at most once, never by a collection that started before it was
      listed, and while Run is live a listed waiter whose Trigger is over has a token, a pending run or a closed
      stop channel on its side. */
  lemma WaitersAreSafe(events: seq<Event>)
    ensures var s := After(START, events);
            && (forall i, j :: 0 <= i < j < |s.replies| ==> s.replies[i].id != s.replies[j].id)
            && (forall k :: 0 <= k < |s.replies| && s.replies[k].run.Some? ==>
                  s.replies[k].id in s.callers && s.callers[s.replies[k].id].at < s.replies[k].run.value <= s.started)
            && (forall id :: id in s.waiters && id in s.callers && s.callers[id].stage == Waiting && !Over(s) ==>
                  s.token || s.loop.AtTake? || s.stop)
  {
    InvFrom(START, events);
  }

  // ---------- every waiter listed in time is answered ----------

  predicate Covered(s: State, id: Id) {
    (id in s.waiters && !Over(s)) || id in Held(s.loop)
  }

  function Position(list: seq<Id>, id: Id): (i: nat)
    requires id in list
    ensures i < |list| && list[i] == id
  {
    if list[0] == id then 0 else 1 + Position(list[1..], id)
  }

  /** Steps of the loop, at most, before id is answered. */
  function Rank(s: State, id: Id): nat
    requires Covered(s, id)
  {
    if id in Held(s.loop) then
      Position(Held(s.loop), id) + (match s.loop case Taken(_) => 3 case Collecting(_) => 2 case _ => 1)
    else
      Position(s.waiters, id) +
      match s.loop
      case Failing => 2
      case AtTake => 4
      case Selecting => 5
      case Probing => 6
      case AfterRun => 7
      case Replying(held) => 8 + |held|
      case Collecting(held) => 9 + |held|
      case Taken(held) => 10 + |held|
      case _ => 0
  }

  lemma {:induction false} PositionWithout(list: seq<Id>, other: Id, id: Id)
    requires Distinct(list) && id in list && id != other
    ensures id in Without(list, other) && Position(Without(list, other), id) <= Position(list, id)
  {
    WithoutMeans(list, other);
    if list[0] == other {
      assert list == [other] + list[1..];
    } else if list[0] != id {
      PositionWithout(list[1..], other, id);
      assert Without(list, other)[1..] == Without(list[1..], other);
    }
  }

  lemma {:induction false} PositionAppend(list: seq<Id>, more: seq<Id>, id: Id)
    requires id in list
    ensures Position(list + more, id) == Position(list, id)
  {
    if list[0] != id {
      PositionAppend(list[1..], more, id);
      assert (list + more)[1..] == list[1..] + more;
    }
  }

  predicate Progresses(s: State, e: Event) {
    e.Step? && Enabled(s, e.choice)
  }

  lemma HeldAdvances(s: State, c: Choice, id: Id)
    requires Enabled(s, c) && id in Held(s.loop) && id !in s.waiters
    ensures Replied(Stepped(s, c), id) || (Covered(Stepped(s, c), id) && Rank(Stepped(s, c), id) < Rank(s, id))
  {
    var s' := Stepped(s, c);
    if (s.loop.Replying? || s.loop.Cancelling?) && s.loop.held[0] == id {
      assert s'.replies[|s.replies|].id == id;
    }
    hide Replied;
  }

  lemma ListedAdvances(s: State, c: Choice, id: Id)
    requires Enabled(s, c) && id in s.waiters && !Over(s) && id !in Held(s.loop)
    ensures Covered(Stepped(s, c), id) && Rank(Stepped(s, c), id) < Rank(s, id)
  {
    hide Position;
    var s' := Stepped(s, c);
    if s.loop.AtTake? || s.loop.Failing? {
      assert Held(s'.loop) == s.waiters;
    } else {
      assert s'.waiters == s.waiters && id !in Held(s'.loop);
    }
  }

  /** A step of the loop answers a covered waiter or brings its answer nearer. */
  lemma StepAdvances(s: State, c: Choice, id: Id)
    requires Inv(s) && Covered(s, id) && Enabled(s, c)
    ensures Replied(Stepped(s, c), id) || (Covered(Stepped(s, c), id) && Rank(Stepped(s, c), id) < Rank(s, id))
  {
    hide Ordered, NoLostWaiter, Replied, Stepped, Enabled, Rank, Distinct;
    if id in Held(s.loop) { HeldAdvances(s, c, id); } else { ListedAdvances(s, c, id); }
  }

  lemma OthersDoNotDelay(s: State, e: Event, id: Id)
    requires OnePlace(s) && Covered(s, id) && !e.Step? && e != Leave(id)
    ensures Covered(Next(s, e), id) && Rank(Next(s, e), id) <= Rank(s, id)
  {
    hide Without, Position, Distinct;
    if e.Leave? && id in s.waiters { PositionWithout(s.waiters, e.id, id); }
    if e.Register? && id in s.waiters { PositionAppend(s.waiters, [e.id], id); }
    assert Next(s, e).loop == s.loop;
    hide Next;
    assert Next(s, e).waiters == s.waiters || e.Leave? || e.Register?;
  }

  function Steps(s: State, events: seq<Event>): nat
    decreases |events|
  {
    if events == [] then 0 else (if Progresses(s, events[0]) then 1 else 0) + Steps(Next(s, events[0]), events[1..])
  }

  lemma {:induction false} RepliedForGood(s: State, id: Id, events: seq<Event>)
    requires Replied(s, id)
    ensures Replied(After(s, events), id)
    decreases |events|
  {
    if events != [] {
      var k :| 0 <= k < |s.replies| && s.replies[k].id == id;
      assert Next(s, events[0]).replies[k].id == id;
      RepliedForGood(Next(s, events[0]), id, events[1..]);
    }
  }

  /** A waiter that is listed before Run takes its list for the last time and does not leave is answered within a
      bounded number of steps of the loop, whatever the other callers do. */
  lemma {:induction false} AnsweredWithin(s: State, id: Id, events: seq<Event>)
    requires Inv(s) && Covered(s, id) && Leave(id) !in events && Steps(s, events) > Rank(s, id)
    ensures Replied(After(s, events), id)
    decreases |events|
  {
    hide Inv, Next, Covered, Rank, Replied;
    var e := events[0];
    var s' := Next(s, e);
    NextKeepsInv(s, e);
    OneEvent(s, e, id);
    if Replied(s', id) {
      RepliedForGood(s', id, events[1..]);
    } else {
      AnsweredWithin(s', id, events[1..]);
    }
  }

  lemma InvPlaces(s: State)
    requires Inv(s)
    ensures OnePlace(s)
  {
  }

  lemma OneEvent(s: State, e: Event, id: Id)
    requires Inv(s) && Covered(s, id) && e != Leave(id)
    ensures var s' := Next(s, e);
            Replied(s', id) || (Covered(s', id) && Rank(s', id) + (if Progresses(s, e) then 1 else 0) <= Rank(s, id))
  {
    hide Inv, Covered, Rank, Replied;
    if !e.Step? { assert OnePlace(s) by { InvPlaces(s); } OthersDoNotDelay(s, e, id); }
    else if Enabled(s, e.choice) { StepAdvances(s, e.choice, id); }
  }

  // ---------- and one listed too late never is ----------

  /** Not held, not answered, and too late to be taken. */
  ghost predicate Stranded(s: State, id: Id) {
    Over(s) && id in s.callers && id !in Held(s.loop) && !Replied(s, id)
  }

  lemma StrandedStep(s: State, id: Id, e: Event)
    requires Stranded(s, id)
    ensures Stranded(Next(s, e), id)
  {
    hide Without;
    var s' := Next(s, e);
    if s'.replies != s.replies {
      assert s.loop.held[0] in s.loop.held;
      RepliedAfter(s, s', s.loop.held[0], None);
    } else {
      SameReplies(s, s');
    }
    hide Replied;
  }

  lemma {:induction false} StrandedForGood(s: State, id: Id, events: seq<Event>)
    requires Stranded(s, id)
    ensures !Replied(After(s, events), id)
    decreases |events|
  {
    hide Next, Replied;
    if events != [] {
      StrandedStep(s, id, events[0]);
      StrandedForGood(Next(s, events[0]), id, events[1..]);
    }
  }

  /** Some choice is always open until Run returns. */
  function SomeChoice(s: State): Choice {
    if s.loop.Selecting? then ByTimer else Onward
  }

  lemma {:induction false} CanBeAnswered(s: State, id: Id) returns (events: seq<Event>)
    requires Inv(s) && Covered(s, id)
    ensures Leave(id) !in events && Replied(After(s, events), id)
    decreases Rank(s, id)
  {
    var c := SomeChoice(s);
    var s' := Next(s, Step(c));
    assert Enabled(s, c);
    hide Inv, Next, Rank, Replied, Covered, Stepped, Enabled;
    NextKeepsInv(s, Step(c));
    OneEvent(s, Step(c), id);
    var rest := [];
    if !Replied(s', id) {
      rest := CanBeAnswered(s', id);
    }
    events := [Step(c)] + rest;
    assert events[1..] == rest;
  }

  /** A listed waiter can still be answered if and only if Run has not yet taken its list for the last time. */
  lemma AnswerableIffNotOver(start: seq<Event>, id: Id)
    requires id in After(START, start).waiters
    ensures var s := After(START, start); !Over(s) <==>
              exists events :: Leave(id) !in events && Replied(After(s, events), id)
  {
    var s := After(START, start);
    InvFrom(START, start);
    hide After;
    if Over(s) {
      forall events ensures !Replied(After(s, events), id) { StrandedForGood(s, id, events); }
    } else {
      var events := CanBeAnswered(s, id);
    }
  }

  /** The window: a Request that passed the stop check before Stop lists itself after Run is gone, and nothing answers
      it. */
  lemma StopWindow(id: Id, more: seq<Event>)
    ensures var s := Next(Onwards(Next(Next(START, Enter(id)), StopCall), 7), Register(id));
            s.waiters == [id] && s.loop.Exited? && !Replied(After(s, more), id)
  {
    var entered := Next(Next(START, Enter(id)), StopCall);
    var s1 := Next(entered, Step(Onward));
    var s2 := Next(s1, Step(Onward));
    var s3 := Next(s2, Step(Onward));
    var s4 := Next(s3, Step(Onward));
    var s5 := Next(s4, Step(Onward));
    var s6 := Next(s5, Step(Onward));
    var s7 := Next(s6, Step(Onward));
    RunsOut(entered);
    assert Onwards(entered, 7) == s7 by {
      hide Next;
      assert Onwards(s4, 3) == Onwards(s5, 2) == Onwards(s6, 1) == Onwards(s7, 0);
      assert Onwards(entered, 7) == Onwards(s1, 6) == Onwards(s2, 5) == Onwards(s3, 4);
    }
    var last := Next(s7, Register(id));
    assert Stranded(last, id) && last.waiters == [id] && last.loop.Exited?;
    hide Next, After, Stranded;
    StrandedForGood(last, id, more);
  }

  /** With no waiter and stop closed, seven steps end Run. */
  lemma RunsOut(s: State)
    requires s.loop.AtTake? && s.waiters == [] && s.stop
    ensures var s3 := Next(Next(Next(s, Step(Onward)), Step(Onward)), Step(Onward));
            var s5 := Next(Next(s3, Step(Onward)), Step(Onward));
            Next(Next(s5, Step(Onward)), Step(Onward)) == s.(loop := Exited, started := s.started + 1)
  {
    var s3 := Next(Next(Next(s, Step(Onward)), Step(Onward)), Step(Onward));
    assert s3 == s.(loop := Replying([]), started := s.started + 1);
    var s5 := Next(Next(s3, Step(Onward)), Step(Onward));
    assert s5 == s3.(loop := Failing);
  }

  /** The loop taking n steps on its own. */
  function Onwards(s: State, n: nat): State
    decreases n
  {
    if n == 0 then s else Onwards(Next(s, Step(Onward)), n - 1)
  }

  // ---------- stopping ----------

  /** A Request that comes after Stop is refused at its first step and is never listed. */
  lemma StoppedRefuses(s: State, id: Id)
    requires s.stop && id !in s.callers
    ensures var s' := Next(s, Enter(id));
            && s'.callers[id].stage == Refused && s'.waiters == s.waiters
            && Next(s', Register(id)) == s' && Next(s', TriggerCheck(id)) == s' && Next(s', TriggerPut(id)) == s'
            && Next(s', Leave(id)) == s'
  {
  }

  /** The loop is where one more collection can start although Stop has been called. */
  predicate BeforeRun(loop: Loop) {
    loop.AtTake? || loop.Taken? || loop.Probing? || loop.Selecting?
  }

  lemma StopStep(s: State, e: Event)
    requires s.stop
    ensures var s' := Next(s, e);
            && s'.stop
            && s'.started + (if BeforeRun(s'.loop) then 1 else 0) <= s.started + if BeforeRun(s.loop) then 1 else 0
  {
    hide Without;
  }

  /** After Stop at most one more collection starts, and none unless the loop stood before one ... */
  lemma {:induction false} AtMostOneAfterStop(s: State, events: seq<Event>)
    requires s.stop
    ensures After(s, events).started <= s.started + if BeforeRun(s.loop) then 1 else 0
    decreases |events|
  {
    hide Next;
    if events != [] {
      StopStep(s, events[0]);
      AtMostOneAfterStop(Next(s, events[0]), events[1..]);
    }
  }

  /** ... and then it can: the select between stop and the timer picks either. */
  lemma OneMayStartAfterStop(s: State)
    requires s.stop
    ensures (exists events :: After(s, events).started > s.started) <==> BeforeRun(s.loop)
  {
    hide Next;
    if BeforeRun(s.loop) {
      var events := LateRun(s);
      assert After(s, events).started > s.started;
    } else {
      forall events ensures After(s, events).started <= s.started {
        AtMostOneAfterStop(s, events);
      }
    }
  }

  lemma LateRun(s: State) returns (events: seq<Event>)
    requires BeforeRun(s.loop)
    ensures After(s, events).started > s.started
    decreases if s.loop.Taken? then 0 else if s.loop.AtTake? then 1 else if s.loop.Selecting? then 2 else 3
  {
    if s.loop.Taken? {
      events := [Step(Onward)];
      AfterCons(s, Step(Onward), []);
    } else if s.loop.AtTake? {
      var more := LateRun(Next(s, Step(Onward)));
      events := [Step(Onward)] + more;
      AfterCons(s, Step(Onward), more);
    } else {
      var choice := if s.loop.Probing? then Onward else ByTimer;
      var more := LateRun(Next(s, Step(choice)));
      events := [Step(choice)] + more;
      AfterCons(s, Step(choice), more);
    }
  }

  lemma AfterCons(s: State, e: Event, more: seq<Event>)
    ensures After(s, [e] + more) == After(Next(s, e), more)
  {
    assert ([e] + more)[1..] == more && [e] + [] == [e];
  }

  // ---------- coalescing ----------

  /** From the start of a collection to the probe of the trigger after it. */
  predicate InRun(loop: Loop) {
    loop.Collecting? || loop.Replying? || loop.AfterRun? || loop.Probing?
  }

  predicate Triggers(s: State, e: Event) {
    e.Poke? || (e.TriggerPut? && At(s, e.id, Armed))
  }

  ghost predicate Triggered(s: State, events: seq<Event>)
    decreases |events|
  {
    events != [] && (Triggers(s, events[0]) || Triggered(Next(s, events[0]), events[1..]))
  }

  lemma {:induction false} NextProbeIsNextRun(s: State, events: seq<Event>)
    ensures After(s, events).started >= s.started
    ensures !InRun(s.loop) && After(s, events).loop.Probing? ==> After(s, events).started > s.started
    decreases |events|
  {
    hide Next;
    if events != [] {
      RunBegins(s, events[0]);
      NextProbeIsNextRun(Next(s, events[0]), events[1..]);
    }
  }

  lemma RunBegins(s: State, e: Event)
    ensures Next(s, e).started >= s.started
    ensures !InRun(s.loop) && InRun(Next(s, e).loop) ==> Next(s, e).started > s.started
    ensures Next(s, e).loop.Probing? ==> InRun(s.loop)
  {
    hide Without, At;
  }

  lemma {:induction false} ProbeFindsToken(s: State, events: seq<Event>)
    requires InRun(s.loop) && After(s, events).loop.Probing? && After(s, events).started == s.started
    ensures After(s, events).token <==> s.token || Triggered(s, events)
    decreases |events|
  {
    if events != [] {
      var s' := Next(s, events[0]);
      NextProbeIsNextRun(s', events[1..]);
      assert InRun(s'.loop) && s'.token == (s.token || Triggers(s, events[0]));
      ProbeFindsToken(s', events[1..]);
    }
  }

  /** Any positive number of triggers during one collection becomes exactly one follow-up run with an empty slot;
      none means the loop goes to sleep. */
  lemma TriggersCoalesce(s: State, events: seq<Event>)
    requires s.loop.Collecting? && !s.token && After(s, events).loop.Probing? && After(s, events).started == s.started
    ensures var next := Next(After(s, events), Step(Onward));
            !next.token && next.loop == if Triggered(s, events) then AtTake else Selecting
  {
    ProbeFindsToken(s, events);
  }

  // ---------- the list and the slot themselves ----------

  function Cancellations(list: seq<Id>): seq<Reply> {
    seq(|list|, i requires 0 <= i < |list| => Reply(list[i], None))
  }

  /** The loop's last steps, taken together, are failWaiters. */
  lemma {:induction false} CancelsAll(s: State, held: seq<Id>)
    requires s.loop == Cancelling(held)
    ensures Onwards(s, |held| + 1) == s.(replies := s.replies + Cancellations(held), loop := Exited)
    decreases |held|
  {
    if held == [] {
      assert s.replies + Cancellations([]) == s.replies;
      assert Onwards(Next(s, Step(Onward)), 0) == Next(s, Step(Onward));
    } else {
      var s' := Next(s, Step(Onward));
      CancelsAll(s', held[1..]);
      assert s.replies + Cancellations(held) == s'.replies + Cancellations(held[1..]);
    }
  }

  class CollectionScheduler {
    var token: bool
    var stop: bool
    var waiters: seq<Id>
    var replies: seq<Reply>

    constructor ()
      ensures !token && !stop && waiters == [] && replies == []
    {
      token, stop, waiters, replies := false, false, [], [];
    }

    method Trigger()
      modifies this`token
      ensures token == (old(token) || !stop)
    {
      if stop {
        return;
      }
      if !token {
        token := true;
      }
    }

    method TakeWaiters() returns (taken: seq<Id>)
      modifies this`waiters
      ensures taken == old(waiters) && waiters == []
    {
      taken, waiters := waiters, [];
    }

    /** failWaiters: every listed waiter is told that the scheduler has stopped. */
    method FailWaiters()
      modifies this`waiters, this`replies
      ensures waiters == [] && replies == old(replies) + Cancellations(old(waiters))
      ensures |replies| == |old(replies)| + |old(waiters)|
      ensures forall k :: 0 <= k < |old(waiters)| ==> replies[|old(replies)| + k] == Reply(old(waiters)[k], None)
    {
      var taken := TakeWaiters();
      for i := 0 to |taken|
        invariant waiters == [] && replies == old(replies) + Cancellations(taken[..i])
      {
        assert Cancellations(taken[..i + 1]) == Cancellations(taken[..i]) + [Reply(taken[i], None)];
        replies := replies + [Reply(taken[i], None)];
      }
      assert taken[..|taken|] == taken;
    }

    method RemoveWaiter(target: Id)
      modifies this`waiters
      ensures waiters == Without(old(waiters), target)
    {
      for index := 0 to |waiters|
        invariant waiters == old(waiters)
        invariant Without(waiters, target) == waiters[..index] + Without(waiters[index..], target)
      {
        if waiters[index] == target {
          waiters := waiters[..index] + waiters[index + 1..];
          return;
        }
        assert waiters[index..][1..] == waiters[index + 1..];
        assert waiters[..index + 1] == waiters[..index] + [waiters[index]];
      }
      assert waiters[..|waiters|] + [] == waiters;
    }
  }
}
