/** DispatchAgent: expire, re-check the creator's role, send, mark (internal/panel/command/dispatcher.go), without a
    concurrent writer; every clock reading and every database statement is the environment's. */
module Dispatch {
  import opened Bytes
  import opened Protocol
  import opened Wrappers
  import opened Panel
  import opened PanelStore
  import PanelResults

  /** What the hub answers: enqueued, offline or backpressure, any other error. */
  datatype Send = Enqueued | Refused | Broken

  /** One turn of the loop: whether reading the creator fails, the hub's answer, whether the transition's transaction
      fails, and the clock at that transition. */
  datatype Turn = Turn(lookupFails: bool, send: Send, commitFails: bool, now: int)

  function RoleRank(role: Role): nat {
    match role
    case Viewer => 1
    case Operator => 2
    case Admin => 3
  }

  predicate Authorized(users: map<int, Role>, row: Row) {
    row.creator in users
        && RoleRank(users[row.creator]) >= RoleRank(if row.command.action == UPGRADE then Admin else Operator)
  }

  /** The command was handed to the hub. */
  predicate Sent(users: map<int, Role>, row: Row, t: Turn) {
    !t.lookupFails && Authorized(users, row) && t.send.Enqueued?
  }

  /** The turn ends the dispatch with an error. */
  predicate Stops(users: map<int, Role>, row: Row, t: Turn) {
    || t.lookupFails || row.creator !in users
    || (Authorized(users, row) && (t.send.Broken? || (t.send.Enqueued? && row.state == State.Queued && t.commitFails)))
    || (!Authorized(users, row) && t.commitFails)
  }

  /** A waiting row after its turn. */
  function Handled(users: map<int, Role>, row: Row, t: Turn): Row {
    if Stops(users, row, t) then row
    else if !Authorized(users, row) then Moved(row, State.Failed, t.now, "authorization_revoked", REJECTED_OBJECT)
    else if t.send.Enqueued? && row.state == State.Queued then Moved(row, State.Dispatched, t.now, "", EMPTY_OBJECT)
    else row
  }

  /** The commands enqueued among the first n waiting rows, in order. */
  function SentCommands(users: map<int, Role>, rows: seq<Row>, at: seq<nat>, turns: nat -> Turn, n: nat): seq<Command>
    requires n <= |at| && forall k :: 0 <= k < |at| ==> at[k] < |rows|
  {
    if n == 0 then []
    else
      SentCommands(users, rows, at, turns, n - 1) +
      if Sent(users, rows[at[n - 1]], turns(n - 1)) then [rows[at[n - 1]].command] else []
  }

  lemma {:induction false} SentWereWaiting(users: map<int, Role>, rows: seq<Row>, at: seq<nat>, turns: nat -> Turn,
                                           n: nat)
    requires n <= |at| && forall k :: 0 <= k < |at| ==> at[k] < |rows|
    ensures forall c :: c in SentCommands(users, rows, at, turns, n) ==>
              exists k :: 0 <= k < n && c == rows[at[k]].command
  {
    hide Sent;
    if n > 0 {
      SentWereWaiting(users, rows, at, turns, n - 1);
      var front := SentCommands(users, rows, at, turns, n - 1);
      forall c | c in front ensures exists k :: 0 <= k < n && c == rows[at[k]].command {
        var k :| 0 <= k < n - 1 && c == rows[at[k]].command;
      }
    }
  }

  ghost predicate InSequence(cs: seq<Command>) {
    forall j, k :: 0 <= j < k < |cs| ==> cs[j].sequence < cs[k].sequence
  }

  lemma NoneInSequence()
    ensures InSequence([])
  {
  }

  lemma OneLonger(front: seq<Command>, last: seq<Command>, c: Command)
    requires InSequence(front)
    requires (forall x :: x in front ==> x.sequence < c.sequence) && (last == [] || last == [c])
    ensures InSequence(front + last)
  {
  }

  /** What is sent goes out in ascending sequence. */
  lemma {:induction false} SentAscends(users: map<int, Role>, rows: seq<Row>, agentId: Octets, now: int,
                                       turns: nat -> Turn, n: nat)
    requires Contiguous(rows) && n <= |Outstanding(rows, agentId, now)|
    ensures InSequence(SentCommands(users, rows, Outstanding(rows, agentId, now), turns, n))
  {
    hide Outstanding, Contiguous, Sent, InSequence, Waiting;
    var at := Outstanding(rows, agentId, now);
    if n == 0 {
      NoneInSequence();
    } else {
      SentAscends(users, rows, agentId, now, turns, n - 1);
      SentWereWaiting(users, rows, at, turns, n - 1);
      var sent := SentCommands(users, rows, at, turns, n - 1);
      forall c | c in sent ensures c.sequence < rows[at[n - 1]].command.sequence {
        var k :| 0 <= k < n - 1 && c == rows[at[k]].command;
        OutstandingAscends(rows, agentId, now, k, n - 1);
      }
      var last := if Sent(users, rows[at[n - 1]], turns(n - 1)) then [rows[at[n - 1]].command] else [];
      assert SentCommands(users, rows, at, turns, n) == sent + last;
      OneLonger(sent, last, rows[at[n - 1]].command);
    }
  }

  /** The table after the first n waiting rows were handled. */
  ghost predicate HandledUpTo(users: map<int, Role>, before: seq<Row>, rows: seq<Row>, at: seq<nat>, turns: nat -> Turn,
                              n: nat) {
    && n <= |at| && |rows| == |before|
    && (forall k :: 0 <= k < |at| ==> at[k] < |before|)
    && (forall k :: 0 <= k < n ==> rows[at[k]] == Handled(users, before[at[k]], turns(k)))
    && (forall i :: 0 <= i < |rows| && i !in at[..n] ==> rows[i] == before[i])
  }

  lemma HandledNext(users: map<int, Role>, before: seq<Row>, rows: seq<Row>, rows': seq<Row>, at: seq<nat>,
                    turns: nat -> Turn, n: nat)
    requires n < |at| && HandledUpTo(users, before, rows, at, turns, n)
    requires forall j, k :: 0 <= j < k < |at| ==> at[j] < at[k]
    requires rows' == rows[at[n] := Handled(users, before[at[n]], turns(n))]
    ensures HandledUpTo(users, before, rows', at, turns, n + 1)
  {
    hide Handled;
    assert at[..n + 1] == at[..n] + [at[n]];
    forall i | 0 <= i < |rows'| && i !in at[..n + 1] ensures rows'[i] == before[i] {
      assert i !in at[..n] && i != at[n];
    }
  }

  /** Revoking, like marking as dispatched, is always an allowed transition of a row that is waiting. */
  lemma HandlingIsAllowed(prims: Primitives, db: Tables, k: nat, agentId: Octets, due: int, to: State, actor: Actor,
                          reason: string,
                          code: string, data: Octets, now: int)
    requires DbInv(db) && k < |db.rows| && Waiting(db.rows[k], agentId, due)
    requires to == State.Failed || (to == State.Dispatched && db.rows[k].state == State.Queued)
    requires |reason| <= 128 && |code| <= 128 && |data| <= 16384 && prims.ValidJson(OrEmptyObject(data))
    ensures var t := Transition(prims, db, db.rows[k].command.commandId, to, actor, reason, code, data, now);
            t.Some? && t.value.rows == db.rows[k := Moved(db.rows[k], to, now, code, OrEmptyObject(data))]
            && t.value.events == db.events + [Event(db.rows[k].command.commandId, actor.userId, actor.session,
                                                    Some(db.rows[k].state), to, now, reason)]
  {
    FindRowOfRow(db.rows, k);
    hide FindRow, HistoriesMatch, Contiguous, NoStrayEvents;
  }

  /** A row that had its turn is queued afterwards if and only if it was queued before and its send was refused or its
      turn ended the dispatch; and it is queued although it was sent if and only if the marking transaction failed. */
  lemma QueuedIffRefusedOrStopped(users: map<int, Role>, before: seq<Row>, rows: seq<Row>, at: seq<nat>,
                                  turns: nat -> Turn, n: nat, k: nat)
    requires HandledUpTo(users, before, rows, at, turns, n) && k < n
    ensures var row, t := before[at[k]], turns(k);
            && (rows[at[k]].state == State.Queued <==>
                  row.state == State.Queued && (Stops(users, row, t) || (Authorized(users, row) && t.send.Refused?)))
            && (rows[at[k]].state == State.Queued && Sent(users, row, t) <==>
                  row.state == State.Queued && Sent(users, row, t) && t.commitFails)
  {
    assert rows[at[k]] == Handled(users, before[at[k]], turns(k));
  }

  /** So a failing marking leaves a command that the agent has received queued, and whatever the agent then reports
      about it is refused. */
  lemma SentButRefused(prims: Primitives, db: Tables, before: seq<Row>, at: seq<nat>, turns: nat -> Turn, n: nat,
                       k: nat, users: map<int, Role>, agentId: Octets, r: CommandResult, now: int, budget: nat)
    requires DbInv(db) && HandledUpTo(users, before, db.rows, at, turns, n) && k < n
    requires before[at[k]].state == State.Queued && Authorized(users, before[at[k]])
    requires turns(k).send.Enqueued? && !turns(k).lookupFails && turns(k).commitFails
    requires r.commandId == before[at[k]].command.commandId
    ensures Sent(users, before[at[k]], turns(k)) && Stops(users, before[at[k]], turns(k))
    ensures PanelResults.ApplyResult(prims, users, db, agentId, r, now, budget) == (db, false)
  {
    hide FindRow, HistoriesMatch, Contiguous, NoStrayEvents, PanelResults.ApplyResult;
    assert db.rows[at[k]] == Handled(users, before[at[k]], turns(k));
    FindRowOfRow(db.rows, at[k]);
    PanelResults.UndeliveredIsRefused(prims, users, db, agentId, r, now, budget, at[k]);
  }

  /** One turn in terms of the roles alone. An unreadable or unknown creator ends the dispatch. An Admin may send every
      command, an Operator every command but an upgrade, a Viewer none. What may not be sent ends as failed with
      authorization_revoked; what may be is sent exactly if the hub takes it, and then marked if it was queued. */
  ghost predicate TurnIsExact(users: map<int, Role>, row: Row, t: Turn, ok: bool, sent: bool, row': Row) {
    if t.lookupFails || row.creator !in users then !ok && !sent && row' == row
    else
      var allowed := users[row.creator] == Role.Admin
                     || (users[row.creator] == Role.Operator && row.command.action != Ascii("upgrade"));
      if !allowed then
        !sent && ok == !t.commitFails
        && row' == (if t.commitFails then row
                    else row.(state := State.Failed, finishedAt := t.now, code := "authorization_revoked",
                              data := Ascii("{\"status\":\"rejected\"}")))
      else
        match t.send
        case Refused => ok && !sent && row' == row
        case Broken => !ok && !sent && row' == row
        case Enqueued =>
          && sent && ok == !(row.state == State.Queued && t.commitFails)
          && row' == (if row.state != State.Queued || t.commitFails then row
                      else row.(state := State.Dispatched, dispatchedAt := t.now, attempts := row.attempts + 1))
  }

  lemma TurnMeans(users: map<int, Role>, row: Row, t: Turn)
    ensures TurnIsExact(users, row, t, !Stops(users, row, t), Sent(users, row, t), Handled(users, row, t))
  {
  }

  lemma {:induction false} SentIff(users: map<int, Role>, rows: seq<Row>, at: seq<nat>, turns: nat -> Turn, n: nat,
                                   k: nat)
    requires DistinctRows(rows) && n <= |at| && k < |at| && forall j :: 0 <= j < |at| ==> at[j] < |rows|
    requires forall i, j :: 0 <= i < j < |at| ==> at[i] < at[j]
    ensures rows[at[k]].command in SentCommands(users, rows, at, turns, n) <==>
            k < n && Sent(users, rows[at[k]], turns(k))
  {
    hide Sent;
    if n > 0 {
      SentIff(users, rows, at, turns, n - 1, k);
      if k != n - 1 {
        assert at[k] != at[n - 1];
        assert rows[at[k]].command.commandId != rows[at[n - 1]].command.commandId;
      }
    }
  }

  lemma HandledNone(users: map<int, Role>, rows: seq<Row>, agentId: Octets, turns: nat -> Turn, now: int)
    ensures HandledUpTo(users, rows, rows, Outstanding(rows, agentId, now), turns, 0)
  {
  }

  lemma NextIsUntouched(db: Tables, users: map<int, Role>, before: seq<Row>, agentId: Octets, turns: nat -> Turn,
                        now: int, n: nat)
    requires DbInv(db) && n < |Outstanding(before, agentId, now)|
    requires HandledUpTo(users, before, db.rows, Outstanding(before, agentId, now), turns, n)
    ensures var i := Outstanding(before, agentId, now)[n];
            i < |db.rows| && db.rows[i] == before[i] && FindRow(db.rows, before[i].command.commandId) == i
  {
    var at := Outstanding(before, agentId, now);
    hide Outstanding, FindRow, Handled;
    assert at[n] !in at[..n];
    FindRowOfRow(db.rows, at[n]);
  }

  /** A dispatch that has taken done turns without being stopped. */
  ghost predicate Going(users: map<int, Role>, before: seq<Row>, rows: seq<Row>, at: seq<nat>, turns: nat -> Turn,
                        sent: seq<Command>, done: nat) {
    && HandledUpTo(users, before, rows, at, turns, done)
    && sent == SentCommands(users, before, at, turns, done)
    && forall k :: 0 <= k < done ==> !Stops(users, before[at[k]], turns(k))
  }

  lemma GoingOn(users: map<int, Role>, before: seq<Row>, rows: seq<Row>, rows': seq<Row>, at: seq<nat>,
                turns: nat -> Turn,
                sent: seq<Command>, sent': seq<Command>, done: nat)
    requires done < |at| && Going(users, before, rows, at, turns, sent, done)
    requires forall j, k :: 0 <= j < k < |at| ==> at[j] < at[k]
    requires rows' == rows[at[done] := Handled(users, before[at[done]], turns(done))]
    requires sent' == sent + if Sent(users, before[at[done]], turns(done)) then [before[at[done]].command] else []
    ensures HandledUpTo(users, before, rows', at, turns, done + 1)
            && sent' == SentCommands(users, before, at, turns, done + 1)
    ensures !Stops(users, before[at[done]], turns(done)) ==> Going(users, before, rows', at, turns, sent', done + 1)
  {
    hide Handled, Sent, Stops;
    HandledNext(users, before, rows, rows', at, turns, done);
  }

  class Dispatcher {
    const store: Store

    constructor (store: Store)
      ensures this.store == store
    {
      this.store := store;
    }

    /** One turn of the loop for the row at position i. */
    method HandleOne(command: Command, t: Turn, agentId: Octets, due: int, ghost i: nat) returns (ok: bool, sent: bool)
      requires store.Valid() && i < |store.rows| && store.rows[i].command == command
               && Waiting(store.rows[i], agentId, due)
      requires FindRow(store.rows, command.commandId) == i
      modifies store
      ensures store.Valid() && store.users == old(store.users)
      ensures var row := old(store.rows)[i];
              && ok == !Stops(store.users, row, t) && sent == Sent(store.users, row, t)
              && store.rows == old(store.rows)[i := Handled(store.users, row, t)]
      ensures TurnIsExact(store.users, old(store.rows)[i], t, ok, sent, store.rows[i])
      ensures var from, to := old(store.rows)[i].state, store.rows[i].state;
              store.events == old(store.events) +
              if to == from then []
              else [Event(command.commandId, old(store.rows)[i].creator, old(store.rows)[i].session, Some(from), to,
                          t.now, if to == State.Failed then "authorization_revoked" else "hub_enqueued")]
    {
      TurnMeans(store.users, store.rows[i], t);
      hide DbInv, Transition, FindRow, TurnIsExact;
      var row := store.rows[FindRow(store.rows, command.commandId)];
      if t.lookupFails || row.creator !in store.users {
        return false, false;
      }
      var actor := Actor(row.creator, row.session);
      if !Authorized(store.users, row) {
        HandlingIsAllowed(store.prims, store.Db(), i, agentId, due, State.Failed, actor, "authorization_revoked",
                          "authorization_revoked", REJECTED_OBJECT, t.now);
        ok := store.TransitionAt(command.commandId, State.Failed, actor, "authorization_revoked",
                                 "authorization_revoked",
                                 REJECTED_OBJECT, t.now, t.commitFails);
        return ok, false;
      }
      if t.send.Refused? {
        return true, false;
      }
      if t.send.Broken? {
        return false, false;
      }
      if row.state == State.Queued {
        HandlingIsAllowed(store.prims, store.Db(), i, agentId, due, State.Dispatched, actor, "hub_enqueued", "", [],
                          t.now);
        ok := store.TransitionAt(command.commandId, State.Dispatched, actor, "hub_enqueued", "", [], t.now,
                                 t.commitFails);
        return ok, true;
      }
      return true, true;
    }

    /** How far a dispatch came on the table it found after expiry: done turns were taken, the last of which is the
        only one that can have ended it. */
    ghost predicate Outcome(before: seq<Row>, agentId: Octets, due: int, turns: nat -> Turn, ok: bool,
                            sent: seq<Command>, done: nat)
      reads this, store
    {
      var at := Outstanding(before, agentId, due);
      && HandledUpTo(store.users, before, store.rows, at, turns, done)
      && sent == SentCommands(store.users, before, at, turns, done)
      && (forall k :: 0 <= k < done && Stops(store.users, before[at[k]], turns(k)) ==> !ok && k == done - 1)
      && (ok ==> done == |at|)
      && (!ok ==> done > 0 && Stops(store.users, before[at[done - 1]], turns(done - 1)))
    }

    /** The loop over the commands QueuedFor returned. */
    method Deliver(commands: seq<Command>, agentId: Octets, due: int, turns: nat -> Turn, ghost before: seq<Row>)
        returns (ok: bool, sent: seq<Command>, done: nat)
      requires store.Valid() && store.rows == before && |commands| == |Outstanding(before, agentId, due)|
      requires forall k :: 0 <= k < |commands| ==> commands[k] == before[Outstanding(before, agentId, due)[k]].command
      modifies store
      ensures store.Valid() && store.users == old(store.users)
      ensures Outcome(before, agentId, due, turns, ok, sent, done)
    {
      hide DbInv, Handled, Outstanding, HandledUpTo, FindRow, Authorized, Sent, Stops, Going, SentCommands, Waiting;
      ghost var at := Outstanding(before, agentId, due);
      GoingAtFirst(before, agentId, due, turns);
      sent, done := [], 0;
      while done < |commands|
        invariant store.Valid() && store.users == old(store.users)
        invariant done <= |at| && Going(store.users, before, store.rows, at, turns, sent, done)
      {
        GoingHandled(store.users, before, store.rows, at, turns, sent, done);
        NextIsUntouched(store.Db(), store.users, before, agentId, turns, due, done);
        ghost var rows, soFar := store.rows, sent;
        var enqueued;
        ok, enqueued := HandleOne(commands[done], turns(done), agentId, due, at[done]);
        if enqueued {
          sent := sent + [commands[done]];
        }
        GoingOn(store.users, before, rows, store.rows, at, turns, soFar, sent, done);
        done := done + 1;
        if !ok {
          StoppedThere(before, agentId, due, turns, rows, soFar, sent, done - 1);
          return;
        }
      }
      ok := true;
      Complete(before, agentId, due, turns, sent, done);
    }

    lemma GoingAtFirst(before: seq<Row>, agentId: Octets, due: int, turns: nat -> Turn)
      requires store.rows == before
      ensures Going(store.users, before, store.rows, Outstanding(before, agentId, due), turns, [], 0)
    {
      HandledNone(store.users, before, agentId, turns, due);
      hide HandledUpTo;
    }

    lemma StoppedThere(before: seq<Row>, agentId: Octets, due: int, turns: nat -> Turn, rows: seq<Row>,
                       soFar: seq<Command>,
                       sent: seq<Command>, n: nat)
      requires var at := Outstanding(before, agentId, due);
               && n < |at| && Going(store.users, before, rows, at, turns, soFar, n)
               && Stops(store.users, before[at[n]], turns(n))
               && HandledUpTo(store.users, before, store.rows, at, turns, n + 1)
               && sent == SentCommands(store.users, before, at, turns, n + 1)
      ensures Outcome(before, agentId, due, turns, false, sent, n + 1)
    {
      hide HandledUpTo, Stops, SentCommands;
    }

    lemma Complete(before: seq<Row>, agentId: Octets, due: int, turns: nat -> Turn, sent: seq<Command>, n: nat)
      requires n == |Outstanding(before, agentId, due)|
      requires Going(store.users, before, store.rows, Outstanding(before, agentId, due), turns, sent, n)
      ensures Outcome(before, agentId, due, turns, true, sent, n)
    {
      hide HandledUpTo, Stops, SentCommands;
    }

    /** before is the table after expiry; QueuedFor may fail. What is sent ascends in sequence. */
    method DispatchAgent(agentId: Octets, expireNow: int, expireBudget: nat, due: int, queryFails: bool,
                         turns: nat -> Turn)
        returns (ok: bool, sent: seq<Command>, done: nat, ghost before: seq<Row>)
      requires store.Valid()
      modifies store
      ensures store.Valid() && store.users == old(store.users)
      ensures |before| == |old(store.rows)|
      ensures forall k :: 0 <= k < |before| ==>
                before[k] == old(store.rows)[k] || before[k] == ExpiredRow(old(store.rows)[k], expireNow)
      ensures expireNow <= due ==> Outstanding(before, agentId, due) == Outstanding(old(store.rows), agentId, due)
      ensures if queryFails then !ok && sent == [] && done == 0 && store.rows == before
              else Outcome(before, agentId, due, turns, ok, sent, done)
      ensures InSequence(sent)
      ensures !queryFails ==>
                var at := Outstanding(before, agentId, due);
                && done <= |at| && |store.rows| == |before|
                && forall k :: 0 <= k < done ==>
                     TurnIsExact(store.users, before[at[k]], turns(k), ok || k < done - 1,
                                 before[at[k]].command in sent, store.rows[at[k]])
    {
      hide DbInv, Outcome, Outstanding, SentCommands, TurnIsExact;
      var expired := store.Expire(expireNow, expireBudget);
      before := store.rows;
      if expireNow <= due { OutstandingIgnoresExpiry(old(store.rows), before, agentId, expireNow, due); }
      if queryFails {
        return false, [], 0, before;
      }
      InvContiguous(store.Db());
      ghost var found := store.Db();
      var commands := store.QueuedFor(agentId, due);
      ok, sent, done := Deliver(commands, agentId, due, turns, before);
      OutcomeSent(before, agentId, due, turns, ok, sent, done);
      SentAscends(store.users, before, agentId, due, turns, done);
      TurnsAreExact(found, agentId, due, turns, ok, sent, done);
    }

    lemma TurnsAreExact(found: Tables, agentId: Octets, due: int, turns: nat -> Turn, ok: bool, sent: seq<Command>,
                        done: nat)
      requires DbInv(found) && Outcome(found.rows, agentId, due, turns, ok, sent, done)
      ensures var at := Outstanding(found.rows, agentId, due);
              && done <= |at| && |store.rows| == |found.rows|
              && forall k :: 0 <= k < done ==>
                   TurnIsExact(store.users, found.rows[at[k]], turns(k), ok || k < done - 1,
                               found.rows[at[k]].command in sent, store.rows[at[k]])
    {
      hide HistoriesMatch, Contiguous, NoStrayEvents, Outstanding, TurnIsExact, Stops, Sent, SentCommands, Handled;
      var at := Outstanding(found.rows, agentId, due);
      hide DistinctRows;
      forall k | 0 <= k < done
        ensures TurnIsExact(store.users, found.rows[at[k]], turns(k), ok || k < done - 1,
                            found.rows[at[k]].command in sent, store.rows[at[k]])
      {
        TurnMeans(store.users, found.rows[at[k]], turns(k));
        SentIff(store.users, found.rows, at, turns, done, k);
      }
    }

    lemma OutcomeSent(before: seq<Row>, agentId: Octets, due: int, turns: nat -> Turn, ok: bool, sent: seq<Command>,
                      done: nat)
      requires Outcome(before, agentId, due, turns, ok, sent, done)
      ensures done <= |Outstanding(before, agentId, due)|
      ensures sent == SentCommands(store.users, before, Outstanding(before, agentId, due), turns, done)
    {
    }
  }

  lemma GoingHandled(users: map<int, Role>, before: seq<Row>, rows: seq<Row>, at: seq<nat>, turns: nat -> Turn,
                     sent: seq<Command>, done: nat)
    requires Going(users, before, rows, at, turns, sent, done)
    ensures HandledUpTo(users, before, rows, at, turns, done) && |rows| == |before|
  {
  }

  lemma InvContiguous(db: Tables)
    requires DbInv(db)
    ensures Contiguous(db.rows)
  {
  }
}
