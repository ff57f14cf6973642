/** ApplyVerifiedUpdate, Retain and processPendingUpdate in the source's form, and what one transaction can end in
    (internal/update/helper.go:37-90, internal/update/root.go:79-164 and 286-309). */
module UpgradeTransaction {
  import opened Wrappers
  import opened Semver
  import opened Upgrade

  /** How each system call of one transaction turns out. */
  datatype Script = Script(
    install: InstallEffect, switch1: Effect, restart1: bool, proof: bool, order: seq<string>, removals: nat,
    syncOk: bool, switch2: Effect, restart2: bool, report: Effect)

  function Transaction(c: Checks, h: Host, s: Script): Host {
    Concluded(c, Attempt(c, h, s), s)
  }

  /** The transaction up to its conclusion: either decided, or rolling back after the switch succeeded. */
  function Attempt(c: Checks, h: Host, s: Script): Host {
    Tried(c, Next(c, Next(c, h, Install(s.install)), Switch(s.switch1)), s)
  }

  function Tried(c: Checks, h: Host, s: Script): Host {
    Next(c, Next(c, Next(c, h, Restart(s.restart1)), WaitProof(s.proof)), Retain(s.order, s.removals, s.syncOk))
  }

  function Concluded(c: Checks, h: Host, s: Script): Host {
    Next(c, Next(c, Next(c, h, Switch(s.switch2)), Restart(s.restart2)), WriteResult(s.report))
  }

  /** The transaction is one of the runs the safety results speak about. */
  lemma TransactionIsRun(c: Checks, h: Host, s: Script)
    ensures After(c, h, TransactionEvents(s)) == Transaction(c, h, s)
  {
    hide Next;
    var e0, e1, e2, e3 := Install(s.install), Switch(s.switch1), Restart(s.restart1), WaitProof(s.proof);
    var e4, e5, e6, e7 :=
        Retain(s.order, s.removals, s.syncOk), Switch(s.switch2), Restart(s.restart2), WriteResult(s.report);
    var h4 := Next(c, Next(c, Next(c, Next(c, h, e0), e1), e2), e3);
    FourSteps(c, h, e0, e1, e2, e3);
    FourSteps(c, h4, e4, e5, e6, e7);
    AfterConcat(c, h, [e0, e1, e2, e3], [e4, e5, e6, e7]);
  }

  lemma TwoSteps(c: Checks, h: Host, e0: Event, e1: Event)
    ensures After(c, h, [e0, e1]) == Next(c, Next(c, h, e0), e1)
  {
    hide Next;
    assert [e0, e1][1..] == [e1] && [e1][1..] == [];
    assert After(c, h, [e0, e1]) == After(c, Next(c, h, e0), [e1]);
  }

  lemma FourSteps(c: Checks, h: Host, e0: Event, e1: Event, e2: Event, e3: Event)
    ensures After(c, h, [e0, e1, e2, e3]) == Next(c, Next(c, Next(c, Next(c, h, e0), e1), e2), e3)
  {
    hide Next;
    assert [e0, e1, e2, e3][1..] == [e1, e2, e3] && [e1, e2, e3][1..] == [e2, e3] && [e2, e3][1..] == [e3]
        && [e3][1..] == [];
    var h1 := Next(c, h, e0);
    var h2 := Next(c, h1, e1);
    assert After(c, h, [e0, e1, e2, e3]) == After(c, h1, [e1, e2, e3]);
    assert After(c, h1, [e1, e2, e3]) == After(c, h2, [e2, e3]);
    assert After(c, h2, [e2, e3]) == After(c, Next(c, h2, e2), [e3]);
  }

  lemma {:induction false} AfterConcat(c: Checks, h: Host, first: seq<Event>, more: seq<Event>)
    ensures After(c, h, first + more) == After(c, After(c, h, first), more)
    decreases |first|
  {
    hide Next;
    if first == [] {
      assert first + more == more;
    } else {
      assert (first + more)[1..] == first[1..] + more;
      AfterConcat(c, Next(c, h, first[0]), first[1..], more);
    }
  }

  // ---------- outcomes ----------

  /** What h' did beyond h. */
  function Steps(h: Host, h': Host): seq<Act> {
    if |h.trace| <= |h'.trace| then h'.trace[|h.trace|..] else []
  }

  predicate NoWriting(steps: seq<Act>) {
    forall k :: 0 <= k < |steps| ==> !steps[k].Writing?
  }

  predicate NoRestart(steps: seq<Act>) {
    forall k :: 0 <= k < |steps| ==> !steps[k].Restarting?
  }

  lemma DecidedStaysDecided(c: Checks, h: Host, s: Script)
    requires h.phase.Reporting?
    ensures Tried(c, h, s) == h
  {
  }

  /** A transaction decided before the agent was restarted only writes its result. */
  lemma DecidedEarly(c: Checks, h: Host, s: Script)
    requires Next(c, Next(c, h, Install(s.install)), Switch(s.switch1)).phase.Reporting?
    ensures var middle := Next(c, Next(c, h, Install(s.install)), Switch(s.switch1)); var result := middle.phase.result;
            Transaction(c, h, s) ==
              middle.(results := if s.report.NotDone? then middle.results else middle.results + [result],
                      trace := middle.trace + [Writing(result)], phase := Idle)
  {
    var middle := Next(c, Next(c, h, Install(s.install)), Switch(s.switch1));
    DecidedStaysDecided(c, middle, s);
    DecidedConcludes(c, middle, s);
    hide Next, Tried, Concluded;
  }

  lemma DecidedConcludes(c: Checks, h: Host, s: Script)
    requires h.phase.Reporting?
    ensures Concluded(c, h, s) ==
              h.(results := if s.report.NotDone? then h.results else h.results + [h.phase.result],
                 trace := h.trace + [Writing(h.phase.result)], phase := Idle)
  {
  }

  /** What restart, proof and retention make of a switched host. */
  lemma TriedFrom(c: Checks, h: Host, s: Script)
    requires h.phase.Switched?
    ensures var r, prev := h.phase.r, h.phase.prev;
            var (store, removed) := RetainLoop(h.store, s.order, {r.manifest.version, prev}, s.removals);
            var ok := removed && s.syncOk;
            Tried(c, h, s) ==
              if !s.restart1 then h.(trace := h.trace + [Restarting(false)], phase := RollingBack(r, prev))
              else if !s.proof then
                  h.(trace := h.trace + [Restarting(true), Proving(false)], phase := RollingBack(r, prev))
              else h.(store := store, trace := h.trace + [Restarting(true), Proving(true), Retaining(ok)],
                      phase := if ok then Reporting(HelperResult(r, Applied)) else RollingBack(r, prev))
  {
    hide CleanName, RetainLoop;
    assert h.trace + [Restarting(true)] + [Proving(s.proof)] == h.trace + [Restarting(true), Proving(s.proof)];
  }

  /** The version is stored under a clean new name and the switch reports success. */
  predicate SwitchSucceeds(h: Host, s: Script, r: Request) {
    s.install.Stored? && CleanName(r.manifest.version) && r.manifest.version != h.link && s.switch1.Done?
  }

  /** The new version starts, proves itself and the old ones are cleared away. */
  predicate UpgradeSucceeds(h: Host, s: Script, r: Request) {
    && s.restart1 && s.proof && s.syncOk
    && RetainLoop(h.store + {r.manifest.version}, s.order, {r.manifest.version, h.link}, s.removals).1
  }

  /** The result a script of system calls ends in. */
  function CodeOf(h: Host, s: Script, r: Request): Code {
    if !SwitchSucceeds(h, s, r) then NotApplied
    else if UpgradeSucceeds(h, s, r) then Applied
    else if s.switch2.Done? && s.restart2 then RolledBack
    else RollbackFailed
  }

  lemma SwitchOutcomes(c: Checks, h: Host, s: Script, r: Request)
    requires h.phase == Ready(r, h.link)
    ensures var h', v := Next(c, Next(c, h, Install(s.install)), Switch(s.switch1)), r.manifest.version;
            var steps := Steps(h, h');
            && h'.trace == h.trace + steps && h'.results == h.results && NoWriting(steps)
            && (SwitchSucceeds(h, s, r) ==>
                  && h'.phase == Switched(r, h.link) && h'.link == v && h'.store == h.store + {v}
                  && steps == [Installing(true), Switching(v, true)])
            && (!SwitchSucceeds(h, s, r) ==>
                  && h'.phase == Reporting(HelperResult(r, NotApplied)) && NoRestart(steps)
                  && h'.link == (if v != h.link && CleanName(v) && s.install.Stored? && s.switch1.DoneWithError?
                                 then v else h.link))
  {
    hide CleanName;
  }

  lemma AttemptOutcomes(c: Checks, h: Host, s: Script, r: Request)
    requires h.phase == Ready(r, h.link)
    ensures var h', v := Attempt(c, h, s), r.manifest.version; var steps := Steps(h, h');
            && h'.trace == h.trace + steps && NoWriting(steps) && h'.results == h.results
            && (!SwitchSucceeds(h, s, r) ==>
                  && h'.phase == Reporting(HelperResult(r, NotApplied)) && NoRestart(steps)
                  && h'.link == (if v != h.link && CleanName(v) && s.install.Stored? && s.switch1.DoneWithError?
                                 then v else h.link))
            && (SwitchSucceeds(h, s, r) && UpgradeSucceeds(h, s, r) ==>
                  && h'.phase == Reporting(HelperResult(r, Applied)) && h'.link == v
                  && steps == [Installing(true), Switching(v, true), Restarting(true), Proving(true), Retaining(true)])
            && (SwitchSucceeds(h, s, r) && !UpgradeSucceeds(h, s, r) ==>
                  h'.phase == RollingBack(r, h.link) && h'.link == v)
  {
    hide Next, CleanName, RetainLoop, Tried;
    var switched := Next(c, Next(c, h, Install(s.install)), Switch(s.switch1));
    SwitchOutcomes(c, h, s, r);
    if switched.phase.Reporting? {
      DecidedStaysDecided(c, switched, s);
    } else {
      TriedFrom(c, switched, s);
      StepsAdd(h, switched, Tried(c, switched, s));
    }
  }

  lemma StepsAdd(a: Host, b: Host, c: Host)
    requires b.trace == a.trace + Steps(a, b) && c.trace == b.trace + Steps(b, c)
    ensures Steps(a, c) == Steps(a, b) + Steps(b, c) && c.trace == a.trace + Steps(a, c)
  {
    assert c.trace == a.trace + (Steps(a, b) + Steps(b, c));
  }

  lemma ConclusionOutcomes(c: Checks, h: Host, s: Script)
    requires h.phase.RollingBack? || h.phase.Reporting?
    ensures var h' := Concluded(c, h, s); var steps := Steps(h, h');
            && h'.trace == h.trace + steps && h'.phase.Idle?
            && (h.phase.Reporting? ==> steps == [Writing(h.phase.result)] && h'.link == h.link)
            && (h.phase.RollingBack? ==>
                  var code := if s.switch2.Done? && s.restart2 then RolledBack else RollbackFailed;
                  && steps
                  == [Switching(h.phase.prev, s.switch2.Done?), Restarting(s.restart2),
                      Writing(HelperResult(h.phase.r, code))]
                  && h'.link == Relinked(h.link, h.phase.prev, s.switch2))
  {
  }

  /** What each result says of the link and of the steps before it was written. */
  ghost predicate Ending(h: Host, link: string, s: Script, r: Request, before: seq<Act>, code: Code) {
    var v := r.manifest.version;
    match code
    case Applied =>
      link == v && before == [Installing(true), Switching(v, true), Restarting(true), Proving(true), Retaining(true)]
    case NotApplied =>
      NoRestart(before)
      && (link == h.link <==> !(v != h.link && CleanName(v) && s.install.Stored? && s.switch1.DoneWithError?))
    case RolledBack =>
      link == h.link && |before| >= 2 && before[|before| - 2..] == [Switching(h.link, true), Restarting(true)]
    case RollbackFailed =>
      && (!s.switch2.Done? || !s.restart2) && link == Relinked(v, h.link, s.switch2)
      && |before| >= 2 && before[|before| - 2..] == [Switching(h.link, s.switch2.Done?), Restarting(s.restart2)]
    case Rejected => false
  }

  /** Which of the four results a script ends in, for every script, and what each means: exactly one result is written,
      last; success means installed, switched, restarted, proven and retained in that order with the link on the new
      version; not_applied means no restart, and the link is the old one unless the switch itself failed after its
      rename; rolled_back means the old link, then a good restart. */
  lemma TransactionOutcomes(c: Checks, h: Host, s: Script, r: Request) returns (before: seq<Act>, code: Code)
    requires h.phase == Ready(r, h.link)
    ensures var h' := Transaction(c, h, s);
            && h'.trace == h.trace + Steps(h, h') && h'.phase.Idle?
            && Steps(h, h') == before + [Writing(HelperResult(r, code))] && NoWriting(before)
            && Ending(h, h'.link, s, r, before, code) && code == CodeOf(h, s, r)
  {
    hide Attempt, Concluded, Next, CleanName, RetainLoop;
    AttemptOutcomes(c, h, s, r);
    var mid := Attempt(c, h, s);
    ConclusionOutcomes(c, mid, s);
    assert Transaction(c, h, s) == Concluded(c, mid, s);
    StepsAdd(h, mid, Concluded(c, mid, s));
    var steps := Steps(h, Transaction(c, h, s));
    var last := Steps(mid, Concluded(c, mid, s));
    assert steps == (Steps(h, mid) + last[..|last| - 1]) + [last[|last| - 1]];
    before, code := Steps(h, mid) + last[..|last| - 1], last[|last| - 1].result.code;
    hide Steps, Relinked, SwitchSucceeds, UpgradeSucceeds;
  }

  /** upgrade_not_applied is reported with the new version linked if and only if the switch failed after its rename; and
      it does happen, to every upgrade to a clean new name whose switch so fails. */
  lemma NotAppliedButLinked(c: Checks, h: Host, s: Script, r: Request)
    requires h.phase == Ready(r, h.link) && r.manifest.version != h.link
    ensures var h' := Transaction(c, h, s); var steps := Steps(h, h');
            (steps != [] && steps[|steps| - 1] == Writing(HelperResult(r, NotApplied)) && h'.link == r.manifest.version)
            <==> s.install.Stored? && CleanName(r.manifest.version) && s.switch1.DoneWithError?
  {
    var before, code := TransactionOutcomes(c, h, s, r);
    if !SwitchSucceeds(h, s, r) { LinkOfNotApplied(c, h, s, r); }
    hide CleanName, Transaction, Steps, UpgradeSucceeds, NoRestart, NoWriting;
  }

  lemma LinkOfNotApplied(c: Checks, h: Host, s: Script, r: Request)
    requires h.phase == Ready(r, h.link) && !SwitchSucceeds(h, s, r)
    ensures Transaction(c, h, s).link ==
            var v := r.manifest.version;
            if v != h.link && CleanName(v) && s.install.Stored? && s.switch1.DoneWithError? then v else h.link
  {
    hide CleanName, Attempt, Concluded;
    AttemptOutcomes(c, h, s, r);
    ConclusionOutcomes(c, Attempt(c, h, s), s);
    hide Next;
  }

  // ---------- exactly when an upgrade without faults succeeds ----------

  function Faultless(order: seq<string>): Script {
    Script(Stored, Done, true, true, order, |order|, true, Done, true, Done)
  }

  lemma {:induction false} RetainSucceedsIff(store: set<string>, order: seq<string>, keep: set<string>, removals: nat)
    requires |order| <= removals
    ensures RetainLoop(store, order, keep, removals).1 <==>
              forall k :: 0 <= k < |order| ==> order[k] in keep || CleanName(order[k])
    decreases |order|
  {
    hide CleanName;
    if order != [] {
      if order[0] in keep {
        RetainSucceedsIff(store, order[1..], keep, removals);
      } else if CleanName(order[0]) {
        RetainSucceedsIff(store - {order[0]}, order[1..], keep, removals - 1);
      }
      assert forall k :: 1 <= k < |order| ==> order[k] == order[1..][k - 1];
    }
  }

  /** With every system call succeeding, a valid upgrade is applied if and only if its version has no digit 0
      and every other version directory, bar the previous one, has a name free of the refused characters. */
  lemma AppliedIffNamesAreClean(c: Checks, h: Host, r: Request, order: seq<string>)
    requires h.phase == Ready(r, h.link) && Below(h.link, r.manifest.version)
    ensures var steps := Steps(h, Transaction(c, h, Faultless(order)));
            (steps != [] && steps[|steps| - 1] == Writing(HelperResult(r, Applied))) <==>
            '0' !in r.manifest.version
            && forall k :: 0 <= k < |order| ==>
                  order[k] == r.manifest.version || order[k] == h.link || CleanName(order[k])
  {
    hide CleanName, RetainLoop, ParseSemver, Less, Transaction, Steps;
    var v := r.manifest.version;
    CleanMeansZeroFree(v);
    VersionOrder(h.link, v, v);
    RetainSucceedsIff(h.store + {v}, order, {v, h.link}, |order|);
    var before, code := TransactionOutcomes(c, h, Faultless(order), r);
  }

  // ---------- claimed and rejected files ----------

  /** A file of the updates directory. */
  datatype Body = Unreadable | Garbage | Decoded(r: Request)

  datatype Files = Files(pending: Option<Body>, claimed: Option<Body>, rejected: Option<Body>)

  /** How processPendingUpdate's own file operations turn out; claim and reject are renames with a directory sync. */
  datatype Faults = Faults(statOk: bool, claim: Effect, reject: Effect, report: Effect)

  /** The file that is claimed when the body is read, if the run gets that far. */
  function ClaimedBody(f: Files, x: Faults): Option<Body> {
    if !x.statOk then None
    else if f.claimed.Some? then f.claimed
    else if x.claim.Done? then f.pending else None
  }

  predicate Accepted(c: Checks, o: Options, link: string, body: Option<Body>) {
    body.Some? && body.value.Decoded? && ValidateRequest(c, o, body.value.r, link).None?
  }

  function FilesAfter(c: Checks, o: Options, link: string, f: Files, x: Faults): Files {
    var claimed :=
      if x.statOk && f.claimed.None? && f.pending.Some? && !x.claim.NotDone? then Files(None, f.pending, f.rejected)
      else f;
    if ClaimedBody(f, x).None? || Accepted(c, o, link, claimed.claimed) || x.reject.NotDone? then claimed
    else Files(claimed.pending, None, claimed.claimed)
  }

  /** The host events of one helper run. */
  function RunEvents(c: Checks, o: Options, link: string, body: Option<Body>, x: Faults, s: Script): seq<Event> {
    if body.None? || !body.value.Decoded? then []
    else if Accepted(c, o, link, body) then [Offer(body.value.r, o)] + TransactionEvents(s)
    else if x.reject.Done? then [Offer(body.value.r, o), WriteResult(x.report)]
    else [Offer(body.value.r, o), Crash]
  }

  function TransactionEvents(s: Script): seq<Event> {
    [Install(s.install), Switch(s.switch1), Restart(s.restart1), WaitProof(s.proof)]
    + [Retain(s.order, s.removals, s.syncOk), Switch(s.switch2), Restart(s.restart2), WriteResult(s.report)]
  }

  /** The three files after a run: the run stops where a check or rename fails; a claimed file goes before a pending
      one; what passes the gate stays claimed and everything else is moved aside, decodable or not. */
  lemma FilesMeans(c: Checks, o: Options, link: string, f: Files, x: Faults)
    ensures var after := FilesAfter(c, o, link, f, x);
            && (!x.statOk || (f.claimed.None? && (f.pending.None? || x.claim == NotDone)) ==>
                  after == f && (f.claimed.None? || !x.statOk ==> ClaimedBody(f, x).None?))
            && (x.statOk && f.claimed.None? && x.claim == DoneWithError ==>
                  ClaimedBody(f, x).None? && (f.pending.Some? ==> after == Files(None, f.pending, f.rejected)))
            && (x.statOk && (f.claimed.Some? || (f.pending.Some? && x.claim == Done)) ==>
                  var body := if f.claimed.Some? then f.claimed else f.pending;
                  var waiting := if f.claimed.Some? then f.pending else None;
                  var passes := body.value.Decoded? && ValidateRequest(c, o, body.value.r, link).None?;
                  && ClaimedBody(f, x) == body
                  && after == (if passes || x.reject == NotDone then Files(waiting, body, f.rejected)
                               else Files(waiting, None, body)))
  {
    hide ValidateRequest;
  }

  /** What a run does to the host: nothing without a decodable request; the transaction on one that passes; for a
      refused one nothing but a rejected result, exactly if the id is canonical, the file was moved and the write was
      made. */
  lemma RunMeans(c: Checks, o: Options, h: Host, body: Option<Body>, x: Faults, s: Script)
    requires h.phase.Idle?
    ensures var after := After(c, h, RunEvents(c, o, h.link, body, x, s)).(phase := Idle);
            && (body.None? || !body.value.Decoded? ==> after == h)
            && (body.Some? && body.value.Decoded? ==>
                  var r := body.value.r;
                  && (ValidateRequest(c, o, r, h.link).None? ==>
                        after == Transaction(c, h.(phase := Ready(r, h.link)), s).(phase := Idle))
                  && (ValidateRequest(c, o, r, h.link).Some? ==>
                        && after.link == h.link && after.store == h.store
                        && after.results == (if CanonicalUUID(r.commandId) && x.reject == Done && x.report != NotDone
                                             then h.results + [HelperResult(r, Rejected)] else h.results)))
  {
    hide ValidateRequest, CanonicalUUID, Transaction, TransactionEvents;
    if body.Some? && body.value.Decoded? {
      var offer := Offer(body.value.r, o);
      if Accepted(c, o, h.link, body) {
        var ready := h.(phase := Ready(body.value.r, h.link));
        TransactionIsRun(c, ready, s);
        assert ([offer] + TransactionEvents(s))[1..] == TransactionEvents(s);
        assert Next(c, h, offer) == ready;
      } else {
        TwoSteps(c, h, offer, WriteResult(x.report));
        TwoSteps(c, h, offer, Crash);
      }
    }
  }

  lemma LastIsResult(c: Checks, h: Host, s: Script, r: Request)
    requires h.phase == Ready(r, h.link)
    ensures var trace := Transaction(c, h, s).trace;
            trace != [] && trace[|trace| - 1] == Writing(HelperResult(r, CodeOf(h, s, r)))
  {
    hide Transaction, CodeOf, Ending;
    var before, code := TransactionOutcomes(c, h, s, r);
    assert Transaction(c, h, s).trace == (h.trace + before) + [Writing(HelperResult(r, code))];
  }

  /** The one result of a transaction, and the version directories an applied one leaves. */
  lemma TransactionLeaves(c: Checks, h: Host, s: Script, r: Request)
    requires h.phase == Ready(r, h.link)
    ensures var h', code := Transaction(c, h, s), CodeOf(h, s, r);
            && h'.results == (if s.report == NotDone then h.results else h.results + [HelperResult(r, code)])
            && (code == Applied ==>
                  h'.store == set v | v in h.store + {r.manifest.version}
                                      && (v == r.manifest.version || v == h.link || v !in s.order))
  {
    hide CleanName, RetainLoop;
    var switched := Next(c, Next(c, h, Install(s.install)), Switch(s.switch1));
    SwitchOutcomes(c, h, s, r);
    if switched.phase.Reporting? {
      DecidedEarly(c, h, s);
    } else {
      TriedFrom(c, switched, s);
      RetainLeaves(h.store + {r.manifest.version}, s.order, {r.manifest.version, h.link}, s.removals);
      var tried := Tried(c, switched, s);
      assert Transaction(c, h, s) == Concluded(c, tried, s);
      hide Next, Tried;
      ConcludedResults(c, tried, s);
    }
  }

  lemma ConcludedResults(c: Checks, h: Host, s: Script)
    requires h.phase.RollingBack? || h.phase.Reporting?
    ensures var h' := Concluded(c, h, s);
            var result := if h.phase.Reporting? then h.phase.result
                          else HelperResult(h.phase.r, if s.switch2.Done? && s.restart2 then RolledBack
                                                       else RollbackFailed);
            h'.store == h.store && h'.results == if s.report == NotDone then h.results else h.results + [result]
  {
  }

  /** A request once applied cannot pass again: a later run that finds it still claimed refuses it and moves it
      aside. */
  lemma AppliedRequestIsRefused(c: Checks, h: Host, r: Request, s: Script, o: Options, f: Files, x: Faults)
    requires HostInv(h) && h.phase == Ready(r, h.link)
    requires var steps := Steps(h, Transaction(c, h, s));
             steps != [] && steps[|steps| - 1] == Writing(HelperResult(r, Applied))
    requires f.claimed == Some(Decoded(r)) && x.statOk && x.reject.Done?
    ensures var link := Transaction(c, h, s).link;
            !Accepted(c, o, link, f.claimed) && FilesAfter(c, o, link, f, x) == Files(f.pending, None, Some(Decoded(r)))
  {
    var before, code := TransactionOutcomes(c, h, s, r);
    VersionOrder(h.link, r.manifest.version, r.manifest.version);
    var link := Transaction(c, h, s).link;
    if ValidateRequest(c, o, r, link).None? { GateOnlyUpgrades(c, o, r, link); }
    hide ValidateRequest, Transaction, Steps;
  }

  /** A request whose transaction left the link alone is offered again unchanged: it passes until a check that depends
      on the clock fails. */
  lemma UnappliedRequestPassesAgain(c: Checks, h: Host, r: Request, s: Script, o: Options)
    requires h.phase == Ready(r, h.link) && ValidateRequest(c, o, r, h.link).None?
    requires Transaction(c, h, s).link == h.link
    ensures forall now :: ValidateRequest(c, o.(now := now), r, Transaction(c, h, s).link).None?
                          <==> r.manifest.issuedAt - 300 <= now < r.manifest.expiresAt
  {
    hide ParseSemver, Less, CanonicalUUID, SafeBasename, Transaction;
  }

  /** Between two helper runs the installed version only rises and the link names an existing directory. */
  lemma RunNeverDowngrades(c: Checks, h: Host, events: seq<Event>)
    requires HostInv(h) && h.phase.Idle?
    ensures var h' := After(c, h, events).(phase := Idle); HostInv(h') && AtMost(h.link, h'.link)
  {
    InvFrom(c, h, events);
    var last := After(c, h, events);
    AbandonedRun(c, last);
    VersionOrder(h.link, Floor(last), last.link);
    hide After, AtMost, ResultsOk, PhaseOk;
  }

  lemma AbandonedRun(c: Checks, h: Host)
    requires HostInv(h)
    ensures HostInv(h.(phase := Idle)) && AtMost(Floor(h), h.link)
  {
    hide Next, HostInv, AtMost;
    NextKeepsInv(c, h, Crash);
    CrashIdles(c, h);
  }

  lemma CrashIdles(c: Checks, h: Host)
    ensures Next(c, h, Crash) == h.(phase := Idle)
  {
  }

  // ---------- the helper itself ----------

  class RootHelper {
    const checks: Checks
    var link: string
    var store: set<string>
    var results: seq<HelperResult>
    var trace: seq<Act>
    var pending: Option<Body>
    var claimed: Option<Body>
    var rejected: Option<Body>

    function OnDisk(): Files
      reads this
    {
      Files(pending, claimed, rejected)
    }

    ghost function View(phase: Phase): Host
      reads this
    {
      Host(link, store, results, trace, phase)
    }

    constructor (checks: Checks, link: string)
      requires ParseSemver(link).Some?
      ensures Installed(View(Idle)) && this.link == link && this.checks == checks
    {
      this.checks, this.link, store, results, trace := checks, link, {link}, [], [];
      pending, claimed, rejected := None, None, None;
    }

    method InstallArtifact(version: string, effect: InstallEffect) returns (target: Option<string>)
      modifies this`store
      ensures target == if effect.Stored? && CleanName(version) then Some(version) else None
      ensures store == if CleanName(version) && (effect.Stored? || (effect.InstallFailed? && effect.madeDirectory))
                       then old(store) + {version} else old(store)
    {
      if !CleanName(version) {
        return None;
      }
      match effect
      case TargetUnreadable => return None;
      case InstallFailed(madeDirectory) =>
        if madeDirectory { store := store + {version}; }
        return None;
      case Stored =>
        store := store + {version};
        return Some(version);
    }

    method SwitchTo(target: string, effect: Effect) returns (ok: bool)
      modifies this`link, this`trace
      ensures ok == effect.Done? && link == Relinked(old(link), target, effect)
              && trace == old(trace) + [Switching(target, ok)]
    {
      if !effect.NotDone? {
        link := target;
      }
      ok := effect.Done?;
      trace := trace + [Switching(target, ok)];
    }

    method RestartAgent(outcome: bool) returns (ok: bool)
      modifies this`trace
      ensures ok == outcome && trace == old(trace) + [Restarting(ok)]
    {
      ok := outcome;
      trace := trace + [Restarting(ok)];
    }

    method RetainVersions(current: string, previous: string, order: seq<string>, removals: nat, syncOk: bool)
        returns (ok: bool)
      modifies this`store, this`trace
      ensures var (kept, removed) := RetainLoop(old(store), order, {current, previous}, removals);
              store == kept && ok == (removed && syncOk) && trace == old(trace) + [Retaining(ok)]
    {
      hide CleanName;
      var keep, left := {current, previous}, removals;
      ghost var before := store;
      for i := 0 to |order|
        invariant trace == old(trace)
        invariant RetainLoop(before, order, keep, removals) == RetainLoop(store, order[i..], keep, left)
      {
        assert order[i..][1..] == order[i + 1..];
        if order[i] in keep {
          continue;
        }
        if !CleanName(order[i]) || left == 0 {
          trace := trace + [Retaining(false)];
          return false;
        }
        store, left := store - {order[i]}, left - 1;
      }
      ok := syncOk;
      trace := trace + [Retaining(ok)];
    }

    method Write(result: HelperResult, effect: Effect) returns (ok: bool)
      modifies this`results, this`trace
      ensures ok == effect.Done?
      ensures results == (if effect.NotDone? then old(results) else old(results) + [result])
              && trace == old(trace) + [Writing(result)]
    {
      if !effect.NotDone? {
        results := results + [result];
      }
      trace := trace + [Writing(result)];
      ok := effect.Done?;
    }

    /** The rollback closure. */
    method Rollback(r: Request, previous: string, s: Script) returns (result: HelperResult)
      modifies this`link, this`trace, this`results
      ensures View(Idle) == Concluded(checks, old(View(RollingBack(r, previous))), s)
      ensures result.code != Applied
      ensures trace != [] && trace[|trace| - 1] == Writing(result)
    {
      var switched := SwitchTo(previous, s.switch2);
      var restarted := RestartAgent(s.restart2);
      result := HelperResult(r, RolledBack);
      if !switched || !restarted {
        result := HelperResult(r, RollbackFailed);
      }
      var _ := Write(result, s.report);
    }

    method ApplyVerifiedUpdate(r: Request, s: Script) returns (result: HelperResult, ok: bool)
      modifies this`link, this`store, this`trace, this`results
      ensures View(Idle) == Transaction(checks, old(View(Ready(r, link))), s)
      ensures result == HelperResult(r, CodeOf(old(View(Ready(r, link))), s, r))
      ensures ok <==> result.code == Applied && s.report.Done?
    {
      hide CleanName, RetainLoop, Concluded, Tried, CodeOf;
      ghost var h := View(Ready(r, link));
      LastIsResult(checks, h, s, r);
      var previous := link;
      result := HelperResult(r, NotApplied);
      var installed := InstallArtifact(r.manifest.version, s.install);
      if installed.None? || installed.value == previous {
        if !s.install.TargetUnreadable? {
          trace := trace + [Installing(false)];
        }
        assert View(Reporting(result)) == Next(checks, Next(checks, h, Install(s.install)), Switch(s.switch1));
        DecidedEarly(checks, h, s);
        hide Next;
        var _ := Write(result, s.report);
        return result, false;
      }
      trace := trace + [Installing(true)];
      var switched := SwitchTo(r.manifest.version, s.switch1);
      if !switched {
        assert View(Reporting(result)) == Next(checks, Next(checks, h, Install(s.install)), Switch(s.switch1));
        DecidedEarly(checks, h, s);
        hide Next;
        var _ := Write(result, s.report);
        return result, false;
      }
      assert View(Switched(r, previous)) == Next(checks, Next(checks, h, Install(s.install)), Switch(s.switch1));
      result, ok := RestartAndProve(r, previous, s);
    }

    /** ApplyVerifiedUpdate once the switch has succeeded. */
    method RestartAndProve(r: Request, previous: string, s: Script) returns (result: HelperResult, ok: bool)
      modifies this`link, this`store, this`trace, this`results
      ensures View(Idle) == Concluded(checks, Tried(checks, old(View(Switched(r, previous))), s), s)
      ensures trace != [] && trace[|trace| - 1] == Writing(result)
      ensures ok <==> result.code == Applied && s.report.Done?
    {
      hide CleanName, RetainLoop, Concluded, Tried;
      ghost var h := View(Switched(r, previous));
      var restarted := RestartAgent(s.restart1);
      TriedFrom(checks, h, s);
      if !restarted {
        assert View(RollingBack(r, previous)) == Tried(checks, h, s);
        result := Rollback(r, previous, s);
        return result, false;
      }
      trace := trace + [Proving(s.proof)];
      if !s.proof {
        assert View(RollingBack(r, previous)) == Tried(checks, h, s);
        result := Rollback(r, previous, s);
        return result, false;
      }
      var retained := RetainVersions(r.manifest.version, previous, s.order, s.removals, s.syncOk);
      if !retained {
        assert View(RollingBack(r, previous)) == Tried(checks, h, s);
        result := Rollback(r, previous, s);
        return result, false;
      }
      result := HelperResult(r, Applied);
      assert View(Reporting(result)) == Tried(checks, h, s);
      DecidedConcludes(checks, View(Reporting(result)), s);
      ok := Write(result, s.report);
    }

    /** Reject or quarantine: move the claimed file aside. */
    method MoveAside(effect: Effect) returns (ok: bool)
      modifies this`claimed, this`rejected
      ensures ok == effect.Done?
      ensures if effect.NotDone? then claimed == old(claimed) && rejected == old(rejected)
              else claimed == None && rejected == old(claimed)
    {
      if !effect.NotDone? {
        claimed, rejected := None, claimed;
      }
      ok := effect.Done?;
    }

    method Claim(x: Faults) returns (body: Option<Body>, ok: bool)
      modifies this`pending, this`claimed
      ensures body == ClaimedBody(old(OnDisk()), x) && (body.Some? ==> claimed == body)
      ensures OnDisk() == if x.statOk && old(claimed).None? && old(pending).Some? && !x.claim.NotDone?
                          then Files(None, old(pending), rejected) else old(OnDisk())
      ensures body.Some? ==> ok
      ensures body.None? ==> (ok <==> x.statOk && old(claimed).None? && old(pending).None?)
    {
      if !x.statOk {
        return None, false;
      }
      if claimed.None? {
        if pending.None? {
          return None, true;
        }
        if !x.claim.NotDone? {
          pending, claimed := None, pending;
        }
        if !x.claim.Done? {
          return None, false;
        }
      }
      return claimed, true;
    }

    /** One helper run: a claimed file left by an earlier run comes first; an undecodable file is moved aside without a
        result; a refused one with a canonical id is moved aside and then reported; an accepted one stays claimed. */
    method ProcessPendingUpdate(o: Options, x: Faults, s: Script) returns (ok: bool)
      modifies this`link, this`store, this`trace, this`results, this`pending, this`claimed, this`rejected
      ensures OnDisk() == FilesAfter(checks, o, old(link), old(OnDisk()), x)
      ensures View(Idle)
              == After(checks, old(View(Idle)),
                       RunEvents(checks, o, old(link), ClaimedBody(old(OnDisk()), x), x, s)).(phase := Idle)
      ensures old(HostInv(View(Idle))) ==> HostInv(View(Idle)) && AtMost(old(link), link)
      ensures var body := ClaimedBody(old(OnDisk()), x);
              ok <==> (x.statOk && old(claimed).None? && old(pending).None?)
                      || (&& body.Some? && body.value.Decoded?
                          && ValidateRequest(checks, o, body.value.r, old(link)).None?
                          && CodeOf(old(View(Ready(body.value.r, link))), s, body.value.r) == Applied
                          && s.report.Done?)
    {
      hide ValidateRequest, Transaction, HostInv, AtMost, CodeOf;
      if HostInv(View(Idle)) {
        RunNeverDowngrades(checks, View(Idle), RunEvents(checks, o, link, ClaimedBody(OnDisk(), x), x, s));
      }
      ghost var h := View(Idle);
      var body;
      body, ok := Claim(x);
      if body.None? {
        return;
      }
      if !body.value.Decoded? {
        var _ := MoveAside(x.reject);
        return false;
      }
      var r := body.value.r;
      if ValidateRequest(checks, o, r, link).Some? {
        ok := Refuse(r, o, x);
        return;
      }
      assert View(Ready(r, link)) == Next(checks, h, Offer(r, o));
      TransactionIsRun(checks, View(Ready(r, link)), s);
      assert ([Offer(r, o)] + TransactionEvents(s))[1..] == TransactionEvents(s);
      hide Next;
      var result;
      result, ok := ApplyVerifiedUpdate(r, s);
    }

    method Refuse(r: Request, o: Options, x: Faults) returns (ok: bool)
      requires ValidateRequest(checks, o, r, link).Some?
      modifies this`trace, this`results, this`claimed, this`rejected
      ensures !ok
      ensures if x.reject.NotDone? then claimed == old(claimed) && rejected == old(rejected)
              else claimed == None && rejected == old(claimed)
      ensures View(Idle)
              == After(checks, old(View(Idle)),
                       if x.reject.Done? then [Offer(r, o), WriteResult(x.report)]
                       else [Offer(r, o), Crash]).(phase := Idle)
    {
      hide ValidateRequest, CanonicalUUID;
      ghost var h := View(Idle);
      TwoSteps(checks, h, Offer(r, o), WriteResult(x.report));
      TwoSteps(checks, h, Offer(r, o), Crash);
      ok := MoveAside(x.reject);
      if ok && CanonicalUUID(r.commandId) {
        var _ := Write(HelperResult(r, Rejected), x.report);
      }
      ok := false;
    }
  }
}
