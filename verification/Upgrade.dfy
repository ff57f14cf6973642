/** The privileged upgrade (internal/update/helper.go, root.go, state.go): which requests pass, the
    transaction's primitive effects, and runs of them in which any effect may fail or the helper may die. */
module Upgrade {
  import opened Wrappers
  import opened Semver

  datatype Manifest = Manifest(
    version: string, os: string, arch: string, byteSize: int, sha256: string, artifactUrl: string,
    minimumPanelVersion: string, controlVersion: string, issuedAt: int, expiresAt: int)

  datatype Envelope = Envelope(
    commandId: string, agentId: string, action: string, controlVersion: string, messageType: string, issuedAt: int,
    expiresAt: int, payload: string, signature: string)

  datatype Request = Request(
    artifactBasename: string, manifest: Manifest, signature: string, previousVersion: string,
    agentId: string, commandId: string, command: Envelope)

  datatype Payload = Payload(manifest: Manifest, signature: string, panelVersion: string)

  /** Checks whose inside is not modelled: signatures, hashes, URLs, base64, JSON and the artifact file. */
  datatype Checks = Checks(
    manifestSigned: (Manifest, string) -> bool, commandSigned: Envelope -> bool,
    decodePayload: string -> Option<Payload>,
    signatureEncoded: string -> bool, hashSpelled: string -> bool, urlAllowed: string -> bool,
    artifact: string -> Option<string>, hashMatches: (string, string) -> bool)

  datatype Options = Options(os: string, arch: string, controlVersion: string, agentId: string, now: int)

  const MAX_ARTIFACT_BYTES: int := 33554432
  const DAY: int := 86400

  datatype Error =
    | BadBasename | BadIdentity | BadEnvelope | BadPayload | BadSignature | NoArtifact | BadVersion | Downgrade
    | BadPlatform
    | BadSize | BadHash | BadUrl | BadControlVersion | BadPanelVersion | Expired | IssuedInFuture

  predicate AtLeast(a: Version, b: Version) {
    !Less(a, b)
  }

  function VerifyManifest(c: Checks, m: Manifest, signature: string, current: string, panel: string, o: Options,
                          artifact: string): Option<Error> {
    if !c.manifestSigned(m, signature) then Some(BadSignature)
    else if ParseSemver(m.version).None? then Some(BadVersion)
    else if ParseSemver(current).None? || !Less(ParseSemver(current).value, ParseSemver(m.version).value) then
        Some(Downgrade)
    else if m.os == "" || m.arch == "" || m.os != o.os || m.arch != o.arch then Some(BadPlatform)
    else if m.byteSize <= 0 || m.byteSize > MAX_ARTIFACT_BYTES then Some(BadSize)
    else if !c.hashSpelled(m.sha256) then Some(BadHash)
    else if !c.urlAllowed(m.artifactUrl) then Some(BadUrl)
    else if o.controlVersion == "" || m.controlVersion != o.controlVersion then Some(BadControlVersion)
    else if ParseSemver(m.minimumPanelVersion).None? || ParseSemver(panel).None?
            || !AtLeast(ParseSemver(panel).value, ParseSemver(m.minimumPanelVersion).value) then Some(BadPanelVersion)
    else if m.expiresAt <= o.now || m.expiresAt <= m.issuedAt then Some(Expired)
    else if m.issuedAt > o.now + 300 then Some(IssuedInFuture)
    else if m.expiresAt - m.issuedAt > DAY then Some(Expired)
    else if |artifact| != m.byteSize then Some(BadSize)
    else if !c.hashMatches(artifact, m.sha256) then Some(BadHash)
    else None
  }

  predicate SafeBasename(s: string) {
    s != "" && s != "." && s != ".." && |s| <= 255
    && forall i :: 0 <= i < |s| ==> s[i] != '/' && s[i] != '\\' && s[i] != '\r' && s[i] != '\n' && s[i] != '\0'
  }

  predicate CanonicalUUID(s: string) {
    |s| == 36 && forall i :: 0 <= i < 36 ==>
      if i == 8 || i == 13 || i == 18 || i == 23 then s[i] == '-' else '0' <= s[i] <= '9' || 'a' <= s[i] <= 'f'
  }

  function ValidateRequest(c: Checks, o: Options, r: Request, current: string): Option<Error> {
    if !SafeBasename(r.artifactBasename) then Some(BadBasename)
    else if r.previousVersion != current || r.agentId == "" || r.agentId != o.agentId || !CanonicalUUID(r.agentId)
        || !CanonicalUUID(r.commandId)
    then Some(BadIdentity)
    else if r.command.commandId != r.commandId || r.command.agentId != r.agentId || r.command.action != "upgrade"
            || r.command.controlVersion != o.controlVersion || r.command.messageType != "command"
            || r.command.expiresAt <= r.command.issuedAt || !c.commandSigned(r.command)
    then Some(BadEnvelope)
    else
      match c.decodePayload(r.command.payload)
      case None => Some(BadPayload)
      case Some(p) =>
        if p.manifest != r.manifest || p.signature != r.signature || p.panelVersion == "" then Some(BadPayload)
        else if !c.signatureEncoded(r.signature) then Some(BadSignature)
        else
          match c.artifact(r.artifactBasename)
          case None => Some(NoArtifact)
          case Some(artifact) => VerifyManifest(c, r.manifest, r.signature, current, p.panelVersion, o, artifact)
  }

  /** What passing the gate means for the transaction: an upgrade of exactly the version now installed. */
  ghost predicate Upgrades(r: Request, current: string) {
    && r.previousVersion == current
    && ParseSemver(current).Some? && ParseSemver(r.manifest.version).Some?
    && Less(ParseSemver(current).value, ParseSemver(r.manifest.version).value)
  }

  /** The strict gate: what passes is newer than what is installed, and was ordered by a signed command whose
      payload names this very manifest, itself signed, fresh and matching the artifact on disk. */
  lemma GateOnlyUpgrades(c: Checks, o: Options, r: Request, current: string)
    requires ValidateRequest(c, o, r, current).None?
    ensures Upgrades(r, current)
    ensures var from, to := ParseSemver(current).value, ParseSemver(r.manifest.version).value;
            from[0] < to[0] || (from[0] == to[0] && from[1] < to[1])
            || (from[0] == to[0] && from[1] == to[1] && from[2] < to[2])
    ensures c.commandSigned(r.command) && r.command.agentId == o.agentId && r.command.commandId == r.commandId
    ensures c.decodePayload(r.command.payload).Some? && c.decodePayload(r.command.payload).value.manifest == r.manifest
    ensures c.manifestSigned(r.manifest, r.signature) && o.now < r.manifest.expiresAt <= r.manifest.issuedAt + DAY
    ensures c.artifact(r.artifactBasename).Some?
            && c.hashMatches(c.artifact(r.artifactBasename).value, r.manifest.sha256)
  {
    LessMeans(ParseSemver(current).value, ParseSemver(r.manifest.version).value);
    hide ParseSemver, Less, CanonicalUUID, SafeBasename;
  }

  /** A manifest passes exactly if it is signed, newer than what is installed, for this platform and protocol, supported
      by the Panel, of 1 octet to 32 MiB, not expired, valid for a day at most, no more than five minutes early, and the
      artifact has its size and hash. */
  lemma ManifestPassesIff(c: Checks, m: Manifest, signature: string, current: string, panel: string, o: Options,
                          artifact: string)
    ensures VerifyManifest(c, m, signature, current, panel, o, artifact).None? <==>
            && c.manifestSigned(m, signature) && Below(current, m.version)
            && m.os == o.os && m.os != "" && m.arch == o.arch && m.arch != ""
            && 1 <= m.byteSize <= 33554432 && c.hashSpelled(m.sha256) && c.urlAllowed(m.artifactUrl)
            && m.controlVersion == o.controlVersion && o.controlVersion != ""
            && AtMost(m.minimumPanelVersion, panel)
            && o.now < m.expiresAt && m.issuedAt < m.expiresAt <= m.issuedAt + 86400 && m.issuedAt <= o.now + 300
            && |artifact| == m.byteSize && c.hashMatches(artifact, m.sha256)
  {
    hide ParseSemver, Less;
  }

  /** The whole gate, both ways: a request passes exactly if its names are sound, its signed command is for this agent
      and names this very manifest, and the manifest passes with the file of that name. */
  lemma GatePassesIff(c: Checks, o: Options, r: Request, current: string)
    ensures ValidateRequest(c, o, r, current).None? <==>
            var payload, artifact := c.decodePayload(r.command.payload), c.artifact(r.artifactBasename);
            && SafeBasename(r.artifactBasename)
            && r.previousVersion == current && r.agentId == o.agentId && CanonicalUUID(r.agentId)
            && CanonicalUUID(r.commandId)
            && r.command.commandId == r.commandId && r.command.agentId == r.agentId && r.command.action == "upgrade"
            && r.command.controlVersion == o.controlVersion && r.command.messageType == "command"
            && r.command.issuedAt < r.command.expiresAt && c.commandSigned(r.command)
            && payload.Some? && payload.value.manifest == r.manifest && payload.value.signature == r.signature
            && payload.value.panelVersion != "" && c.signatureEncoded(r.signature)
            && artifact.Some?
            && VerifyManifest(c, r.manifest, r.signature, current, payload.value.panelVersion, o,
                              artifact.value).None?
  {
    assert CanonicalUUID(r.agentId) ==> r.agentId != "";
    hide VerifyManifest, CanonicalUUID, SafeBasename;
  }

  /** Eight, four, four, four and twelve lower-case hexadecimal digits. */
  lemma CanonicalUUIDMeans(s: string)
    ensures CanonicalUUID(s) <==>
            && |s| == 36 && s[8] == '-' && s[13] == '-' && s[18] == '-' && s[23] == '-'
            && forall i :: 0 <= i < 36 && i != 8 && i != 13 && i != 18 && i != 23 ==> s[i] in "0123456789abcdef"
  {
    forall x: char ensures x in "0123456789abcdef" <==> '0' <= x <= '9' || 'a' <= x <= 'f' {
      HexDigits(x);
    }
  }

  lemma HexDigits(x: char)
    ensures x in "0123456789abcdef" <==> '0' <= x <= '9' || 'a' <= x <= 'f'
  {
    var hex := "0123456789abcdef";
    if '0' <= x <= '9' { assert hex[x as int - '0' as int] == x; }
    if 'a' <= x <= 'f' { assert hex[x as int - 'a' as int + 10] == x; }
  }

  /** A file name of 1 to 255 characters without separators, line ends and NUL, and neither of the two dot names. */
  lemma SafeBasenameMeans(s: string)
    ensures SafeBasename(s) <==>
            1 <= |s| <= 255 && s != "." && s != ".." && '/' !in s && '\\' !in s && '\r' !in s && '\n' !in s
            && '\0' !in s
  {
  }

  /** The two comparisons of version strings, by the first of the three numbers that differs. */
  lemma BelowMeans(a: string, b: string)
    ensures Below(a, b) <==>
            && ParseSemver(a).Some? && ParseSemver(b).Some?
            && var x, y := ParseSemver(a).value, ParseSemver(b).value;
               x[0] < y[0] || (x[0] == y[0] && x[1] < y[1]) || (x[0] == y[0] && x[1] == y[1] && x[2] < y[2])
    ensures AtMost(a, b) <==> ParseSemver(a).Some? && (Below(a, b) || ParseSemver(a) == ParseSemver(b))
  {
    hide ParseSemver, Less;
    if ParseSemver(a).Some? && ParseSemver(b).Some? {
      var x, y := ParseSemver(a).value, ParseSemver(b).value;
      LessMeans(x, y);
      LessMeans(y, x);
      assert x[0] == y[0] && x[1] == y[1] && x[2] == y[2] ==> x == y;
    }
  }

  // ---------- version directory names ----------

  /** Install and Retain reject a name containing one of these. The set is written as a raw string in the source,
      so its escapes are not escapes: the characters r, n, x and 0 are themselves in it. */
  const REFUSED: string := "/\\\\\\r\\n\\x00"

  predicate CleanName(name: string) {
    name != "" && forall i :: 0 <= i < |name| ==> name[i] !in REFUSED
  }

  lemma RefusedCharacters()
    ensures REFUSED == ['/', '\\', '\\', '\\', 'r', '\\', 'n', '\\', 'x', '0', '0']
  {
  }

  ghost predicate VersionCharacters(s: string) {
    forall i :: 0 <= i < |s| ==> IsDigit(s[i]) || s[i] == '.'
  }

  lemma ConcatCharacters(a: string, b: string)
    requires VersionCharacters(a) && VersionCharacters(b)
    ensures VersionCharacters(a + "." + b)
  {
  }

  lemma FormatCharacters(v: Version)
    ensures VersionCharacters(Format(v)) && Format(v) != ""
  {
    ConcatCharacters(Digits(v[0]), Digits(v[1]));
    ConcatCharacters(Digits(v[0]) + "." + Digits(v[1]), Digits(v[2]));
  }

  /** Among well-formed versions the name check refuses exactly those with a digit 0. */
  lemma CleanMeansZeroFree(name: string)
    requires ParseSemver(name).Some?
    ensures CleanName(name) <==> '0' !in name
  {
    hide ParseSemver, Format;
    var v := ParseSemver(name).value;
    ParsedIsCanonical(name, v);
    FormatCharacters(v);
    CleanSpelling(name);
  }

  lemma CleanSpelling(name: string)
    requires VersionCharacters(TrimV(name)) && TrimV(name) != ""
    ensures CleanName(name) <==> '0' !in name
  {
    RefusedCharacters();
    forall i | 0 <= i < |name| ensures name[i] in REFUSED <==> name[i] == '0' {
      if i > 0 || name == TrimV(name) {
        var t := TrimV(name);
        assert name[i] == if name == t then t[i] else t[i - 1];
      }
    }
  }

  // ---------- primitive effects ----------

  /** CurrentTarget fails, or Install does, possibly after making the directory, or both succeed. */
  datatype InstallEffect = TargetUnreadable | InstallFailed(madeDirectory: bool) | Stored

  datatype Code = Applied | NotApplied | RolledBack | RollbackFailed | Rejected

  datatype HelperResult = HelperResult(request: Request, code: Code)

  datatype Act = Installing(stored: bool) | Switching(target: string, ok: bool) | Restarting(ok: bool)
               | Proving(ok: bool) | Retaining(ok: bool) | Writing(result: HelperResult)

  datatype Phase =
    | Idle
    | Ready(r: Request, prev: string)
    | Placed(r: Request, prev: string)
    | Switched(r: Request, prev: string)
    | Started(r: Request, prev: string)
    | Proven(r: Request, prev: string)
    | RollingBack(r: Request, prev: string)
    | RestartingOld(r: Request, prev: string, switchOk: bool)
    | Reporting(result: HelperResult)

  /** The symlink's version, the version directories, every result ever written and what was attempted. */
  datatype Host = Host(link: string, store: set<string>, results: seq<HelperResult>, trace: seq<Act>, phase: Phase)

  datatype Event =
    | Offer(r: Request, o: Options)
    | Install(install: InstallEffect)
    | Switch(effect: Effect)
    | Restart(ok: bool)
    | WaitProof(ok: bool)
    | Retain(order: seq<string>, removals: nat, syncOk: bool)
    | WriteResult(effect: Effect)
    | Crash

  /** The loop of Retain over the directory listing; the removals-th RemoveAll fails. */
  function RetainLoop(store: set<string>, order: seq<string>, keep: set<string>, removals: nat): (set<string>, bool)
    decreases |order|
  {
    if order == [] then (store, true)
    else if order[0] in keep then RetainLoop(store, order[1..], keep, removals)
    else if !CleanName(order[0]) || removals == 0 then (store, false)
    else RetainLoop(store - {order[0]}, order[1..], keep, removals - 1)
  }

  function Relinked(link: string, target: string, e: Effect): string {
    if e.NotDone? then link else target
  }

  function Next(c: Checks, h: Host, e: Event): Host {
    match (e, h.phase)
    case (Crash, _) => h.(phase := Idle)
    case (Offer(r, o), Idle) =>
      if ValidateRequest(c, o, r, h.link).None? then h.(phase := Ready(r, h.link))
      else if CanonicalUUID(r.commandId) then h.(phase := Reporting(HelperResult(r, Rejected)))
      else h
    case (Install(effect), Ready(r, prev)) =>
      if effect.TargetUnreadable? then h.(phase := Reporting(HelperResult(r, NotApplied)))
      else if effect.Stored? && CleanName(r.manifest.version) && r.manifest.version != prev then
        h.(store := h.store + {r.manifest.version}, trace := h.trace + [Installing(true)], phase := Placed(r, prev))
      else
        h.(store := if CleanName(r.manifest.version) && (effect.Stored? || effect.madeDirectory)
                    then h.store + {r.manifest.version} else h.store,
           trace := h.trace + [Installing(false)], phase := Reporting(HelperResult(r, NotApplied)))
    case (Switch(effect), Placed(r, prev)) =>
      h.(link := Relinked(h.link, r.manifest.version, effect),
         trace := h.trace + [Switching(r.manifest.version, effect.Done?)],
         phase := if effect.Done? then Switched(r, prev) else Reporting(HelperResult(r, NotApplied)))
    case (Restart(ok), Switched(r, prev)) =>
      h.(trace := h.trace + [Restarting(ok)], phase := if ok then Started(r, prev) else RollingBack(r, prev))
    case (WaitProof(ok), Started(r, prev)) =>
      h.(trace := h.trace + [Proving(ok)], phase := if ok then Proven(r, prev) else RollingBack(r, prev))
    case (Retain(order, removals, syncOk), Proven(r, prev)) =>
      var (store, removed) := RetainLoop(h.store, order, {r.manifest.version, prev}, removals);
      var ok := removed && syncOk;
      h.(store := store, trace := h.trace + [Retaining(ok)],
         phase := if ok then Reporting(HelperResult(r, Applied)) else RollingBack(r, prev))
    case (Switch(effect), RollingBack(r, prev)) =>
      h.(link := Relinked(h.link, prev, effect), trace := h.trace + [Switching(prev, effect.Done?)],
         phase := RestartingOld(r, prev, effect.Done?))
    case (Restart(ok), RestartingOld(r, prev, switchOk)) =>
      h.(trace := h.trace + [Restarting(ok)],
         phase := Reporting(HelperResult(r, if switchOk && ok then RolledBack else RollbackFailed)))
    case (WriteResult(effect), Reporting(result)) =>
      h.(results := if effect.NotDone? then h.results else h.results + [result],
         trace := h.trace + [Writing(result)], phase := Idle)
    case _ => h
  }

  function After(c: Checks, h: Host, events: seq<Event>): Host
    decreases |events|
  {
    if events == [] then h else After(c, Next(c, h, events[0]), events[1..])
  }

  // ---------- safety over every run ----------

  predicate AtMost(a: string, b: string) {
    ParseSemver(a).Some? && ParseSemver(b).Some? && !Less(ParseSemver(b).value, ParseSemver(a).value)
  }

  predicate Below(a: string, b: string) {
    ParseSemver(a).Some? && ParseSemver(b).Some? && Less(ParseSemver(a).value, ParseSemver(b).value)
  }

  lemma VersionOrder(a: string, b: string, d: string)
    ensures AtMost(a, b) && AtMost(b, d) ==> AtMost(a, d)
    ensures AtMost(a, b) && Below(b, d) ==> Below(a, d)
    ensures Below(a, b) && AtMost(b, d) ==> Below(a, d)
    ensures Below(a, b) ==> AtMost(a, b) && !AtMost(b, a)
    ensures ParseSemver(a).Some? ==> AtMost(a, a)
  {
    hide ParseSemver, Less;
    if ParseSemver(a).Some? {
      LessIsStrictOrder(ParseSemver(a).value, ParseSemver(a).value, ParseSemver(a).value);
    }
    if ParseSemver(a).Some? && ParseSemver(b).Some? {
      LessIsStrictOrder(ParseSemver(a).value, ParseSemver(b).value, ParseSemver(a).value);
      if ParseSemver(d).Some? {
        LessIsStrictOrder(ParseSemver(a).value, ParseSemver(b).value, ParseSemver(d).value);
        LessIsStrictOrder(ParseSemver(b).value, ParseSemver(d).value, ParseSemver(a).value);
        LessIsStrictOrder(ParseSemver(d).value, ParseSemver(a).value, ParseSemver(b).value);
        LessIsStrictOrder(ParseSemver(d).value, ParseSemver(b).value, ParseSemver(a).value);
      }
    }
  }

  /** The installed version a run can fall back to: what it found, or what it leaves behind. */
  function Floor(h: Host): string {
    match h.phase
    case Idle => h.link
    case Reporting(_) => h.link
    case _ => h.phase.prev
  }

  ghost predicate InFlight(h: Host, r: Request, prev: string) {
    r.previousVersion == prev && Below(prev, r.manifest.version) && prev in h.store
  }

  ghost predicate PhaseOk(h: Host) {
    match h.phase
    case Idle => true
    case Ready(r, prev) => InFlight(h, r, prev) && h.link == prev
    case Placed(r, prev) =>
      InFlight(h, r, prev) && h.link == prev && r.manifest.version in h.store && CleanName(r.manifest.version)
    case RestartingOld(r, prev, switchOk) =>
      InFlight(h, r, prev) && (h.link == prev || (h.link == r.manifest.version && !switchOk))
    case Reporting(result) =>
      result.code == Applied ==>
        h.link == result.request.manifest.version && CleanName(result.request.manifest.version)
        && Below(result.request.previousVersion, result.request.manifest.version)
        && forall k :: 0 <= k < |h.results| && h.results[k].code == Applied ==>
              AtMost(h.results[k].request.manifest.version, result.request.previousVersion)
    case _ =>
      && InFlight(h, h.phase.r, h.phase.prev)
      && h.link == h.phase.r.manifest.version && CleanName(h.phase.r.manifest.version)
  }

  /** Applied results stay at or below the floor, each starting no lower than the one before ended. */
  ghost predicate ResultsOk(h: Host) {
    && (forall k :: 0 <= k < |h.results| && h.results[k].code == Applied ==>
          AtMost(h.results[k].request.manifest.version, Floor(h))
          && Below(h.results[k].request.previousVersion, h.results[k].request.manifest.version)
          && CleanName(h.results[k].request.manifest.version))
    && (forall j, k :: 0 <= j < k < |h.results| && h.results[j].code == Applied && h.results[k].code == Applied ==>
          AtMost(h.results[j].request.manifest.version, h.results[k].request.previousVersion))
  }

  ghost predicate HostInv(h: Host) {
    && h.link in h.store && ParseSemver(h.link).Some?
    && AtMost(Floor(h), h.link)
    && PhaseOk(h) && ResultsOk(h)
  }

  lemma RetainKeeps(store: set<string>, order: seq<string>, keep: set<string>, removals: nat)
    ensures store * keep <= RetainLoop(store, order, keep, removals).0 <= store
    decreases |order|
  {
  }

  /** Retention removes exactly the listed names that are not kept, all of them if it succeeds. */
  lemma {:induction false} RetainLeaves(store: set<string>, order: seq<string>, keep: set<string>, removals: nat)
    ensures var (left, ok) := RetainLoop(store, order, keep, removals);
            && (ok ==> left == set v | v in store && (v in keep || v !in order))
            && forall v :: v in store && v !in left ==> v in order && v !in keep && CleanName(v)
    decreases |order|
  {
    hide CleanName;
    if order != [] {
      assert forall v :: v in order <==> v == order[0] || v in order[1..] by {
        assert order == [order[0]] + order[1..];
      }
      if order[0] in keep {
        RetainLeaves(store, order[1..], keep, removals);
      } else if CleanName(order[0]) && removals > 0 {
        RetainLeaves(store - {order[0]}, order[1..], keep, removals - 1);
      }
    }
  }

  /** Results recorded below the old floor stay below a higher one. */
  lemma FloorRises(h: Host, h': Host)
    requires ResultsOk(h) && h'.results == h.results && AtMost(Floor(h), Floor(h'))
    ensures ResultsOk(h')
  {
    hide AtMost, Below, CleanName, Floor;
    forall k | 0 <= k < |h'.results| && h'.results[k].code == Applied
      ensures AtMost(h'.results[k].request.manifest.version, Floor(h'))
    {
      VersionOrder(h.results[k].request.manifest.version, Floor(h), Floor(h'));
    }
  }

  lemma PhaseStep(c: Checks, h: Host, e: Event)
    requires HostInv(h) && !e.WriteResult?
    ensures var h' := Next(c, h, e);
            h'.results == h.results && h'.link in h'.store && ParseSemver(h'.link).Some? && PhaseOk(h')
            && AtMost(Floor(h), Floor(h')) && AtMost(Floor(h'), h'.link)
  {
    hide ParseSemver, Less, CleanName, ValidateRequest, CanonicalUUID, RetainLoop;
    VersionOrder(h.link, h.link, h.link);
    VersionOrder(Floor(h), h.link, h.link);
    if !h.phase.Idle? && !h.phase.Reporting? {
      VersionOrder(h.phase.prev, h.phase.prev, h.phase.r.manifest.version);
      VersionOrder(h.phase.prev, h.phase.r.manifest.version, h.phase.r.manifest.version);
      VersionOrder(h.phase.r.manifest.version, h.phase.prev, h.phase.prev);
    }
    match (e, h.phase)
    case (Offer(r, o), Idle) => if ValidateRequest(c, o, r, h.link).None? { GateOnlyUpgrades(c, o, r, h.link); }
    case (Retain(order, removals, syncOk), Proven(r, prev)) =>
      RetainKeeps(h.store, order, {r.manifest.version, prev}, removals);
    case _ =>
  }

  lemma WriteStep(c: Checks, h: Host, effect: Effect)
    requires HostInv(h) && h.phase.Reporting?
    ensures HostInv(Next(c, h, WriteResult(effect)))
  {
    hide AtMost, Below, CleanName;
    var h', result := Next(c, h, WriteResult(effect)), h.phase.result;
    VersionOrder(h.link, h.link, h.link);
    if !effect.NotDone? && result.code == Applied {
      VersionOrder(h.link, h.link, h.link);
      assert h'.results[|h.results|] == result;
    }
  }

  /** Every primitive effect keeps the link on an existing directory and never lowers the floor. */
  lemma NextKeepsInv(c: Checks, h: Host, e: Event)
    requires HostInv(h)
    ensures HostInv(Next(c, h, e)) && AtMost(Floor(h), Floor(Next(c, h, e)))
  {
    if e.WriteResult? {
      VersionOrder(Floor(h), Floor(h), h.link);
      FloorParses(h);
      if h.phase.Reporting? { WriteStep(c, h, e.effect); }
    } else {
      hide PhaseOk, AtMost, ResultsOk;
      PhaseStep(c, h, e);
      FloorRises(h, Next(c, h, e));
    }
  }

  lemma FloorParses(h: Host)
    requires HostInv(h)
    ensures ParseSemver(Floor(h)).Some? && AtMost(Floor(h), Floor(h))
  {
    VersionOrder(Floor(h), Floor(h), h.link);
  }

  /** A freshly installed host: the link names an existing directory with a proper version. */
  ghost predicate Installed(h: Host) {
    h.phase == Idle && h.results == [] && h.link in h.store && ParseSemver(h.link).Some?
  }

  lemma {:induction false} InvFrom(c: Checks, h: Host, events: seq<Event>)
    requires HostInv(h)
    ensures HostInv(After(c, h, events)) && AtMost(Floor(h), Floor(After(c, h, events)))
    decreases |events|
  {
    hide HostInv, AtMost, Floor, Next;
    FloorParses(h);
    if events != [] {
      NextKeepsInv(c, h, events[0]);
      InvFrom(c, Next(c, h, events[0]), events[1..]);
      VersionOrder(Floor(h), Floor(Next(c, h, events[0])), Floor(After(c, h, events)));
    }
  }

  lemma ArithmeticOrder(a: string, b: string)
    requires ParseSemver(a).Some? && ParseSemver(b).Some?
    ensures var from, to := ParseSemver(a).value, ParseSemver(b).value;
            AtMost(a, b) ==>
              from[0] <= to[0] && (from[0] == to[0] ==> from[1] <= to[1])
              && (from[0] == to[0] && from[1] == to[1] ==> from[2] <= to[2])
  {
    LessMeans(ParseSemver(b).value, ParseSemver(a).value);
    hide ParseSemver, Less;
  }

  /** Across any number of helper runs, whatever fails or dies in between, the installed version never goes
      down from one run boundary to a later one and the link always names a directory that exists. */
  lemma NeverDowngraded(c: Checks, start: Host, first: seq<Event>, more: seq<Event>)
    requires Installed(start)
    requires After(c, start, first).phase.Idle? && After(c, After(c, start, first), more).phase.Idle?
    ensures var earlier, later := After(c, start, first), After(c, After(c, start, first), more);
            AtMost(earlier.link, later.link) && earlier.link in earlier.store && later.link in later.store
    ensures var earlier, later := After(c, start, first), After(c, After(c, start, first), more);
            && ParseSemver(earlier.link).Some? && ParseSemver(later.link).Some?
            && var from, to := ParseSemver(earlier.link).value, ParseSemver(later.link).value;
               from[0] <= to[0] && (from[0] == to[0] ==> from[1] <= to[1])
               && (from[0] == to[0] && from[1] == to[1] ==> from[2] <= to[2])
  {
    VersionOrder(start.link, start.link, start.link);
    InvFrom(c, start, first);
    InvFrom(c, After(c, start, first), more);
    ArithmeticOrder(After(c, start, first).link, After(c, After(c, start, first), more).link);
    hide After, PhaseOk, ResultsOk, ParseSemver, Less;
  }

  /** Even in the middle of a run, and after a switch that failed halfway, link and fallback exist on disk. */
  lemma LinkNeverDangles(c: Checks, start: Host, events: seq<Event>)
    requires Installed(start)
    ensures var h := After(c, start, events); h.link in h.store && Floor(h) in h.store
  {
    hide HostInv, After, Floor;
    InstalledInv(start);
    InvFrom(c, start, events);
    BothExist(After(c, start, events));
  }

  lemma BothExist(h: Host)
    requires HostInv(h)
    ensures h.link in h.store && Floor(h) in h.store
  {
    hide ParseSemver, Less, ResultsOk, AtMost, Below, CleanName;
  }

  /** Successful upgrades climb strictly, so no request (in fact no target version) is applied twice, however
      often the same claimed file is processed again. */
  lemma AppliedOnce(c: Checks, start: Host, events: seq<Event>, j: nat, k: nat)
    requires Installed(start)
    requires var results := After(c, start, events).results;
             j < k < |results| && results[j].code == Applied && results[k].code == Applied
    ensures var results := After(c, start, events).results;
            Below(results[j].request.manifest.version, results[k].request.manifest.version)
                && results[j].request != results[k].request
  {
    hide After, ParseSemver, Less, PhaseOk, CleanName, Floor;
    InstalledInv(start);
    InvFrom(c, start, events);
    var results := After(c, start, events).results;
    AppliedTwo(After(c, start, events), j, k);
  }

  lemma InstalledInv(h: Host)
    requires Installed(h)
    ensures HostInv(h)
  {
    VersionOrder(h.link, h.link, h.link);
    hide ParseSemver, Less;
  }

  lemma AppliedTwo(h: Host, j: nat, k: nat)
    requires ResultsOk(h) && j < k < |h.results| && h.results[j].code == Applied && h.results[k].code == Applied
    ensures Below(h.results[j].request.manifest.version, h.results[k].request.manifest.version)
    ensures h.results[j].request != h.results[k].request
  {
    hide ParseSemver, Less, Floor, CleanName, AtMost, Below;
    var results := h.results;
    var a, b := results[j].request.manifest.version, results[k].request.manifest.version;
    VersionOrder(a, results[k].request.previousVersion, b);
    VersionOrder(a, b, a);
  }

  /** A release whose version contains the digit 0 can never be reported as applied. */
  lemma ZeroIsNeverApplied(c: Checks, start: Host, events: seq<Event>, k: nat)
    requires Installed(start) && k < |After(c, start, events).results|
             && After(c, start, events).results[k].code == Applied
    ensures '0' !in After(c, start, events).results[k].request.manifest.version
  {
    hide After, Less, ParseSemver, CleanName, PhaseOk, Floor;
    InstalledInv(start);
    InvFrom(c, start, events);
    CleanMeansZeroFree(After(c, start, events).results[k].request.manifest.version);
  }
}
