/**
 Approvals: the rule `allow` records and the effect it reports, and the rules `seed` records for
 verified entries; what such a rule really does to the approved version.
 */
module Approvals {
  import opened Basics
  import opened Json
  import opened Policy
  import opened Filter
  import opened Ledger
  import opened Database
  import opened Request
  import A = Audit
  import R = Runs
  import S = Store

  datatype ControlError =
    | NotFound
    | NothingToPinTo
    | NoTarball
    | ScanFailed(detail: string)
    | NoSuchFile(path: string)
    | OtherBytes(path: string, found: string)

  function VersionMeta(packument: Value, version: string): Option<Value> {
    var versions := DocumentVersions(packument);
    if version in versions then Some(versions[version]) else None
  }

  /** When the version came out, if the document says so in a readable way. */
  function PublishedAt(f: Foreign, packument: Value, version: string): Option<int> {
    var time := if packument.Object? then GetObject(packument.fields, "time") else None;
    if time.Some? && version in time.value then PublishTime(f, AsStr(Some(time.value[version]))) else None
  }

  function MetaHooks(f: Foreign, meta: Value): map<string, string> {
    HookMap(InstallHooks(f, meta))
  }

  // -- file pins -------------------------------------------------------------------------------------

  /** A path to pin; a digest given with it is only ever compared. */
  datatype PinRequest = PinRequest(path: string, sha256: Option<string>)

  /** A file of the published tarball, hashed by the daemon. */
  datatype ScannedFile = ScannedFile(path: string, sha256: string)

  /** Fetching and scanning a tarball by its address. */
  type Scan = string -> Result<seq<ScannedFile>, string>

  /** The first scanned file at a path. */
  function FindFile(files: seq<ScannedFile>, path: string): (r: Option<ScannedFile>)
    ensures r.Some? ==> r.value in files && r.value.path == path
    ensures r.None? ==> forall file :: file in files ==> file.path != path
  {
    if files == [] then None
    else if files[0].path == path then Some(files[0])
    else FindFile(files[1..], path)
  }

  /** What is wrong with one request: the file was not published, or its bytes are not the asserted ones. */
  function PinError(files: seq<ScannedFile>, request: PinRequest): Option<ControlError> {
    var found := FindFile(files, request.path);
    if found.None? then Some(NoSuchFile(request.path))
    else if request.sha256.Some? && request.sha256.value != found.value.sha256 then
      Some(OtherBytes(request.path, found.value.sha256))
    else None
  }

  function FirstPinError(files: seq<ScannedFile>, requests: seq<PinRequest>): (r: Option<ControlError>)
    ensures r.None? <==> forall request :: request in requests ==> PinError(files, request).None?
  {
    if requests == [] then None
    else if PinError(files, requests[0]).Some? then PinError(files, requests[0])
    else FirstPinError(files, requests[1..])
  }

  /** The digests as published, for the requested paths. */
  function PinnedFiles(files: seq<ScannedFile>, requests: seq<PinRequest>): map<string, string> {
    map request | request in requests && FindFile(files, request.path).Some? ::
      request.path := FindFile(files, request.path).value.sha256
  }

  /** The loop of `allow` over the pin requests. */
  method ResolvePins(files: seq<ScannedFile>,
                     requests: seq<PinRequest>) returns (pins: Result<map<string, string>, ControlError>)
    ensures var error := FirstPinError(files, requests);
      pins == if error.Some? then Err(error.value) else Ok(PinnedFiles(files, requests))
  {
    var resolved: map<string, string> := map[];
    assert requests[0..] == requests && requests[..0] == [];
    for i := 0 to |requests|
      invariant FirstPinError(files, requests) == FirstPinError(files, requests[i..])
      invariant resolved == PinnedFiles(files, requests[..i])
    {
      var request := requests[i];
      assert requests[i..][1..] == requests[i + 1..];
      assert requests[..i + 1] == requests[..i] + [request];
      var found := FindFile(files, request.path);
      if found.None? {
        return Err(NoSuchFile(request.path));
      }
      if request.sha256.Some? && request.sha256.value != found.value.sha256 {
        return Err(OtherBytes(request.path, found.value.sha256));
      }
      OneMorePin(files, requests[..i], request);
      resolved := resolved[found.value.path := found.value.sha256];
    }
    assert requests[..|requests|] == requests;
    return Ok(resolved);
  }

  lemma OneMorePin(files: seq<ScannedFile>, requests: seq<PinRequest>, request: PinRequest)
    requires FindFile(files, request.path).Some?
    ensures PinnedFiles(files, requests + [request]) ==
              PinnedFiles(files, requests)[request.path := FindFile(files, request.path).value.sha256]
  {
    assert forall r :: r in requests + [request] <==> r in requests || r == request;
  }

  function Pinned(scan: Scan, meta: Value,
                  requests: seq<PinRequest>): Result<Option<map<string, string>>, ControlError> {
    if requests == [] then Ok(None)
    else
      var tarball := DistField(meta, "tarball");
      if tarball.None? then Err(NoTarball)
      else
        var files := scan(tarball.value);
        if files.Err? then Err(ScanFailed(files.error))
        else
          var error := FirstPinError(files.value, requests);
          if error.Some? then Err(error.value) else Ok(Some(PinnedFiles(files.value, requests)))
  }

  /**
   A stored pin always describes published bytes. An approval that names files is accepted exactly
   when the tarball can be scanned, ships every named file and has every asserted digest; it then
   pins every named file and no other, each with the digest of the published file.
   */
  lemma PinsDescribePublishedFiles(scan: Scan, meta: Value, requests: seq<PinRequest>)
    requires requests != []
    ensures var tarball, pins := DistField(meta, "tarball"), Pinned(scan, meta, requests);
      && (pins.Ok? <==> tarball.Some? && scan(tarball.value).Ok?
                        && forall r :: r in requests ==>
                             var found := FindFile(scan(tarball.value).value, r.path);
                             found.Some? && (r.sha256.Some? ==> r.sha256.value == found.value.sha256))
      && (pins.Ok? ==>
            && pins.value.Some?
            && (forall r :: r in requests ==> r.path in pins.value.value)
            && (forall path :: path in pins.value.value ==> exists r :: r in requests && r.path == path)
            && (forall path :: path in pins.value.value ==>
                  ScannedFile(path, pins.value.value[path]) in scan(tarball.value).value)
            && (forall r :: r in requests && r.sha256.Some? ==> pins.value.value[r.path] == r.sha256.value))
  {
    var tarball, pins := DistField(meta, "tarball"), Pinned(scan, meta, requests);
    if tarball.Some? && scan(tarball.value).Ok? {
      var files := scan(tarball.value).value;
      assert forall r :: r in requests ==>
          (PinError(files, r).None? <==> var found := FindFile(files, r.path);
                                         found.Some? && (r.sha256.Some? ==> r.sha256.value == found.value.sha256));
    }
  }

  /** The rule `allow` builds: pinned to the published integrity, commands and named files. */
  function AllowRule(f: Foreign, scan: Scan, packument: Value, package: string, version: string, reason: Option<string>,
                     requests: seq<PinRequest>, actor: string): Result<NewRule, ControlError>
  {
    var meta := VersionMeta(packument, version);
    if meta.None? then Err(NotFound)
    else
      var integrity := VersionIntegrity(meta.value);
      if integrity.None? then Err(NothingToPinTo)
      else
        var pins := Pinned(scan, meta.value, requests);
        if pins.Err? then Err(pins.error)
        else
          var scripts := MetaHooks(f, meta.value);
          Ok(NewRule(package, version, Allow, integrity, Some(scripts), pins.value, reason, Some(actor)))
  }

  /** What `allow` tells the operator the approval does right now. */
  datatype Effect = NotYetAdmitted(clearsAt: int) | AdmittedWithoutHooks | AdmittedRunning(hooks: seq<Hook>)

  function EffectOf(f: Foreign, cfg: Config, meta: Value, published: Option<int>, now: int): Effect {
    var hooks := InstallHooks(f, meta);
    if hooks != [] && cfg.installScriptQuarantineDays > 0 && published.Some?
       && published.value + cfg.installScriptQuarantineDays * DAY > now
    then NotYetAdmitted(published.value + cfg.installScriptQuarantineDays * DAY)
    else if hooks == [] then AdmittedWithoutHooks
    else AdmittedRunning(hooks)
  }

  /**
   The report on the `scripts` object: not yet admitted until an instant exactly when a hook is
   declared, the floor is on, and the version was published that many days before the instant, which
   is still to come. Otherwise admitted, with exactly the declared hooks.
   */
  lemma EffectReads(f: Foreign, cfg: Config, meta: Value, published: Option<int>, now: int)
    ensures var effect := EffectOf(f, cfg, meta, published, now);
      var days, hooked := cfg.installScriptQuarantineDays, exists hook, command :: Declares(f, meta, hook, command);
      && (forall at :: effect == NotYetAdmitted(at) <==>
            hooked && days > 0 && now < at && published == Some(at - days * DAY))
      && (effect == AdmittedWithoutHooks <==> !hooked)
      && (forall hooks :: effect == AdmittedRunning(hooks) ==>
            && hooks != []
            && forall hook, command :: Hook(hook, command) in hooks <==> Declares(f, meta, hook, command))
  {
    HooksRead(f, meta);
    hide Declares, InstallHooks, Distinct, HookNames;
    var hooks := InstallHooks(f, meta);
    if hooks != [] {
      assert Hook(hooks[0].name, hooks[0].command) in hooks;
      assert Declares(f, meta, hooks[0].name, hooks[0].command);
    } else {
      assert forall hook, command :: Hook(hook, command) !in hooks;
    }
  }

  datatype Allowed = Allowed(rule: StoredRule, effect: Effect)

  datatype AllowError = Refused(error: ControlError) | Internal(detail: string)

  /** `allow` on the store: build the rule, record it with its audit row, report the effect. */
  method Approve(store: S.Store, cfg: Config, scan: Scan, packument: Value, package: string, version: string,
                 reason: Option<string>, requests: seq<PinRequest>, actor: string, now: int)
    returns (r: Result<Allowed, AllowError>)
    modifies store
    ensures var rule := AllowRule(store.f, scan, packument, package, version, reason, requests, actor);
      && (rule.Err? ==> r == Err(Refused(rule.error)) && store.Contents() == old(store.Contents()))
      && (rule.Ok? ==>
            var (after, stored) := RecordRuleAudited(store.f, store.faults, old(store.Contents()), rule.value, now);
            && store.Contents() == after
            && (stored.Err? ==> r == Err(Internal(stored.error)))
            && (stored.Ok? ==> r == Ok(Allowed(stored.value,
                  EffectOf(store.f, cfg, VersionMeta(packument, version).value,
                           PublishedAt(store.f, packument, version), now)))))
  {
    hide PinnedFiles, FirstPinError, EffectOf, PublishedAt, MetaHooks, RecordRuleAudited;
    var meta := VersionMeta(packument, version);
    if meta.None? {
      return Err(Refused(NotFound));
    }
    var integrity := VersionIntegrity(meta.value);
    if integrity.None? {
      return Err(Refused(NothingToPinTo));
    }
    var scripts := MetaHooks(store.f, meta.value);
    var pins: Option<map<string, string>> := None;
    if requests != [] {
      var tarball := DistField(meta.value, "tarball");
      if tarball.None? {
        return Err(Refused(NoTarball));
      }
      var files := scan(tarball.value);
      if files.Err? {
        return Err(Refused(ScanFailed(files.error)));
      }
      var resolved := ResolvePins(files.value, requests);
      if resolved.Err? {
        return Err(Refused(resolved.error));
      }
      pins := Some(resolved.value);
    }
    var rule := NewRule(package, version, Allow, integrity, Some(scripts), pins, reason, Some(actor));
    var stored := store.RecordRuleAudited(rule, now);
    if stored.Err? {
      return Err(Internal(stored.error));
    }
    r := Ok(Allowed(stored.value, EffectOf(store.f, cfg, meta.value, PublishedAt(store.f, packument, version), now)));
  }

  /** Whether a version's identity moved as far as the ledger knows. */
  predicate LedgerUnchanged(db: Db, package: string, version: string, meta: Value) {
    !CheckOne(db.seen, (package, version), VersionIdentity(meta)).Changed?
  }

  /** A recorded rule passes the allow gate for a version with this hash and these commands. */
  predicate Pins(f: Foreign, rule: NewRule, meta: Value) {
    rule.verdict == Allow && rule.integrity == VersionIntegrity(meta)
    && (rule.scripts.Some? ==> ScriptSetSha256(f, rule.scripts.value) == ScriptsSha256(f, meta))
  }

  /** The rule is in force: recorded under its key, at some time. */
  predicate Stands(f: Foreign, db: Db, rule: NewRule, recorded: int) {
    var key := (rule.name, rule.version);
    key in db.rules && db.rules[key] == StoreRule(f, rule, recorded)
  }

  /** The world without the rule of one key. */
  function Without(w: World, key: Key): World {
    w.(db := w.db.(rules := w.db.rules - {key}))
  }

  /** A request is answered with this version in the document. */
  ghost predicate Serves(f: Foreign, faults: Faults, w: World, q: Request, v: string) {
    var answer := Evaluated(f, faults, w, q).1;
    answer.Ok? && v in DocumentVersions(answer.value.packument)
  }

  /**
   What a rule under the document's own name admits: the ledger reports no change, the rule is an
   allow rule for this hash and these commands, and the quarantine floor does not withhold the
   version. Age, missing hash and hook gates do not count.
   */
  ghost predicate Admits(f: Foreign, db: Db, rule: NewRule, q: Request, d: Document)
    requires rule.version in d.versions
  {
    var v := rule.version;
    && LedgerUnchanged(db, q.package, v, d.versions[v])
    && Pins(f, rule, d.versions[v])
    && !UnderQuarantine(f, q.cfg, d.name, d.versions[v], Published(d, v), q.now)
  }

  lemma ServedByDecision(f: Foreign, faults: Faults, w: World, q: Request, d: Document, v: string)
    requires NoFaults(faults) && Parse(q.document) == Ok(d) && v in d.versions
    ensures Evaluated(f, faults, w, q).1.Ok?
    ensures Serves(f, faults, w, q, v) <==> AnswerDecisions(f, w.db, q, d)[v].Serve?
  {
    hide Evaluated, Outcomes, AnswerDecisions;
    EvaluatedWithoutFaults(f, faults, w, q, d);
    var decisions := AnswerDecisions(f, w.db, q, d);
    ParsedVersions(q.document, d);
    OutcomeParts(f, q.cfg, d, decisions);
    var packument := Outcomes(f, q.cfg, d, decisions).packument;
    ParsedVersions(packument, Parse(packument).value);
  }

  /** A request is decided by the ledger and by the rules under the document's name, and by no other rule. */
  lemma OnlyRulesOfTheDocumentDecide(f: Foreign, faults: Faults, a: World, b: World, q: Request, d: Document)
    requires NoFaults(faults) && Parse(q.document) == Ok(d)
    requires a.db.seen == b.db.seen
    requires forall v :: v in d.versions ==> RuleFor(a.db, (d.name, v)) == RuleFor(b.db, (d.name, v))
    ensures Evaluated(f, faults, a, q).1 == Evaluated(f, faults, b, q).1
  {
    hide Evaluated, Outcomes, BatchChecks, GateOf, RuleFor, AnswerDecisions, ObserveAll, A.RecordBlocks, Parse;
    EvaluatedWithoutFaults(f, faults, a, q, d);
    EvaluatedWithoutFaults(f, faults, b, q, d);
    forall v | v in d.versions
      ensures AnswerDecisions(f, a.db, q, d)[v] == AnswerDecisions(f, b.db, q, d)[v]
    {
      DecisionOf(f, a.db, q, d, v);
      DecisionOf(f, b.db, q, d, v);
    }
    assert AnswerDecisions(f, a.db, q, d) == AnswerDecisions(f, b.db, q, d);
  }

  /**
   What a standing rule decides, whatever name the document carries. Rules are recorded under the
   package but looked up under the document's name. If the two are the same the version is served
   exactly when the rule admits it; otherwise the rule changes nothing at all.
   */
  lemma StandingRuleDecides(f: Foreign, faults: Faults, w: World, rule: NewRule, recorded: int, q: Request, d: Document)
    requires NoFaults(faults) && Parse(q.document) == Ok(d) && rule.version in d.versions
    requires Stands(f, w.db, rule, recorded)
    ensures Evaluated(f, faults, w, q).1.Ok?
    ensures rule.name == d.name ==> (Serves(f, faults, w, q, rule.version) <==> Admits(f, w.db, rule, q, d))
    ensures rule.name != d.name ==>
              Evaluated(f, faults, w, q).1 == Evaluated(f, faults, Without(w, (rule.name, rule.version)), q).1
  {
    hide Evaluated, Serves, AnswerDecisions, Admits, StoreRule, Parse;
    ServedByDecision(f, faults, w, q, d, rule.version);
    if rule.name == d.name {
      DecisionForRuled(f, w.db, q, d, rule, recorded);
    } else {
      OnlyRulesOfTheDocumentDecide(f, faults, w, Without(w, (rule.name, rule.version)), q, d);
    }
  }

  /** What recording a rule does to the very next request, on any document. */
  lemma RecordedRuleDecides(f: Foreign, faults: Faults, w: World, rule: NewRule, recorded: int, q: Request, d: Document)
    requires NoFaults(faults) && Parse(q.document) == Ok(d) && rule.version in d.versions
    ensures var after := RecordRuleAudited(f, faults, w, rule, recorded).0;
      && Evaluated(f, faults, after, q).1.Ok?
      && (Serves(f, faults, after, q, rule.version) <==>
            if rule.name == d.name then Admits(f, w.db, rule, q, d) else Serves(f, faults, w, q, rule.version))
      && (rule.name != d.name ==> Evaluated(f, faults, after, q).1 == Evaluated(f, faults, w, q).1)
  {
    hide Evaluated, RecordRuleAudited, Pins, UnderQuarantine, Published, StoreRule, Parse, DocumentVersions;
    AuditedRuleMayStandUnaudited(f, faults, w, rule, recorded);
    var after := RecordRuleAudited(f, faults, w, rule, recorded).0;
    StandingRuleDecides(f, faults, after, rule, recorded, q, d);
    if rule.name != d.name {
      OnlyRulesOfTheDocumentDecide(f, faults, after, w, q, d);
    }
  }

  // -- what a rule pins, on the JSON ------------------------------------------------------------------

  /** The rule's hash and commands are those of this version: published text for text, declared hook for hook. */
  ghost predicate MatchesVersion(f: Foreign, rule: NewRule, meta: Value) {
    && (forall s :: rule.integrity == Some(s) <==> Publishes(meta, "integrity", s))
    && (rule.scripts.Some? ==> DeclaresExactly(f, meta, rule.scripts.value))
  }

  /**
   What an approval pins. If hashing tells different commands apart, a rule passes the allow gate of a
   version exactly when its integrity is the published one and its commands, if it has any on record,
   are exactly the declared install hooks with their commands.
   */
  lemma AllowGateReads(f: Foreign, rule: NewRule, recorded: int, meta: Value)
    requires TellsApart(f)
    ensures AllowGate(f, StoreRule(f, rule, recorded).rule, meta).Serve? <==> MatchesVersion(f, rule, meta)
    ensures Pins(f, rule, meta) <==> rule.verdict.Allow? && MatchesVersion(f, rule, meta)
  {
    IdentityReads(meta);
    hide DeclaresExactly, Publishes, VersionIdentity, VersionIntegrity, ScriptSetSha256, ScriptsSha256;
    if rule.scripts.Some? {
      ScriptsDigestReads(f, rule.scripts.value, meta);
    }
    assert rule.integrity == VersionIntegrity(meta) <==>
        (forall s :: rule.integrity == Some(s) <==> Publishes(meta, "integrity", s)) by {
      SameTexts(rule.integrity, VersionIntegrity(meta));
    }
  }

  lemma SameTexts(a: Option<string>, b: Option<string>)
    ensures a == b <==> forall s :: a == Some(s) <==> b == Some(s)
  {
    if forall s :: a == Some(s) <==> b == Some(s) {
      assert a.Some? ==> b == Some(a.value);
      assert b.Some? ==> a == Some(b.value);
    }
  }

  // -- over whole runs -------------------------------------------------------------------------------

  /** No step of the run writes a rule for this key. */
  ghost predicate RuleLeftAlone(steps: seq<R.Step>, key: Key) {
    forall i :: 0 <= i < |steps| && steps[i].RecordARule? ==> (steps[i].rule.name, steps[i].rule.version) != key
  }

  lemma {:induction false} RuleStays(f: Foreign, faults: Faults, w: World, steps: seq<R.Step>, key: Key)
    requires RuleLeftAlone(steps, key) && key in w.db.rules
    ensures var after := R.Run(f, faults, w, steps).db; key in after.rules && after.rules[key] == w.db.rules[key]
  {
    if steps != [] {
      var front, last := steps[..|steps| - 1], steps[|steps| - 1];
      assert forall i :: 0 <= i < |front| ==> front[i] == steps[i];
      RuleStays(f, faults, w, front, key);
      hide R.Apply;
      R.StepTables(f, faults, R.Run(f, faults, w, front), last);
    }
  }

  lemma {:induction false} LedgerStaysUnchanged(f: Foreign, faults: Faults, w: World, steps: seq<R.Step>, key: Key,
                                                identity: Option<string>)
    requires R.DifferingInRun(f, faults, w, steps, key, identity) == 0
    requires key in w.db.seen ==> w.db.seen[key].identity == identity
    ensures var after := R.Run(f, faults, w, steps).db; key in after.seen ==> after.seen[key].identity == identity
  {
    if steps != [] {
      var front, last := steps[..|steps| - 1], steps[|steps| - 1];
      LedgerStaysUnchanged(f, faults, w, front, key, identity);
      hide R.Apply, R.BatchOf;
      R.StepIdentity(f, faults, R.Run(f, faults, w, front), last, key, identity);
    }
  }

  /**
   A rule keeps its effect. Over every run of requests, observations, other rules, prunes and
   failures in which no rule is written for its key, it goes on deciding just so; and if no committed
   observation of the version differs either, the ledger goes on reporting no change.
   */
  lemma RuleKeepsDeciding(f: Foreign, faults: Faults, calm: Faults, w: World, rule: NewRule, recorded: int,
                          steps: seq<R.Step>, q: Request, d: Document)
    requires NoFaults(calm) && Parse(q.document) == Ok(d) && rule.version in d.versions
    requires Stands(f, w.db, rule, recorded)
    requires RuleLeftAlone(steps, (rule.name, rule.version))
    ensures var v, later := rule.version, R.Run(f, faults, w, steps);
      && Evaluated(f, calm, later, q).1.Ok?
      && (rule.name == d.name ==> (Serves(f, calm, later, q, v) <==> Admits(f, later.db, rule, q, d)))
      && (rule.name != d.name ==>
            Evaluated(f, calm, later, q).1 == Evaluated(f, calm, Without(later, (rule.name, v)), q).1)
    ensures var v, later := rule.version, R.Run(f, faults, w, steps);
      LedgerUnchanged(w.db, q.package, v, d.versions[v])
      && R.DifferingInRun(f, faults, w, steps, (q.package, v), VersionIdentity(d.versions[v])) == 0 ==>
        LedgerUnchanged(later.db, q.package, v, d.versions[v])
  {
    hide Evaluated, Serves, Admits, StoreRule, Parse, R.Run, R.DifferingInRun, VersionIdentity;
    RuleStays(f, faults, w, steps, (rule.name, rule.version));
    StandingRuleDecides(f, calm, R.Run(f, faults, w, steps), rule, recorded, q, d);
    var identity := VersionIdentity(d.versions[rule.version]);
    if LedgerUnchanged(w.db, q.package, rule.version, d.versions[rule.version])
       && R.DifferingInRun(f, faults, w, steps, (q.package, rule.version), identity) == 0 {
      LedgerStaysUnchanged(f, faults, w, steps, (q.package, rule.version), identity);
    }
  }

  /**
   What a deny rule keeps doing. Over every such run, and whatever fails in the request itself, a
   version under the document's name is withheld from every answer; under another name the rule
   changes no answer.
   */
  lemma DenyRuleKeepsDenying(f: Foreign, faults: Faults, later: Faults, w: World, rule: NewRule, recorded: int,
                             steps: seq<R.Step>, q: Request, d: Document)
    requires Parse(q.document) == Ok(d) && rule.version in d.versions && rule.verdict.Deny?
    requires Stands(f, w.db, rule, recorded) && RuleLeftAlone(steps, (rule.name, rule.version))
    ensures rule.name == d.name ==> !Serves(f, later, R.Run(f, faults, w, steps), q, rule.version)
    ensures rule.name != d.name && NoFaults(later) ==>
      var end := R.Run(f, faults, w, steps);
      Evaluated(f, later, end, q).1 == Evaluated(f, later, Without(end, (rule.name, rule.version)), q).1
  {
    hide Evaluated, Parse, R.Run, DocumentVersions;
    RuleStays(f, faults, w, steps, (rule.name, rule.version));
    var end := R.Run(f, faults, w, steps);
    if rule.name == d.name {
      R.DeniedVersionIsWithheld(f, later, end, q, d, rule.version);
    } else if NoFaults(later) {
      hide Serves, Admits, StoreRule;
      StandingRuleDecides(f, later, end, rule, recorded, q, d);
    }
  }

  // -- approvals --------------------------------------------------------------------------------------

  lemma DecisionForRuled(f: Foreign, db: Db, q: Request, d: Document, rule: NewRule, recorded: int)
    requires rule.version in d.versions && rule.name == d.name
    requires Stands(f, db, rule, recorded)
    ensures AnswerDecisions(f, db, q, d)[rule.version].Serve? <==> Admits(f, db, rule, q, d)
  {
    hide UnderQuarantine, Published, BatchChecks, VersionIdentity, StoreRule, Pins, RuleGates, AnswerDecisions, GateOf;
    var v := rule.version;
    var check := BatchChecks(db.seen, q.package, d.versions, q.now, !q.cached)[v];
    var stored := RuleFor(db, (d.name, v));
    DecisionOf(f, db, q, d, v);
    CheckOfVersion(db.seen, q.package, d.versions, q.now, !q.cached, v);
    GateDecides(f, q.cfg, q.now, d, v, check, stored);
    RuledGates(f, q.cfg, d.name, d.versions[v], Published(d, v), rule, recorded, q.now);
  }

  /** Below the ledger, a rule lets through what it pins, unless the floor withholds it. */
  lemma RuledGates(f: Foreign, cfg: Config, name: string, meta: Value, published: Option<string>, rule: NewRule,
                   recorded: int, now: int)
    ensures RuleGates(f, cfg, name, meta, published, Some(StoreRule(f, rule, recorded).rule), now).Serve? <==>
              Pins(f, rule, meta) && !UnderQuarantine(f, cfg, name, meta, published, now)
  {
    hide UnderQuarantine, VersionIntegrity, ScriptsSha256, InstallHooks;
  }

  /** The rule `allow` builds pins, on the JSON, exactly the version it was built from. */
  lemma AllowRuleReads(f: Foreign, scan: Scan, packument: Value, package: string, version: string,
                       reason: Option<string>, requests: seq<PinRequest>, actor: string)
    requires AllowRule(f, scan, packument, package, version, reason, requests, actor).Ok?
    ensures var rule := AllowRule(f, scan, packument, package, version, reason, requests, actor).value;
      && rule.verdict.Allow? && rule.scripts.Some? && rule.reason == reason && rule.actor == Some(actor)
      && exists meta :: PublishesVersion(packument, version, meta) && MatchesVersion(f, rule, meta)
  {
    var meta := VersionMeta(packument, version).value;
    VersionMetaReads(packument, version);
    IdentityReads(meta);
    HookMapReads(f, meta);
    hide DeclaresExactly, Publishes, VersionIdentity, VersionIntegrity, PublishesVersion, HookMap, InstallHooks, Pinned;
    hide VersionMeta;
  }

  /** The rule `allow` builds pins exactly the version it was built from. */
  lemma AllowRulePins(f: Foreign, scan: Scan, packument: Value, package: string, version: string,
                      reason: Option<string>, requests: seq<PinRequest>, actor: string)
    requires AllowRule(f, scan, packument, package, version, reason, requests, actor).Ok?
    ensures var rule := AllowRule(f, scan, packument, package, version, reason, requests, actor).value;
      && (rule.name, rule.version) == (package, version)
      && Pins(f, rule, VersionMeta(packument, version).value)
  {
  }

  /**
   An approval takes effect at exactly the published time plus the floor, on documents that carry
   the approved package's name. As long as the ledger reports no change, a version with an install
   hook, in no first-party scope and with a readable publish time is served from that instant on and
   never before it; without a hook, in a first-party scope or with the floor off it is served at
   once; with an unreadable publish time never. On a document with another name the approval
   changes no answer, whatever effect it reported.
   */
  lemma ApprovalTakesEffect(f: Foreign, scan: Scan, faults: Faults, w: World, package: string, version: string,
                            reason: Option<string>, requests: seq<PinRequest>, actor: string, recorded: int,
                            q: Request, d: Document)
    requires NoFaults(faults) && Parse(q.document) == Ok(d) && version in d.versions
    requires AllowRule(f, scan, q.document, package, version, reason, requests, actor).Ok?
    ensures var rule := AllowRule(f, scan, q.document, package, version, reason, requests, actor).value;
      var after := RecordRuleAudited(f, faults, w, rule, recorded).0;
      var meta, at := d.versions[version], PublishTime(f, Published(d, version));
      && Evaluated(f, faults, after, q).1.Ok?
      && (package == d.name ==>
            (Serves(f, faults, after, q, version) <==>
               && LedgerUnchanged(w.db, q.package, version, meta)
               && (|| q.cfg.installScriptQuarantineDays == 0
                   || !RunsInstallScript(f, meta)
                   || IsBypassedScope(d.name, q.cfg)
                   || (at.Some? && at.value + q.cfg.installScriptQuarantineDays * DAY <= q.now))))
      && (package != d.name ==> Evaluated(f, faults, after, q).1 == Evaluated(f, faults, w, q).1)
  {
    hide Evaluated, RecordRuleAudited, Published, RunsInstallScript, IsBypassedScope, Parse, DocumentVersions;
    hide LedgerUnchanged, Serves, Pins;
    ParsedVersions(q.document, d);
    AllowRulePins(f, scan, q.document, package, version, reason, requests, actor);
    var rule := AllowRule(f, scan, q.document, package, version, reason, requests, actor).value;
    hide AllowRule;
    RecordedRuleDecides(f, faults, w, rule, recorded, q, d);
    AgeThreshold(f, Published(d, version), q.cfg.installScriptQuarantineDays, q.now);
  }

  /** The publish time `allow` reports by is the one the gates go by. */
  lemma PublishedAtReads(f: Foreign, packument: Value, d: Document, version: string)
    requires Parse(packument) == Ok(d)
    ensures PublishedAt(f, packument, version) == PublishTime(f, Published(d, version))
    ensures forall at :: PublishedAt(f, packument, version) == Some(at) <==>
              exists time, text :: Has(packument, "time", time) && Has(time, version, String(text))
                                   && f.parseTimestamp(text) == Some(at)
  {
    ParsedVersions(packument, d);
    var at := PublishedAt(f, packument, version);
    if at.Some? {
      var time := packument.fields["time"];
      assert Has(packument, "time", time) && Has(time, version, String(time.fields[version].text));
    }
  }

  /** For a version whose hooks are published, the report and the floor agree, and so does the instant. */
  lemma EffectMatchesFloor(f: Foreign, cfg: Config, name: string, meta: Value, published: Option<string>, now: int)
    requires InstallHooks(f, meta) != [] && !IsBypassedScope(name, cfg)
    requires PublishTime(f, published).Some?
    ensures var effect := EffectOf(f, cfg, meta, PublishTime(f, published), now);
      && (effect.NotYetAdmitted? <==> UnderQuarantine(f, cfg, name, meta, published, now))
      && (effect.NotYetAdmitted? ==> forall later ::
            UnderQuarantine(f, cfg, name, meta, published, later) <==> later < effect.clearsAt)
  {
    hide InstallHooks, IsBypassedScope, PublishTime;
    AgeThreshold(f, published, cfg.installScriptQuarantineDays, now);
    forall later
      ensures cfg.installScriptQuarantineDays > 0 ==>
        (UnderQuarantine(f, cfg, name, meta, published, later) <==>
           later < PublishTime(f, published).value + cfg.installScriptQuarantineDays * DAY)
    {
      AgeThreshold(f, published, cfg.installScriptQuarantineDays, later);
    }
  }

  /** Inside the quarantine window, as the operator's report computes it. */
  predicate InsideWindow(cfg: Config, at: Option<int>, now: int) {
    at.Some? && at.value + cfg.installScriptQuarantineDays * DAY > now
  }

  /**
   In general the report is wrong, and exactly here: with the floor on, for a first-party scope
   whose hooks are still inside the window (reported withheld, yet served), and outside one for a
   version that runs install scripts and either has no readable publish time or, inside the
   window, only carries upstream's flag (reported admitted, yet withheld).
   */
  lemma EffectIsTruthfulExactlyWhen(f: Foreign, cfg: Config, name: string, meta: Value, published: Option<string>,
                                    now: int)
    ensures var at := PublishTime(f, published);
      var hooked, bypassed := InstallHooks(f, meta) != [], IsBypassedScope(name, cfg);
      (EffectOf(f, cfg, meta, at, now).NotYetAdmitted? <==> UnderQuarantine(f, cfg, name, meta, published, now)) <==>
        !(cfg.installScriptQuarantineDays > 0
          && (|| (bypassed && hooked && InsideWindow(cfg, at, now))
              || (!bypassed && RunsInstallScript(f, meta) && at.None?)
              || (!bypassed && !hooked && FlagsInstallScript(meta) && InsideWindow(cfg, at, now))))
  {
    hide InstallHooks, IsBypassedScope, PublishTime, FlagsInstallScript;
    AgeThreshold(f, published, cfg.installScriptQuarantineDays, now);
  }

  // -- seeding --------------------------------------------------------------------------------------

  datatype SeedEntry = SeedEntry(name: string, version: string, integrity: string, hooks: map<string, string>)

  datatype Refusal = NoPackument | NoSuchVersion | OtherIntegrity | OtherScripts

  /** Confirm one entry against the packument the registry served, if it served one. */
  function VerifyEntry(f: Foreign, entry: SeedEntry, packument: Option<Value>): Result<(), Refusal> {
    if packument.None? then Err(NoPackument)
    else
      var meta := VersionMeta(packument.value, entry.version);
      if meta.None? then Err(NoSuchVersion)
      else if VersionIntegrity(meta.value) != Some(entry.integrity) then Err(OtherIntegrity)
      else if ScriptSetSha256(f, entry.hooks) != ScriptsSha256(f, meta.value) then Err(OtherScripts)
      else Ok(())
  }

  function SeedRule(entry: SeedEntry, reason: string, actor: string): NewRule {
    NewRule(entry.name, entry.version, Allow, Some(entry.integrity), Some(entry.hooks), None, Some(reason), Some(actor))
  }

  /**
   Verification is exactly the right test: an entry verifies against a packument that publishes
   its version if and only if the rule recorded for it passes the daemon's own allow gate there.
   */
  lemma VerifiedExactlyWhenTheRuleApplies(f: Foreign, entry: SeedEntry, packument: Value, reason: string,
                                          actor: string, now: int)
    requires VersionMeta(packument, entry.version).Some?
    ensures VerifyEntry(f, entry, Some(packument)).Ok? <==>
              AllowGate(f, StoreRule(f, SeedRule(entry, reason, actor), now).rule,
                        VersionMeta(packument, entry.version).value) == Serve
    ensures VerifyEntry(f, entry, Some(packument)).Ok? <==>
              Pins(f, SeedRule(entry, reason, actor), VersionMeta(packument, entry.version).value)
  {
  }

  /**
   What verification compares, on the JSON: the packument publishes the version, its integrity is the
   entry's, and the entry's hooks are exactly the install hooks it declares, command for command.
   */
  lemma VerifyEntryReads(f: Foreign, entry: SeedEntry, packument: Option<Value>)
    requires TellsApart(f)
    ensures VerifyEntry(f, entry, packument).Ok? <==>
              exists meta :: packument.Some? && PublishesVersion(packument.value, entry.version, meta)
                && Publishes(meta, "integrity", entry.integrity) && DeclaresExactly(f, meta, entry.hooks)
  {
    hide DeclaresExactly, Publishes, VersionIntegrity, ScriptSetSha256, ScriptsSha256;
    if packument.Some? {
      VersionMetaReads(packument.value, entry.version);
      var found := VersionMeta(packument.value, entry.version);
      if found.Some? {
        IdentityReads(found.value);
        ScriptsDigestReads(f, entry.hooks, found.value);
      }
    }
  }

  /** The packument's `versions` holds this metadata for the version. */
  ghost predicate PublishesVersion(packument: Value, version: string, meta: Value) {
    exists versions :: Has(packument, "versions", versions) && Has(versions, version, meta)
  }

  lemma VersionMetaReads(packument: Value, version: string)
    ensures forall meta :: VersionMeta(packument, version) == Some(meta) <==> PublishesVersion(packument, version, meta)
  {
    if VersionMeta(packument, version).Some? {
      var versions := packument.fields["versions"];
      assert Has(packument, "versions", versions) && Has(versions, version, VersionMeta(packument, version).value);
    }
  }

  /**
   A verified entry's rule pins exactly the version it was verified against, no file of it, and says
   who seeded it and why.
   */
  lemma SeedRuleReads(f: Foreign, entry: SeedEntry, reason: string, actor: string, meta: Value)
    ensures MatchesVersion(f, SeedRule(entry, reason, actor), meta) <==>
              Publishes(meta, "integrity", entry.integrity) && DeclaresExactly(f, meta, entry.hooks)
    ensures var rule := SeedRule(entry, reason, actor);
      && (rule.name, rule.version) == (entry.name, entry.version)
      && rule.pins == None && rule.reason == Some(reason) && rule.actor == Some(actor)
  {
    IdentityReads(meta);
    hide DeclaresExactly, Publishes, VersionIdentity;
  }

  /**
   A verified entry's rule admits the version under the entry's name, subject to the ledger and the
   floor alone. On a document with another name, which verifies all the same, it changes nothing.
   */
  lemma SeededVersionIsServed(f: Foreign, faults: Faults, w: World, entry: SeedEntry, reason: string, actor: string,
                              recorded: int, q: Request, d: Document)
    requires NoFaults(faults) && Parse(q.document) == Ok(d) && entry.version in d.versions
    requires VerifyEntry(f, entry, Some(q.document)).Ok?
    ensures var v, after := entry.version, RecordRuleAudited(f, faults, w, SeedRule(entry, reason, actor), recorded).0;
      && Evaluated(f, faults, after, q).1.Ok?
      && (entry.name == d.name ==>
            (Serves(f, faults, after, q, v) <==>
               && LedgerUnchanged(w.db, q.package, v, d.versions[v])
               && !UnderQuarantine(f, q.cfg, d.name, d.versions[v], Published(d, v), q.now)))
      && (entry.name != d.name ==> Evaluated(f, faults, after, q).1 == Evaluated(f, faults, w, q).1)
  {
    hide Evaluated, RecordRuleAudited, UnderQuarantine, Published, Parse, DocumentVersions, LedgerUnchanged, Serves;
    hide Pins, VerifyEntry;
    ParsedVersions(q.document, d);
    VerifiedExactlyWhenTheRuleApplies(f, entry, q.document, reason, actor, recorded);
    RecordedRuleDecides(f, faults, w, SeedRule(entry, reason, actor), recorded, q, d);
  }

  /** The registry: its n-th answer may differ from its first. */
  class Upstream {
    const serves: (nat, string) -> Option<Value>
    var calls: nat

    constructor (serves: (nat, string) -> Option<Value>)
      ensures this.serves == serves && calls == 0
    {
      this.serves, this.calls := serves, 0;
    }

    method Fetch(name: string) returns (packument: Option<Value>)
      modifies this
      ensures packument == serves(old(calls), name) && calls == old(calls) + 1
    {
      packument := serves(calls, name);
      calls := calls + 1;
    }
  }

  datatype SeedStatus = Written | Verified | Unverified | SeedRefused

  datatype SeedResult = SeedResult(verified: nat, written: nat, refused: nat, outcomes: seq<SeedStatus>)

  type Packuments = map<string, Option<Value>>

  type SeedVerdict = Result<(), Refusal>

  /** Who seeds and how, and the wording of reasons and refusals. */
  datatype SeedRun = SeedRun(
    dryRun: bool,
    offline: bool,
    reason: SeedEntry -> string,
    refusal: (SeedEntry, Refusal) -> string,
    actor: string,
    now: int)

  /** Verification is skipped offline, and otherwise compares with what was served. */
  function VerdictOn(f: Foreign, run: SeedRun, entry: SeedEntry, packuments: Packuments): SeedVerdict {
    if run.offline then Ok(())
    else VerifyEntry(f, entry, if entry.name in packuments then packuments[entry.name] else None)
  }

  function Verdicts(f: Foreign, run: SeedRun, entries: seq<SeedEntry>, packuments: Packuments): (r: seq<SeedVerdict>)
    ensures |r| == |entries|
    ensures forall i :: 0 <= i < |entries| ==> r[i] == VerdictOn(f, run, entries[i], packuments)
  {
    seq(|entries|, i requires 0 <= i < |entries| => VerdictOn(f, run, entries[i], packuments))
  }

  function RuleOf(f: Foreign, run: SeedRun, entry: SeedEntry): StoredRule {
    StoreRule(f, SeedRule(entry, run.reason(entry), run.actor), run.now)
  }

  /** The audit row of one entry: of its rule, or of its refusal. */
  function RowOf(f: Foreign, run: SeedRun, entry: SeedEntry, verdict: SeedVerdict): A.AuditRow {
    match verdict
    case Ok(_) => RuleEntry(f, SeedRule(entry, run.reason(entry), run.actor), run.now)
    case Err(refusal) =>
      A.AuditRow(UnixSeconds(run.now), A.OtherEvent("seed_refused"), A.Warning, entry.name, Some(entry.version),
                 run.refusal(entry, refusal))
  }

  /** What handling one entry leaves in the database. */
  function SeedOne(f: Foreign, run: SeedRun, db: Db, entry: SeedEntry, verdict: SeedVerdict): Db {
    if verdict.Ok? && run.dryRun then db
    else
      db.(rules := if verdict.Ok? then db.rules[(entry.name, entry.version) := RuleOf(f, run, entry)] else db.rules,
          audit := db.audit + [RowOf(f, run, entry, verdict)])
  }

  function SeedAll(f: Foreign, run: SeedRun, db: Db, entries: seq<SeedEntry>, verdicts: seq<SeedVerdict>): Db
    requires |entries| == |verdicts|
  {
    if entries == [] then db
    else
      var n := |entries| - 1;
      SeedOne(f, run, SeedAll(f, run, db, entries[..n], verdicts[..n]), entries[n], verdicts[n])
  }

  function StatusOf(run: SeedRun, verdict: SeedVerdict): SeedStatus {
    if verdict.Err? then SeedRefused
    else if !run.dryRun then Written
    else if run.offline then Unverified
    else Verified
  }

  function Refusals(verdicts: seq<SeedVerdict>): (r: nat)
    ensures r <= |verdicts|
  {
    if verdicts == [] then 0
    else Refusals(verdicts[..|verdicts| - 1]) + if verdicts[|verdicts| - 1].Err? then 1 else 0
  }

  function Summary(run: SeedRun, verdicts: seq<SeedVerdict>): SeedResult {
    var approved := |verdicts| - Refusals(verdicts);
    SeedResult(
      if run.offline then 0 else approved,
      if run.dryRun then 0 else approved,
      Refusals(verdicts),
      seq(|verdicts|, i requires 0 <= i < |verdicts| => StatusOf(run, verdicts[i])))
  }

  /** What is told about each entry: refused, or else written, or on a dry run whether it was verified. */
  lemma StatusReads(f: Foreign, run: SeedRun, entry: SeedEntry, packuments: Packuments)
    ensures var verdict := VerdictOn(f, run, entry, packuments);
      var status := StatusOf(run, verdict);
      && (status == SeedRefused <==> verdict.Err?)
      && (status == Written <==> verdict == Ok(()) && !run.dryRun)
      && (status == Verified <==> verdict == Ok(()) && run.dryRun && !run.offline)
      && (status == Unverified <==> run.dryRun && run.offline)
  {
  }

  /** The totals agree with the list: the written and the refused are those listed, the rest of it is verified. */
  lemma {:induction false} SummaryAddsUp(run: SeedRun, verdicts: seq<SeedVerdict>)
    ensures var told := Summary(run, verdicts);
      && |told.outcomes| == |verdicts|
      && told.written == multiset(told.outcomes)[Written]
      && told.refused == multiset(told.outcomes)[SeedRefused]
      && (!run.offline ==> told.verified == |told.outcomes| - told.refused)
      && (run.offline ==> told.verified == 0)
  {
    var told := Summary(run, verdicts);
    if verdicts == [] {
      assert told.outcomes == [];
    } else {
      var n := |verdicts| - 1;
      SummaryAddsUp(run, verdicts[..n]);
      assert told.outcomes == Summary(run, verdicts[..n]).outcomes + [StatusOf(run, verdicts[n])];
    }
  }

  /** The row of a refused entry is a warning about that version under its own event. */
  lemma RefusalRowReads(f: Foreign, run: SeedRun, entry: SeedEntry, refusal: Refusal)
    ensures var row := RowOf(f, run, entry, Err(refusal));
      && row.event == A.OtherEvent("seed_refused") && row.severity == A.Warning
      && (row.name, row.version) == (entry.name, Some(entry.version))
      && row.ts * SECOND <= run.now < (row.ts + 1) * SECOND
      && row.detail == run.refusal(entry, refusal)
  {
    UnixSecondsReads(run.now, UnixSeconds(run.now));
  }

  /** Every cached packument was served during this run, one call each. */
  ghost predicate FetchedOnce(serves: (nat, string) -> Option<Value>, from: nat, calls: nat, packuments: Packuments) {
    calls == from + |packuments| &&
    forall name :: name in packuments ==> exists n :: from <= n < calls && packuments[name] == serves(n, name)
  }

  ghost predicate AllFetched(run: SeedRun, entries: seq<SeedEntry>, packuments: Packuments) {
    run.offline || forall entry :: entry in entries ==> entry.name in packuments
  }

  /** Fetching one more package changes no verdict on the entries of packages already fetched. */
  lemma VerdictsStand(f: Foreign, run: SeedRun, entries: seq<SeedEntry>, packuments: Packuments, name: string,
                      packument: Option<Value>)
    requires name !in packuments && AllFetched(run, entries, packuments)
    ensures Verdicts(f, run, entries, packuments) == Verdicts(f, run, entries, packuments[name := packument])
  {
    hide VerifyEntry;
    forall i | 0 <= i < |entries|
      ensures VerdictOn(f, run, entries[i], packuments) == VerdictOn(f, run, entries[i], packuments[name := packument])
    {
      assert entries[i] in entries;
    }
  }

  lemma FetchedOneMore(serves: (nat, string) -> Option<Value>, from: nat, calls: nat, packuments: Packuments,
                       name: string)
    requires name !in packuments && FetchedOnce(serves, from, calls, packuments)
    ensures FetchedOnce(serves, from, calls + 1, packuments[name := serves(calls, name)])
  {
    var more := packuments[name := serves(calls, name)];
    assert more.Keys == packuments.Keys + {name};
    assert more[name] == serves(calls, name);
  }

  lemma NothingFetched(serves: (nat, string) -> Option<Value>, calls: nat)
    ensures FetchedOnce(serves, calls, calls, map[])
  {
  }

  /** `verify_seed_entry`: fetch the packument unless it is cached, then compare. */
  method JudgeEntry(f: Foreign, upstream: Upstream, run: SeedRun, entry: SeedEntry, packuments: Packuments,
                    ghost from: nat)
    returns (verdict: SeedVerdict, cached: Packuments)
    requires FetchedOnce(upstream.serves, from, upstream.calls, packuments)
    modifies upstream
    ensures FetchedOnce(upstream.serves, from, upstream.calls, cached)
    ensures verdict == VerdictOn(f, run, entry, cached)
    ensures run.offline ==> cached == packuments
    ensures !run.offline ==> entry.name in cached
    ensures entry.name in packuments ==> cached == packuments
    ensures entry.name in cached ==> cached == packuments[entry.name := cached[entry.name]]
    ensures entry.name !in cached ==> cached == packuments
  {
    hide VerifyEntry, FetchedOnce;
    cached := packuments;
    if run.offline {
      return Ok(()), cached;
    }
    if entry.name !in packuments {
      FetchedOneMore(upstream.serves, from, upstream.calls, packuments, entry.name);
      var fetched := upstream.Fetch(entry.name);
      cached := packuments[entry.name := fetched];
    }
    verdict := VerifyEntry(f, entry, cached[entry.name]);
  }

  /** `seed` writes the rule of an approved entry with its audit row, or audits the refusal. */
  method RecordVerdict(store: S.Store, run: SeedRun, entry: SeedEntry, verdict: SeedVerdict)
    returns (r: Result<(), string>)
    modifies store
    ensures store.clock >= old(store.clock)
    ensures r.Err? ==> FailedBetween(store.faults, old(store.clock), store.clock, r.error)
    ensures r.Ok? ==> store.Contents().db == SeedOne(store.f, run, old(store.Contents().db), entry, verdict)
    ensures r.Err? ==> StoppedAt(store.f, run, old(store.Contents().db), store.Contents().db, entry, verdict)
  {
    if verdict.Ok? && run.dryRun {
      return Ok(());
    }
    match verdict
    case Ok(_) =>
      var rule := SeedRule(entry, run.reason(entry), run.actor);
      AuditedRuleMayStandUnaudited(store.f, store.faults, store.Contents(), rule, run.now);
      hide StoreRule, RuleEntry, RecordRuleAudited;
      var stored := store.RecordRuleAudited(rule, run.now);
      r := if stored.Err? then Err(stored.error) else Ok(());
    case Err(refusal) =>
      var appended := store.AppendAudit(RowOf(store.f, run, entry, verdict));
      r := if appended.Err? then Err(appended.error) else Ok(());
  }

  /** One of these operations failed with this error. */
  ghost predicate FailedBetween(faults: Faults, from: nat, until: nat, error: string) {
    exists n :: from <= n < until && faults(n) == Some(error)
  }

  /** A run that stopped at an entry: nothing of it is in the tables, unless its rule without the row. */
  ghost predicate StoppedAt(f: Foreign, run: SeedRun, before: Db, after: Db, entry: SeedEntry, verdict: SeedVerdict) {
    && after.seen == before.seen && after.audit == before.audit
    && after.rules in {before.rules, SeedOne(f, run, before, entry, verdict).rules}
  }

  ghost predicate StoppedEarly(f: Foreign, run: SeedRun, before: Db, after: Db, entries: seq<SeedEntry>,
                               packuments: Packuments) {
    exists k :: 0 <= k < |entries| && AllFetched(run, entries[..k + 1], packuments)
      && var done := SeedAll(f, run, before, entries[..k], Verdicts(f, run, entries[..k], packuments));
         StoppedAt(f, run, done, after, entries[k], VerdictOn(f, run, entries[k], packuments))
  }

  /**
   One seed run. Each package is fetched at most once and all its entries are judged by that one
   answer. A run that ends well has handled every entry in order: the tables and the summary are
   exactly those the verdicts determine. A run fails only with the error of a storage operation that
   failed; it has then handled a prefix, and of the next entry at most the rule.
   */
  method Seed(store: S.Store, upstream: Upstream, entries: seq<SeedEntry>, run: SeedRun)
    returns (r: Result<SeedResult, string>, packuments: Packuments)
    modifies store, upstream
    ensures FetchedOnce(upstream.serves, old(upstream.calls), upstream.calls, packuments)
    ensures run.offline ==> packuments == map[]
    ensures r.Ok? ==>
      var verdicts := Verdicts(store.f, run, entries, packuments);
      && AllFetched(run, entries, packuments)
      && store.Contents().db == SeedAll(store.f, run, old(store.Contents().db), entries, verdicts)
      && r.value == Summary(run, verdicts)
    ensures r.Err? ==> StoppedEarly(store.f, run, old(store.Contents().db), store.Contents().db, entries, packuments)
    ensures r.Err? ==> FailedBetween(store.faults, old(store.clock), store.clock, r.error)
    ensures NoFaults(store.faults) ==> r.Ok?
  {
    hide VerifyEntry, FetchedOnce, SeedOne, StoppedAt, VerdictOn, SeedAll, Verdicts, Summary, AllFetched;
    packuments := map[];
    var result := SeedResult(0, 0, 0, []);
    ghost var before, from := store.Contents().db, upstream.calls;
    NothingFetched(upstream.serves, upstream.calls);
    NothingSeeded(store.f, run, before);
    assert entries[..0] == [];
    for i := 0 to |entries|
      invariant FetchedOnce(upstream.serves, from, upstream.calls, packuments)
      invariant run.offline ==> packuments == map[]
      invariant AllFetched(run, entries[..i], packuments)
      invariant store.Contents().db ==
                  SeedAll(store.f, run, before, entries[..i], Verdicts(store.f, run, entries[..i], packuments))
      invariant result == Summary(run, Verdicts(store.f, run, entries[..i], packuments))
      invariant store.clock >= old(store.clock)
    {
      var entry := entries[i];
      ghost var known := packuments;
      var verdict;
      verdict, packuments := JudgeEntry(store.f, upstream, run, entry, packuments, from);
      OneMoreSeeded(store.f, run, before, entries, i, known, packuments);
      var recorded := RecordVerdict(store, run, entry, verdict);
      if recorded.Err? {
        assert StoppedEarly(store.f, run, before, store.Contents().db, entries, packuments);
        return Err(recorded.error), packuments;
      }
      result := SeedResult(
        result.verified + (if verdict.Ok? && !run.offline then 1 else 0),
        result.written + (if verdict.Ok? && !run.dryRun then 1 else 0),
        result.refused + (if verdict.Err? then 1 else 0),
        result.outcomes + [StatusOf(run, verdict)]);
    }
    assert entries[..|entries|] == entries;
    r := Ok(result);
  }

  lemma NothingSeeded(f: Foreign, run: SeedRun, db: Db)
    ensures AllFetched(run, [], map[])
    ensures SeedAll(f, run, db, [], Verdicts(f, run, [], map[])) == db
    ensures Summary(run, Verdicts(f, run, [], map[])) == SeedResult(0, 0, 0, [])
  {
  }

  /** From the first i entries to the next: the verdicts stand, and one is added. */
  lemma OneMoreSeeded(f: Foreign, run: SeedRun, db: Db, entries: seq<SeedEntry>, i: nat, known: Packuments,
                      packuments: Packuments)
    requires i < |entries| && AllFetched(run, entries[..i], known)
    requires !run.offline ==> entries[i].name in packuments
    requires entries[i].name in known ==> packuments == known
    requires entries[i].name in packuments ==> packuments == known[entries[i].name := packuments[entries[i].name]]
    requires entries[i].name !in packuments ==> packuments == known
    ensures AllFetched(run, entries[..i + 1], packuments)
    ensures Verdicts(f, run, entries[..i], packuments) == Verdicts(f, run, entries[..i], known)
    ensures var verdict := VerdictOn(f, run, entries[i], packuments);
      var verdicts := Verdicts(f, run, entries[..i], packuments);
      var more := Verdicts(f, run, entries[..i + 1], packuments);
      && SeedAll(f, run, db, entries[..i + 1], more) ==
           SeedOne(f, run, SeedAll(f, run, db, entries[..i], verdicts), entries[i], verdict)
      && var result := Summary(run, verdicts);
         Summary(run, more) == SeedResult(
           result.verified + (if verdict.Ok? && !run.offline then 1 else 0),
           result.written + (if verdict.Ok? && !run.dryRun then 1 else 0),
           result.refused + (if verdict.Err? then 1 else 0),
           result.outcomes + [StatusOf(run, verdict)])
  {
    hide SeedOne, VerdictOn, StatusOf;
    assert entries[..i + 1] == entries[..i] + [entries[i]];
    if packuments != known {
      VerdictsStand(f, run, entries[..i], known, entries[i].name, packuments[entries[i].name]);
    }
    var verdicts, more := Verdicts(f, run, entries[..i], packuments), Verdicts(f, run, entries[..i + 1], packuments);
    assert more == verdicts + [VerdictOn(f, run, entries[i], packuments)];
    assert more[..i] == verdicts && entries[..i + 1][..i] == entries[..i];
  }

  // -- what a seed run leaves behind -------------------------------------------------------------------

  /** The last approved entry of a key, if any. */
  ghost predicate LastApproved(entries: seq<SeedEntry>, verdicts: seq<SeedVerdict>, key: Key, i: int) {
    && 0 <= i < |entries| == |verdicts|
    && verdicts[i].Ok? && (entries[i].name, entries[i].version) == key
    && forall j :: i < j < |entries| && verdicts[j].Ok? ==> (entries[j].name, entries[j].version) != key
  }

  /**
   Rules after a run that wrote: the key of every approved entry holds the rule of the last approved
   entry with that key, and no other rule changed. A dry run changes no rule.
   */
  lemma {:induction false} SeededRules(f: Foreign, run: SeedRun, db: Db, entries: seq<SeedEntry>,
                                       verdicts: seq<SeedVerdict>, key: Key)
    requires |entries| == |verdicts|
    ensures var rules := SeedAll(f, run, db, entries, verdicts).rules;
      && (run.dryRun ==> rules == db.rules)
      && (!run.dryRun ==>
            forall i :: LastApproved(entries, verdicts, key, i) ==>
              key in rules && rules[key] == RuleOf(f, run, entries[i]))
      && ((forall i :: !LastApproved(entries, verdicts, key, i)) ==>
            (key in rules <==> key in db.rules) && (key in rules ==> rules[key] == db.rules[key]))
    ensures SeedAll(f, run, db, entries, verdicts).seen == db.seen
  {
    if entries != [] {
      hide RuleOf, RowOf;
      var n := |entries| - 1;
      var front, told := entries[..n], verdicts[..n];
      SeededRules(f, run, db, front, told, key);
      if verdicts[n].Ok? && (entries[n].name, entries[n].version) == key {
        assert LastApproved(entries, verdicts, key, n);
        assert forall i :: LastApproved(entries, verdicts, key, i) ==> i == n;
      } else {
        assert forall i :: LastApproved(front, told, key, i) <==> LastApproved(entries, verdicts, key, i);
      }
    }
  }

  /** How many rows the run has appended when it comes to an entry: refusals only, on a dry run. */
  function RowsBefore(run: SeedRun, verdicts: seq<SeedVerdict>, i: nat): nat
    requires i <= |verdicts|
  {
    if run.dryRun then Refusals(verdicts[..i]) else i
  }

  /**
   Rows after a run: the log grew by one row per refused entry and, unless the run was dry, one per
   approved entry, each in its place; nothing that was there changed.
   */
  lemma {:induction false} SeededRows(f: Foreign, run: SeedRun, db: Db, entries: seq<SeedEntry>,
                                      verdicts: seq<SeedVerdict>)
    requires |entries| == |verdicts|
    ensures var audit := SeedAll(f, run, db, entries, verdicts).audit;
      && db.audit <= audit && |audit| == |db.audit| + RowsBefore(run, verdicts, |entries|)
      && forall i :: 0 <= i < |entries| && (verdicts[i].Err? || !run.dryRun) ==>
           && RowsBefore(run, verdicts, i) < RowsBefore(run, verdicts, |entries|)
           && audit[|db.audit| + RowsBefore(run, verdicts, i)] == RowOf(f, run, entries[i], verdicts[i])
  {
    if entries != [] {
      hide RuleOf, RowOf, Refusals, RowsBefore;
      var n := |entries| - 1;
      var front, told := entries[..n], verdicts[..n];
      SeededRows(f, run, db, front, told);
      RowsBeforeGrows(run, verdicts, n);
      forall i | 0 <= i <= n
        ensures RowsBefore(run, verdicts, i) == RowsBefore(run, told, i)
      {
        RowsBeforePrefix(run, verdicts, n, i);
      }
      var done := SeedAll(f, run, db, front, told).audit;
      var audit := SeedAll(f, run, db, entries, verdicts).audit;
      assert audit == done + if verdicts[n].Err? || !run.dryRun then [RowOf(f, run, entries[n], verdicts[n])] else [];
      hide SeedAll, SeedOne;
    } else {
      RowsBeforeNothing(run);
    }
  }

  lemma RowsBeforeNothing(run: SeedRun)
    ensures RowsBefore(run, [], 0) == 0
  {
  }

  lemma RowsBeforePrefix(run: SeedRun, verdicts: seq<SeedVerdict>, n: nat, i: nat)
    requires i <= n <= |verdicts|
    ensures RowsBefore(run, verdicts[..n], i) == RowsBefore(run, verdicts, i)
  {
    assert verdicts[..n][..i] == verdicts[..i];
  }

  lemma RowsBeforeGrows(run: SeedRun, verdicts: seq<SeedVerdict>, n: nat)
    requires n < |verdicts|
    ensures RowsBefore(run, verdicts, n + 1) ==
              RowsBefore(run, verdicts, n) + if verdicts[n].Err? || !run.dryRun then 1 else 0
  {
    assert verdicts[..n + 1][..n] == verdicts[..n];
  }

  /**
   Seeding, end to end, on any document. After a run that wrote, a version whose last approved entry
   carries the document's name is served exactly when the ledger reports no change, the entry
   verifies against this document and the floor lets it. A version without an approved entry under
   the document's name is answered as before the run, and if no approved entry carries that name the
   whole answer is.
   */
  lemma SeedRunDecides(f: Foreign, run: SeedRun, entries: seq<SeedEntry>, packuments: Packuments, faults: Faults,
                       before: World, after: World, q: Request, d: Document, v: string)
    requires NoFaults(faults) && !run.dryRun && Parse(q.document) == Ok(d) && v in d.versions
    requires after.db == SeedAll(f, run, before.db, entries, Verdicts(f, run, entries, packuments))
    ensures var verdicts := Verdicts(f, run, entries, packuments);
      && (forall i :: LastApproved(entries, verdicts, (d.name, v), i) ==>
            (Serves(f, faults, after, q, v) <==>
               && LedgerUnchanged(before.db, q.package, v, d.versions[v])
               && VerifyEntry(f, entries[i], Some(q.document)).Ok?
               && !UnderQuarantine(f, q.cfg, d.name, d.versions[v], Published(d, v), q.now)))
      && ((forall i :: !LastApproved(entries, verdicts, (d.name, v), i)) ==>
            (Serves(f, faults, after, q, v) <==> Serves(f, faults, before, q, v)))
      && ((forall i :: 0 <= i < |entries| && verdicts[i].Ok? ==> entries[i].name != d.name) ==>
            Evaluated(f, faults, after, q).1 == Evaluated(f, faults, before, q).1)
  {
    hide Evaluated, UnderQuarantine, Published, Parse, DocumentVersions, VerdictOn, SeedAll, Pins, StoreRule, Serves;
    hide SeedRule, VerifyEntry, LedgerUnchanged, AnswerDecisions, VersionMeta;
    var verdicts := Verdicts(f, run, entries, packuments);
    SeededRules(f, run, before.db, entries, verdicts, (d.name, v));
    forall i | LastApproved(entries, verdicts, (d.name, v), i)
      ensures Serves(f, faults, after, q, v) <==>
                && LedgerUnchanged(before.db, q.package, v, d.versions[v])
                && VerifyEntry(f, entries[i], Some(q.document)).Ok?
                && !UnderQuarantine(f, q.cfg, d.name, d.versions[v], Published(d, v), q.now)
    {
      SeededRuleDecides(f, run, faults, before.db, after, entries[i], q, d);
    }
    if forall i :: !LastApproved(entries, verdicts, (d.name, v), i) {
      ServedByDecision(f, faults, after, q, d, v);
      ServedByDecision(f, faults, before, q, d, v);
      DecisionOf(f, after.db, q, d, v);
      DecisionOf(f, before.db, q, d, v);
    }
    if forall i :: 0 <= i < |entries| && verdicts[i].Ok? ==> entries[i].name != d.name {
      forall u | u in d.versions
        ensures RuleFor(after.db, (d.name, u)) == RuleFor(before.db, (d.name, u))
      {
        SeededRules(f, run, before.db, entries, verdicts, (d.name, u));
      }
      OnlyRulesOfTheDocumentDecide(f, faults, after, before, q, d);
    }
  }

  lemma SeededRuleDecides(f: Foreign, run: SeedRun, faults: Faults, before: Db, after: World, entry: SeedEntry,
                          q: Request, d: Document)
    requires NoFaults(faults) && Parse(q.document) == Ok(d) && entry.version in d.versions && entry.name == d.name
    requires (d.name, entry.version) in after.db.rules && after.db.seen == before.seen
    requires after.db.rules[(d.name, entry.version)] == RuleOf(f, run, entry)
    ensures var v := entry.version;
      Serves(f, faults, after, q, v) <==>
        && LedgerUnchanged(before, q.package, v, d.versions[v])
        && VerifyEntry(f, entry, Some(q.document)).Ok?
        && !UnderQuarantine(f, q.cfg, d.name, d.versions[v], Published(d, v), q.now)
  {
    hide Evaluated, UnderQuarantine, Published, Parse, DocumentVersions, Pins, StoreRule, Serves, SeedRule, VerifyEntry;
    ParsedVersions(q.document, d);
    VerifiedExactlyWhenTheRuleApplies(f, entry, q.document, run.reason(entry), run.actor, run.now);
    SeedRuleNames(entry, run.reason(entry), run.actor);
    StandingRuleDecides(f, faults, after, SeedRule(entry, run.reason(entry), run.actor), run.now, q, d);
  }

  lemma SeedRuleNames(entry: SeedEntry, reason: string, actor: string)
    ensures SeedRule(entry, reason, actor).name == entry.name && SeedRule(entry, reason, actor).version == entry.version
  {
  }
}
