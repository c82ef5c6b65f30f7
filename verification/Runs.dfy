/**
 Whole runs of the daemon over its database: observations, rules, prunes, audit appends and
 requests in any order, with storage failures anywhere. What the ledger never forgets, and what
 that means for every later request.
 */
module Runs {
  import opened Basics
  import opened Json
  import opened Order
  import opened Policy
  import opened Filter
  import opened Ledger
  import opened Audit
  import opened Database
  import opened Request

  datatype Step =
    | Observe(name: string, obs: seq<Observation>, now: int, bump: bool)
    | RecordARule(rule: NewRule, now: int)
    | PruneTheLedger(before: int)
    | PruneTheLog(before: int)
    | AppendRow(row: AuditRow)
    | Serve(request: Request)

  function Apply(f: Foreign, faults: Faults, w: World, step: Step): World {
    match step
    case Observe(name, obs, now, bump) => ObserveBatch(faults, w, name, obs, now, bump).0
    case RecordARule(rule, now) => RecordRuleAudited(f, faults, w, rule, now).0
    case PruneTheLedger(before) => PruneLedger(faults, w, before).0
    case PruneTheLog(before) => PruneLog(faults, w, before).0
    case AppendRow(row) => AppendAudit(faults, w, row).0
    case Serve(request) => Evaluated(f, faults, w, request).0
  }

  function Run(f: Foreign, faults: Faults, w: World, steps: seq<Step>): World {
    if steps == [] then w
    else Apply(f, faults, Run(f, faults, w, steps[..|steps| - 1]), steps[|steps| - 1])
  }

  /** The batch a step submits to the ledger, and under which name. */
  function BatchName(step: Step): string {
    match step
    case Observe(name, _, _, _) => name
    case Serve(request) => request.package
    case _ => ""
  }

  function BatchOf(step: Step): seq<Observation> {
    match step
    case Observe(_, obs, _, _) => obs
    case Serve(request) => AllObservations(DocumentVersions(request.document))
    case _ => []
  }

  function BatchTime(step: Step): int {
    match step
    case Observe(_, _, now, _) => now
    case Serve(request) => request.now
    case _ => 0
  }

  /** What the ledger committed of a step: its batch, unless the transaction failed. */
  function Committed(faults: Faults, w: World, step: Step): seq<Observation> {
    if faults(w.clock).None? then BatchOf(step) else []
  }

  /** How many committed observations of a version differ from an identity, over a run. */
  function DifferingInRun(f: Foreign, faults: Faults, w: World, steps: seq<Step>, key: Key,
                          identity: Option<string>): nat {
    if steps == [] then 0
    else
      var front, last := steps[..|steps| - 1], steps[|steps| - 1];
      DifferingInRun(f, faults, w, front, key, identity) +
      Differing(BatchName(last), Committed(faults, Run(f, faults, w, front), last), key, identity)
  }

  /** A request changes the ledger by its batch alone, and no rule. */
  lemma RequestTables(f: Foreign, faults: Faults, w: World, q: Request)
    ensures var after := Evaluated(f, faults, w, q).0;
      var versions := DocumentVersions(q.document);
      && after.db.rules == w.db.rules
      && after.db.seen == (if faults(w.clock).None?
                           then ObserveAll(w.db.seen, q.package, AllObservations(versions), q.now, !q.cached)
                           else w.db.seen)
  {
    hide Parse, DocumentVersions, AllObservations, GateOf, ObserveBatch, ObserveAll, BatchThenGates, RecordBlocks;
    hide Outcomes;
    var obs := AllObservations(DocumentVersions(q.document));
    BatchTables(faults, ClearFailure(w), q.package, obs, q.now, !q.cached);
    if Parse(q.document).Ok? {
      var d := Parse(q.document).value;
      ParsedVersions(q.document, d);
      BatchThenGatesTables(GateOf(f, q.cfg, q.now, d), faults, d.name, w, q.package,
                           SortedKeys(d.versions.Keys), obs, q.now, !q.cached);
      var (gated, decisions) := Gated(f, faults, w, q, d);
      BlocksKeepTables(f, faults, gated, q.package, Outcomes(f, q.cfg, d, decisions).blocked, q.now);
      hide Gated, RecordBlocksIn;
    }
  }

  lemma BlocksKeepTables(f: Foreign, faults: Faults, w: World, package: string, blocked: seq<BlockRecord>, now: int)
    ensures var after := RecordBlocksIn(f, faults, w, package, blocked, now).0;
      after.db.rules == w.db.rules && after.db.seen == w.db.seen
  {
  }

  lemma BatchThenGatesTables(gate: Gate, faults: Faults, name: string, w: World, package: string, keys: seq<string>,
                             obs: seq<Observation>, now: int, bump: bool)
    requires |keys| == |obs|
    ensures var after := BatchThenGates(gate, faults, name, w, package, keys, obs, now, bump).0;
      && after.db.rules == w.db.rules && after.db.audit == w.db.audit
      && after.db.seen == (if faults(w.clock).None? then ObserveAll(w.db.seen, package, obs, now, bump) else w.db.seen)
  {
    hide ObserveBatch, ObserveAll;
    BatchTables(faults, ClearFailure(w), package, obs, now, bump);
    var (observed, checks) := ObserveBatch(faults, ClearFailure(w), package, obs, now, bump);
    GatesKeepTables(gate, faults, name, CheckMap(keys, checks), observed, keys);
  }

  lemma BatchTables(faults: Faults, w: World, name: string, obs: seq<Observation>, now: int, bump: bool)
    ensures var after := ObserveBatch(faults, w, name, obs, now, bump).0;
      && after.db.rules == w.db.rules && after.db.audit == w.db.audit
      && after.db.seen == (if faults(w.clock).None? then ObserveAll(w.db.seen, name, obs, now, bump) else w.db.seen)
  {
  }

  lemma {:induction false} GatesKeepTables(gate: Gate, faults: Faults, name: string, checks: map<string, Check>,
                                           w: World, keys: seq<string>)
    requires forall k :: k in keys ==> k in checks
    ensures Gates(gate, faults, name, checks, w, keys).0.db == w.db
  {
    if keys != [] {
      GatesKeepTables(gate, faults, name, checks, w, keys[..|keys| - 1]);
    }
  }

  /** Every step either submits its batch or prunes; rules only accumulate. */
  lemma StepTables(f: Foreign, faults: Faults, w: World, step: Step)
    ensures var after := Apply(f, faults, w, step);
      && w.db.rules.Keys <= after.db.rules.Keys
      && (forall key :: key in w.db.rules && (step.RecordARule? ==> key != (step.rule.name, step.rule.version)) ==>
            after.db.rules[key] == w.db.rules[key])
      && (!step.PruneTheLedger? ==>
            after.db.seen == ObserveAll(w.db.seen, BatchName(step), Committed(faults, w, step), BatchTime(step),
                                        (step.Observe? && step.bump) || (step.Serve? && !step.request.cached)))
      && (step.PruneTheLedger? ==>
            after.db.seen in {w.db.seen, PruneSeen(w.db.seen, w.db.rules.Keys, step.before)})
  {
    hide ObserveBatch, Evaluated, AllObservations;
    match step
    case Observe(name, obs, now, bump) => BatchTables(faults, w, name, obs, now, bump);
    case Serve(request) => RequestTables(f, faults, w, request);
    case _ =>
  }

  /** One step: evidence is rewritten by nothing, counted exactly, and protected once it matters. */
  lemma StepKeepsEvidence(f: Foreign, faults: Faults, w: World, step: Step, key: Key)
    requires key in w.db.seen
    ensures var row, after := w.db.seen[key], Apply(f, faults, w, step).db;
      && (row.mismatches > 0 || key in w.db.rules ==> key in after.seen)
      && (key in w.db.rules ==> key in after.rules)
      && (key in after.seen ==>
            && after.seen[key].identity == row.identity
            && after.seen[key].firstSeen == row.firstSeen
            && after.seen[key].mismatches ==
                 row.mismatches + Differing(BatchName(step), Committed(faults, w, step), key, row.identity))
  {
    hide Apply, AllObservations;
    StepTables(f, faults, w, step);
    BatchKeepsEvidence(w.db.seen, BatchName(step), Committed(faults, w, step), BatchTime(step),
                       (step.Observe? && step.bump) || (step.Serve? && !step.request.cached), key);
  }

  /**
   While a row exists, nothing rewrites it: at the end of any run throughout which it was present
   its identity and first-seen time are the original ones and its mismatch count has grown by
   exactly the number of committed observations that differed.
   */
  lemma {:induction false} RowsAreFrozen(f: Foreign, faults: Faults, w: World, steps: seq<Step>, key: Key)
    requires forall n :: 0 <= n <= |steps| ==> key in Run(f, faults, w, steps[..n]).db.seen
    ensures key in w.db.seen && key in Run(f, faults, w, steps).db.seen
    ensures var first, last := w.db.seen[key], Run(f, faults, w, steps).db.seen[key];
      && last.identity == first.identity
      && last.firstSeen == first.firstSeen
      && last.mismatches == first.mismatches + DifferingInRun(f, faults, w, steps, key, first.identity)
  {
    hide Apply;
    assert steps[..0] == [] && steps[..|steps|] == steps;
    assert key in Run(f, faults, w, steps[..0]).db.seen;
    if steps != [] {
      var front := steps[..|steps| - 1];
      forall n | 0 <= n <= |front|
        ensures key in Run(f, faults, w, front[..n]).db.seen
      {
        assert front[..n] == steps[..n];
      }
      RowsAreFrozen(f, faults, w, front, key);
      StepKeepsEvidence(f, faults, Run(f, faults, w, front), steps[|steps| - 1], key);
    }
  }

  /**
   Evidence is never lost: a row that recorded a mismatch, or that a rule names, is present after
   every run, with its identity, its first-seen time and an exact mismatch count.
   */
  lemma {:induction false} EvidenceIsPermanent(f: Foreign, faults: Faults, w: World, steps: seq<Step>, key: Key)
    requires key in w.db.seen
    requires w.db.seen[key].mismatches > 0 || key in w.db.rules
    ensures var after := Run(f, faults, w, steps).db;
      && key in after.seen
      && after.seen[key].identity == w.db.seen[key].identity
      && after.seen[key].firstSeen == w.db.seen[key].firstSeen
      && after.seen[key].mismatches ==
           w.db.seen[key].mismatches + DifferingInRun(f, faults, w, steps, key, w.db.seen[key].identity)
      && (key in w.db.rules ==> key in after.rules)
  {
    hide Apply;
    if steps != [] {
      var front := steps[..|steps| - 1];
      EvidenceIsPermanent(f, faults, w, front, key);
      StepKeepsEvidence(f, faults, Run(f, faults, w, front), steps[|steps| - 1], key);
    }
  }

  /**
   Where a row comes from: if a run ends with a row it did not start with, the row was last
   created by one step, from then on it stayed, and it carries that step's time as first seen and
   the identity first observed for the version in that step's batch.
   */
  lemma {:induction false} RowsHaveAnOrigin(f: Foreign, faults: Faults, w: World, steps: seq<Step>, key: Key)
    returns (born: nat)
    requires key !in w.db.seen && key in Run(f, faults, w, steps).db.seen
    ensures born < |steps|
    ensures key !in Run(f, faults, w, steps[..born]).db.seen
    ensures forall n :: born < n <= |steps| ==> key in Run(f, faults, w, steps[..n]).db.seen
    ensures Run(f, faults, w, steps).db.seen[key].firstSeen == UnixSeconds(BatchTime(steps[born]))
    ensures BatchName(steps[born]) == key.0 && key.1 in Versions(BatchOf(steps[born]))
    ensures Run(f, faults, w, steps).db.seen[key].identity == FirstIdentity(BatchOf(steps[born]), key.1)
  {
    hide Apply, AllObservations, BatchOf;
    var n := |steps| - 1;
    var front := steps[..n];
    var before := Run(f, faults, w, front);
    assert steps[..|steps|] == steps;
    StepTables(f, faults, before, steps[n]);
    if key in before.db.seen {
      born := RowsHaveAnOrigin(f, faults, w, front, key);
      StepKeepsEvidence(f, faults, before, steps[n], key);
      assert front[..born] == steps[..born];
      forall m | born < m <= |steps|
        ensures key in Run(f, faults, w, steps[..m]).db.seen
      {
        if m <= n {
          assert front[..m] == steps[..m];
        }
      }
    } else {
      born := n;
      var bump := (steps[n].Observe? && steps[n].bump) || (steps[n].Serve? && !steps[n].request.cached);
      FirstSightIsRecorded(before.db.seen, BatchName(steps[n]), Committed(faults, before, steps[n]),
                           BatchTime(steps[n]), bump, key);
    }
  }

  /** The identity of the first observation of a version in a batch. */
  function FirstIdentity(obs: seq<Observation>, version: string): Option<string> {
    if obs == [] then None
    else if obs[0].version == version then obs[0].identity
    else FirstIdentity(obs[1..], version)
  }

  lemma {:induction false} FirstIdentityGrows(obs: seq<Observation>, version: string)
    requires obs != []
    ensures var front, last := obs[..|obs| - 1], obs[|obs| - 1];
      FirstIdentity(obs, version) ==
        if version in Versions(front) then FirstIdentity(front, version)
        else if last.version == version then last.identity else None
  {
    if |obs| > 1 {
      FirstIdentityGrows(obs[1..], version);
      var front, tail := obs[..|obs| - 1], obs[1..][..|obs| - 2];
      assert front[0] == obs[0] && front[1..] == tail;
      assert Versions(front) == [obs[0].version] + Versions(tail);
    }
  }

  lemma {:induction false} FirstSightIsRecorded(seen: Seen, name: string, obs: seq<Observation>, now: int, bump: bool,
                                                key: Key)
    requires key !in seen
    ensures var after := ObserveAll(seen, name, obs, now, bump);
      && (key in after <==> name == key.0 && key.1 in Versions(obs))
      && (key in after ==> after[key].firstSeen == UnixSeconds(now) && after[key].identity == FirstIdentity(obs, key.1))
  {
    if obs != [] {
      var n := |obs| - 1;
      FirstIdentityGrows(obs, key.1);
      FirstSightIsRecorded(seen, name, obs[..n], now, bump, key);
      assert forall i :: 0 <= i < n ==> Versions(obs[..n])[i] == Versions(obs)[i];
      assert Versions(obs)[n] == obs[n].version;
    }
  }

  lemma {:induction false} NoneDiffer(name: string, obs: seq<Observation>, key: Key, identity: Option<string>)
    requires Differing(name, obs, key, identity) == 0
    requires name == key.0 && key.1 in Versions(obs)
    ensures FirstIdentity(obs, key.1) == identity
  {
    var n := |obs| - 1;
    FirstIdentityGrows(obs, key.1);
    assert Versions(obs) == Versions(obs[..n]) + [obs[n].version];
    if key.1 in Versions(obs[..n]) {
      NoneDiffer(name, obs[..n], key, identity);
    }
  }

  /** A step that commits nothing different leaves the row, if there is one, with this identity. */
  lemma StepIdentity(f: Foreign, faults: Faults, w: World, step: Step, key: Key, identity: Option<string>)
    requires Differing(BatchName(step), Committed(faults, w, step), key, identity) == 0
    requires key in w.db.seen ==> w.db.seen[key].identity == identity
    ensures var after := Apply(f, faults, w, step).db; key in after.seen ==> after.seen[key].identity == identity
  {
    hide Apply, Committed, BatchOf;
    var obs := Committed(faults, w, step);
    if key in w.db.seen {
      StepKeepsEvidence(f, faults, w, step, key);
    } else {
      StepTables(f, faults, w, step);
      FirstSightIsRecorded(w.db.seen, BatchName(step), obs, BatchTime(step),
                           (step.Observe? && step.bump) || (step.Serve? && !step.request.cached), key);
      if BatchName(step) == key.0 && key.1 in Versions(obs) {
        NoneDiffer(BatchName(step), obs, key, identity);
      }
    }
  }

  // -- a replaced version never comes back ------------------------------------------------------------

  lemma {:induction false} ChangedIsBlocked(gate: Gate, faults: Faults, name: string, checks: map<string, Check>,
                                            w: World, keys: seq<string>, i: nat)
    requires Distinct(keys) && i < |keys|
    requires forall k :: k in keys ==> k in checks
    requires checks[keys[i]].Changed?
    ensures Gates(gate, faults, name, checks, w, keys).1[keys[i]] == gate(keys[i], checks[keys[i]], None)
  {
    var n := |keys| - 1;
    if i < n {
      ChangedIsBlocked(gate, faults, name, checks, w, keys[..n], i);
      assert keys[i] != keys[n];
    }
  }

  /**
   Whatever the rules, the config and the storage failures: an answered request withholds, as
   IntegrityChanged, every version whose identity differs from the one on record.
   */
  lemma ReplacedVersionIsWithheld(f: Foreign, faults: Faults, w: World, q: Request, d: Document, v: string)
    requires Parse(q.document) == Ok(d) && v in d.versions
    requires (q.package, v) in w.db.seen
    requires w.db.seen[(q.package, v)].identity != VersionIdentity(d.versions[v])
    ensures var answer := Evaluated(f, faults, w, q).1;
      var evidence := LedgerMismatch(w.db.seen[(q.package, v)].identity, VersionIdentity(d.versions[v]));
      answer.Ok? ==>
        && v !in DocumentVersions(answer.value.packument)
        && BlockRecord(v, IntegrityChanged, evidence) in answer.value.blocked
  {
    hide ObserveAll, CheckAll, RecordBlocks, Rebuilt, Published, AllObservations, BatchThenGates;
    var keys, obs := SortedKeys(d.versions.Keys), AllObservations(d.versions);
    ParsedVersions(q.document, d);
    RequestReportsFailures(f, faults, w, q, d);
    if Evaluated(f, faults, w, q).1.Ok? {
      assert v in keys;
      var i :| 0 <= i < |keys| && keys[i] == v;
      ReplacedIsBlocked(f, faults, w, q, d, i);
      var decisions := Gated(f, faults, w, q, d).1;
      OutcomeParts(f, q.cfg, d, decisions);
      var packument := Outcomes(f, q.cfg, d, decisions).packument;
      ParsedVersions(packument, Parse(packument).value);
      BlockedRecords(decisions, keys);
    }
  }

  lemma ReplacedIsBlocked(f: Foreign, faults: Faults, w: World, q: Request, d: Document, i: nat)
    requires i < |SortedKeys(d.versions.Keys)|
    requires var v := SortedKeys(d.versions.Keys)[i];
      && (q.package, v) in w.db.seen && v in d.versions
      && w.db.seen[(q.package, v)].identity != VersionIdentity(d.versions[v])
    requires Gated(f, faults, w, q, d).0.failure.None?
    ensures var v := SortedKeys(d.versions.Keys)[i];
      Gated(f, faults, w, q, d).1[v] ==
        Block(IntegrityChanged, LedgerMismatch(w.db.seen[(q.package, v)].identity, VersionIdentity(d.versions[v])))
  {
    hide BatchThenGates, VersionIdentity, GateOf, FailsClosed;
    var keys, obs := SortedKeys(d.versions.Keys), AllObservations(d.versions);
    EngineFailsClosed(f, q.cfg, q.now, d);
    ChangedGate(f, q.cfg, q.now, d, keys[i], w.db.seen[(q.package, keys[i])].identity);
    ReplacedIsGated(GateOf(f, q.cfg, q.now, d), faults, d.name, w, q.package, keys, obs, q.now, !q.cached, i);
  }

  lemma ChangedGate(f: Foreign, cfg: Config, now: int, d: Document, v: string, recorded: Option<string>)
    requires v in d.versions
    ensures GateOf(f, cfg, now, d)(v, Changed(recorded), None) ==
              Block(IntegrityChanged, LedgerMismatch(recorded, VersionIdentity(d.versions[v])))
  {
    hide RuleGates, Published, VersionIdentity;
    GateDecides(f, cfg, now, d, v, Changed(recorded), None);
    assert MetaOf(d, v) == d.versions[v];
  }

  lemma ReplacedIsGated(gate: Gate, faults: Faults, name: string, w: World, package: string, keys: seq<string>,
                        obs: seq<Observation>, now: int, bump: bool, i: nat)
    requires |keys| == |obs| && FailsClosed(gate) && Distinct(keys) && i < |keys|
    requires forall k :: 0 <= k < |keys| ==> obs[k].version == keys[k]
    requires (package, keys[i]) in w.db.seen && w.db.seen[(package, keys[i])].identity != obs[i].identity
    requires BatchThenGates(gate, faults, name, w, package, keys, obs, now, bump).0.failure.None?
    ensures BatchThenGates(gate, faults, name, w, package, keys, obs, now, bump).1[keys[i]] ==
              gate(keys[i], Changed(w.db.seen[(package, keys[i])].identity), None)
  {
    hide ObserveBatch, ObserveAll, CheckAll;
    var (observed, checks) := ObserveBatch(faults, ClearFailure(w), package, obs, now, bump);
    BatchSucceeded(gate, faults, name, w, package, keys, obs, now, bump);
    assert Versions(obs) == keys;
    BatchPerVersion(w.db.seen, package, obs, now, bump, i);
    CheckMapAt(keys, checks, i);
    ChangedIsBlocked(gate, faults, name, CheckMap(keys, checks), observed, keys, i);
  }

  lemma BatchSucceeded(gate: Gate, faults: Faults, name: string, w: World, package: string, keys: seq<string>,
                       obs: seq<Observation>, now: int, bump: bool)
    requires |keys| == |obs| > 0 && FailsClosed(gate)
    requires BatchThenGates(gate, faults, name, w, package, keys, obs, now, bump).0.failure.None?
    ensures ObserveBatch(faults, ClearFailure(w), package, obs, now, bump).1 ==
              CheckAll(w.db.seen, package, obs, now, bump)
  {
    hide BatchThenGates, ObserveAll, CheckAll;
    BatchThenGatesNotesFirstFailure(gate, faults, name, w, package, keys, obs, now, bump);
    BatchClock(gate, faults, name, w, package, keys, obs, now, bump);
    FirstFaultExactly(faults, w.clock, BatchThenGates(gate, faults, name, w, package, keys, obs, now, bump).0.clock);
  }

  lemma BatchClock(gate: Gate, faults: Faults, name: string, w: World, package: string, keys: seq<string>,
                   obs: seq<Observation>, now: int, bump: bool)
    requires |keys| == |obs| > 0
    ensures BatchThenGates(gate, faults, name, w, package, keys, obs, now, bump).0.clock > w.clock
  {
    hide ObserveAll, CheckAll;
    var (observed, checks) := ObserveBatch(faults, ClearFailure(w), package, obs, now, bump);
    assert keys[..0] == [];
    ClockMonotone(gate, faults, name, CheckMap(keys, checks), observed, keys, 0);
  }

  /**
   Published hashes, end to end. A version is first seen with one integrity, in a request whose batch
   succeeds; whatever happens next, as long as its row is there, an answer to a request whose document
   publishes another integrity for it withholds it as IntegrityChanged.
   */
  lemma ReplacedHashIsWithheld(f: Foreign, faults: Faults, w: World, first: Request, steps: seq<Step>, q: Request,
                               v: string, s: string, t: string)
    requires Parse(q.document).Ok? && v in DocumentVersions(first.document) && v in DocumentVersions(q.document)
    requires Publishes(DocumentVersions(first.document)[v], "integrity", s)
    requires Publishes(DocumentVersions(q.document)[v], "integrity", t) && s != t
    requires first.package == q.package && (q.package, v) !in w.db.seen && faults(w.clock).None?
    requires var seen := Evaluated(f, faults, w, first).0;
      forall n :: 0 <= n <= |steps| ==> (q.package, v) in Run(f, faults, seen, steps[..n]).db.seen
    ensures var answer := Evaluated(f, faults, Run(f, faults, Evaluated(f, faults, w, first).0, steps), q).1;
      answer.Ok? ==>
        && v !in DocumentVersions(answer.value.packument)
        && exists record :: record in answer.value.blocked && record.version == v && record.reason == IntegrityChanged
  {
    hide Evaluated, Run, DocumentVersions, Parse, Publishes, VersionIdentity, ObserveAll, DifferingInRun;
    var seen, key := Evaluated(f, faults, w, first).0, (q.package, v);
    FirstHashRecorded(f, faults, w, first, v, s);
    RowsAreFrozen(f, faults, seen, steps, key);
    var d := Parse(q.document).value;
    ParsedVersions(q.document, d);
    IdentityReads(d.versions[v]);
    ReplacedVersionIsWithheld(f, faults, Run(f, faults, seen, steps), q, d, v);
  }

  /** A first sight records the published integrity. */
  lemma FirstHashRecorded(f: Foreign, faults: Faults, w: World, first: Request, v: string, s: string)
    requires v in DocumentVersions(first.document) && Publishes(DocumentVersions(first.document)[v], "integrity", s)
    requires (first.package, v) !in w.db.seen && faults(w.clock).None?
    ensures var seen := Evaluated(f, faults, w, first).0.db.seen;
      (first.package, v) in seen && seen[(first.package, v)].identity == Some(s)
  {
    hide Evaluated, Parse, Publishes, VersionIdentity, ObserveAll, AllObservations, DocumentVersions;
    RequestTables(f, faults, w, first);
    var versions := DocumentVersions(first.document);
    CheckOfVersion(w.db.seen, first.package, versions, first.now, !first.cached, v);
    IdentityReads(versions[v]);
  }

  /**
   The same once the replacement has been noticed or a rule names the version: then no run, pruning
   included, lets the row go.
   */
  lemma ReplacedHashNeverComesBack(f: Foreign, faults: Faults, w: World, steps: seq<Step>, q: Request, v: string,
                                   s: string, t: string)
    requires Parse(q.document).Ok? && v in DocumentVersions(q.document)
    requires Publishes(DocumentVersions(q.document)[v], "integrity", t) && s != t
    requires var key := (q.package, v);
      key in w.db.seen && w.db.seen[key].identity == Some(s) && (w.db.seen[key].mismatches > 0 || key in w.db.rules)
    ensures var answer := Evaluated(f, faults, Run(f, faults, w, steps), q).1;
      answer.Ok? ==>
        && v !in DocumentVersions(answer.value.packument)
        && exists record :: record in answer.value.blocked && record.version == v && record.reason == IntegrityChanged
  {
    hide Evaluated, Run, DocumentVersions, Parse, Publishes, VersionIdentity, DifferingInRun;
    EvidenceIsPermanent(f, faults, w, steps, (q.package, v));
    var d := Parse(q.document).value;
    ParsedVersions(q.document, d);
    IdentityReads(d.versions[v]);
    ReplacedVersionIsWithheld(f, faults, Run(f, faults, w, steps), q, d, v);
  }

  // -- a standing deny rule -----------------------------------------------------------------------------

  /** A version under a deny rule is blocked, whether or not its lookup fails. */
  lemma {:induction false} DeniedIsBlocked(gate: Gate, faults: Faults, name: string, checks: map<string, Check>,
                                           w: World, keys: seq<string>, i: nat)
    requires FailsClosed(gate) && Distinct(keys) && i < |keys|
    requires forall k :: k in keys ==> k in checks
    requires (name, keys[i]) in w.db.rules && w.db.rules[(name, keys[i])].rule.verdict.Deny?
    ensures Gates(gate, faults, name, checks, w, keys).1[keys[i]].Block?
  {
    hide Gates, GateOne;
    var n := |keys| - 1;
    LastGate(gate, faults, name, checks, w, keys);
    if i < n {
      DeniedIsBlocked(gate, faults, name, checks, w, keys[..n], i);
      assert keys[i] != keys[n];
    } else {
      GatesKeepTables(gate, faults, name, checks, w, keys[..n]);
      DeniedGate(gate, faults, name, checks[keys[n]], Gates(gate, faults, name, checks, w, keys[..n]).0, keys[n]);
    }
  }

  lemma DeniedGate(gate: Gate, faults: Faults, name: string, check: Check, w: World, v: string)
    requires FailsClosed(gate)
    requires (name, v) in w.db.rules && w.db.rules[(name, v)].rule.verdict.Deny?
    ensures GateOne(gate, faults, name, check, w, v).1.Block?
  {
  }

  /**
   Whatever fails, an answered request withholds every version that a deny rule names under the
   document's own name.
   */
  lemma DeniedVersionIsWithheld(f: Foreign, faults: Faults, w: World, q: Request, d: Document, v: string)
    requires Parse(q.document) == Ok(d) && v in d.versions
    requires (d.name, v) in w.db.rules && w.db.rules[(d.name, v)].rule.verdict.Deny?
    ensures var answer := Evaluated(f, faults, w, q).1;
      answer.Ok? ==>
        && v !in DocumentVersions(answer.value.packument)
        && exists record :: record in answer.value.blocked && record.version == v
  {
    hide Gates, GateOf, FailsClosed, Outcomes, RecordBlocksIn, ObserveBatch, CheckMap, AllObservations;
    var keys, obs := SortedKeys(d.versions.Keys), AllObservations(d.versions);
    var gate := GateOf(f, q.cfg, q.now, d);
    EngineFailsClosed(f, q.cfg, q.now, d);
    var (observed, checks) := ObserveBatch(faults, ClearFailure(w), q.package, obs, q.now, !q.cached);
    BatchTables(faults, ClearFailure(w), q.package, obs, q.now, !q.cached);
    assert v in keys;
    var i :| 0 <= i < |keys| && keys[i] == v;
    DeniedIsBlocked(gate, faults, d.name, CheckMap(keys, checks), observed, keys, i);
    var decisions := Gated(f, faults, w, q, d).1;
    assert decisions[v].Block?;
    ParsedVersions(q.document, d);
    OutcomeParts(f, q.cfg, d, decisions);
    hide Gated, BatchThenGates;
    BlockedIsRecorded(f, q.cfg, d, decisions, v);
  }

  lemma BlockedIsRecorded(f: Foreign, cfg: Config, d: Document, decisions: map<string, Decision>, v: string)
    requires decisions.Keys == d.versions.Keys && Parse(Object(d.root)) == Ok(d)
    requires v in decisions && decisions[v].Block?
    ensures var outcome := Outcomes(f, cfg, d, decisions);
      && v !in DocumentVersions(outcome.packument)
      && exists record :: record in outcome.blocked && record.version == v
  {
    hide Parse, Rebuilt, Outcomes, DocumentVersions;
    OutcomeParts(f, cfg, d, decisions);
    var packument := Outcomes(f, cfg, d, decisions).packument;
    ParsedVersions(packument, Parse(packument).value);
    RecordedExactlyWhenBlocked(f, cfg, d, decisions, v);
  }

  // -- over whole runs --------------------------------------------------------------------------------

  /**
   Once a mismatch is on record, no run brings the replacement back: every later request that is
   answered withholds, as IntegrityChanged, any identity other than the first one ever recorded.
   */
  lemma ReplacementNeverComesBack(f: Foreign, faults: Faults, w: World, steps: seq<Step>, q: Request, d: Document,
                                  v: string)
    requires (q.package, v) in w.db.seen && w.db.seen[(q.package, v)].mismatches > 0
    requires Parse(q.document) == Ok(d) && v in d.versions
    requires VersionIdentity(d.versions[v]) != w.db.seen[(q.package, v)].identity
    ensures var answer := Evaluated(f, faults, Run(f, faults, w, steps), q).1;
      answer.Ok? ==>
        && v !in DocumentVersions(answer.value.packument)
        && exists record :: record in answer.value.blocked && record.version == v && record.reason == IntegrityChanged
  {
    hide Evaluated, Run, DocumentVersions, Parse;
    EvidenceIsPermanent(f, faults, w, steps, (q.package, v));
    ReplacedVersionIsWithheld(f, faults, Run(f, faults, w, steps), q, d, v);
  }

  // -- the audit log over whole runs --------------------------------------------------------------------

  /** The clock reading a step stamps its rows with, if it may append any. */
  function Stamp(step: Step): Option<int> {
    match step
    case RecordARule(_, now) => Some(UnixSeconds(now))
    case Serve(request) => Some(UnixSeconds(request.now))
    case AppendRow(row) => Some(row.ts)
    case _ => None
  }

  ghost predicate NeverGoesBack(from: int, steps: seq<Step>) {
    && (forall i :: 0 <= i < |steps| && Stamp(steps[i]).Some? ==> Stamp(steps[i]).value >= from)
    && (forall i, j :: 0 <= i < j < |steps| && Stamp(steps[i]).Some? && Stamp(steps[j]).Some? ==>
          Stamp(steps[i]).value <= Stamp(steps[j]).value)
  }

  ghost predicate LogUpTo(audit: seq<AuditRow>, latest: int) {
    && NoRepeatedVerdict(audit) && MonotoneTimestamps(audit)
    && forall i :: 0 <= i < |audit| ==> audit[i].ts <= latest
  }

  function LatestStamp(from: int, steps: seq<Step>): int {
    if steps == [] then from
    else if Stamp(steps[|steps| - 1]).Some? then Stamp(steps[|steps| - 1]).value
    else LatestStamp(from, steps[..|steps| - 1])
  }

  lemma {:induction false} LatestStampBounds(from: int, steps: seq<Step>)
    requires NeverGoesBack(from, steps)
    ensures LatestStamp(from, steps) >= from
    ensures forall i :: 0 <= i < |steps| && Stamp(steps[i]).Some? ==> Stamp(steps[i]).value <= LatestStamp(from, steps)
    ensures LatestStamp(from, steps) != from ==>
              exists i :: 0 <= i < |steps| && Stamp(steps[i]) == Some(LatestStamp(from, steps))
  {
    if steps != [] && Stamp(steps[|steps| - 1]).None? {
      var front := steps[..|steps| - 1];
      assert forall i :: 0 <= i < |front| ==> front[i] == steps[i];
      LatestStampBounds(from, front);
    }
  }

  lemma {:induction false} RecordBlocksStamps(f: Foreign, audit: seq<AuditRow>, name: string,
                                              blocked: seq<BlockRecord>, now: int, latest: int)
    requires LogUpTo(audit, latest) && latest <= UnixSeconds(now)
    ensures LogUpTo(RecordBlocks(f, audit, name, blocked, now), UnixSeconds(now))
  {
    if blocked != [] {
      RecordBlocksStamps(f, audit, name, blocked[..|blocked| - 1], now, latest);
    }
    RecordBlocksKeepsNoRepeat(f, audit, name, blocked, now);
  }

  lemma AppendStamps(audit: seq<AuditRow>, row: AuditRow, latest: int)
    requires LogUpTo(audit, latest) && latest <= row.ts && !IsBlockRow(row)
    ensures LogUpTo(audit + [row], row.ts)
  {
    AppendKeepsNoRepeat(audit, row);
  }

  /** What a request does to the log: nothing, or one recording of its blocks. */
  lemma RequestLog(f: Foreign, faults: Faults, w: World, q: Request) returns (blocked: seq<BlockRecord>)
    ensures var after := Evaluated(f, faults, w, q).0;
      after.db.audit in {w.db.audit, RecordBlocks(f, w.db.audit, q.package, blocked, q.now)}
  {
    hide Parse, DocumentVersions, AllObservations, GateOf, ObserveBatch, ObserveAll, BatchThenGates, RecordBlocks;
    hide Outcomes;
    var obs := AllObservations(DocumentVersions(q.document));
    BatchTables(faults, ClearFailure(w), q.package, obs, q.now, !q.cached);
    blocked := [];
    if Parse(q.document).Ok? {
      var d := Parse(q.document).value;
      ParsedVersions(q.document, d);
      BatchThenGatesTables(GateOf(f, q.cfg, q.now, d), faults, d.name, w, q.package,
                           SortedKeys(d.versions.Keys), obs, q.now, !q.cached);
      var (gated, decisions) := Gated(f, faults, w, q, d);
      blocked := Outcomes(f, q.cfg, d, decisions).blocked;
      BlocksKeepLog(f, faults, gated, q.package, blocked, q.now);
      hide Gated, RecordBlocksIn;
    }
  }

  lemma BlocksKeepLog(f: Foreign, faults: Faults, w: World, package: string, blocked: seq<BlockRecord>, now: int)
    ensures RecordBlocksIn(f, faults, w, package, blocked, now).0.db.audit in
              {w.db.audit, RecordBlocks(f, w.db.audit, package, blocked, now)}
  {
    hide RecordBlocks;
  }

  /**
   The log never repeats a verdict. Over every run in which block and tamper rows come only from
   requests and the clock does not go back, no two consecutive rows about the same package,
   version and event carry the same reason, across any number of prunes.
   */
  lemma {:induction false} LogNeverRepeats(f: Foreign, faults: Faults, w: World, steps: seq<Step>, from: int)
    requires LogUpTo(w.db.audit, from)
    requires NeverGoesBack(from, steps)
    requires forall i :: 0 <= i < |steps| && steps[i].AppendRow? ==> !IsBlockRow(steps[i].row)
    ensures LogUpTo(Run(f, faults, w, steps).db.audit, LatestStamp(from, steps))
  {
    if steps != [] {
      var front, step := steps[..|steps| - 1], steps[|steps| - 1];
      assert forall i :: 0 <= i < |front| ==> front[i] == steps[i];
      LogNeverRepeats(f, faults, w, front, from);
      LatestStampBounds(from, front);
      LatestStampBounds(from, steps);
      LogStep(f, faults, Run(f, faults, w, front), step, LatestStamp(from, front));
    }
  }

  lemma LogStep(f: Foreign, faults: Faults, w: World, step: Step, latest: int)
    requires LogUpTo(w.db.audit, latest)
    requires step.AppendRow? ==> !IsBlockRow(step.row)
    requires Stamp(step).Some? ==> latest <= Stamp(step).value
    ensures LogUpTo(Apply(f, faults, w, step).db.audit, if Stamp(step).Some? then Stamp(step).value else latest)
  {
    hide Evaluated, NoRepeatedVerdict, RecordBlocks, PruneAudit, ObserveBatch;
    match step
    case Observe(name, obs, now, bump) => BatchTables(faults, w, name, obs, now, bump);
    case RecordARule(rule, now) =>
      AuditedRuleMayStandUnaudited(f, faults, w, rule, now);
      AppendStamps(w.db.audit, RuleEntry(f, rule, now), latest);
    case PruneTheLedger(before) =>
    case PruneTheLog(before) =>
      PruningKeepsNoRepeat(w.db.audit, before);
      var cut := PruningDropsAPrefix(w.db.audit, before);
    case AppendRow(row) => AppendStamps(w.db.audit, row, latest);
    case Serve(q) =>
      var blocked := RequestLog(f, faults, w, q);
      RecordBlocksStamps(f, w.db.audit, q.package, blocked, q.now, latest);
  }
}
