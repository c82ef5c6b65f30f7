/**
 One request: clear the failure slot, observe every version in one batch, run the gates with one
 rule lookup per version, answer a gateway error if the store failed, record the blocks.
 */
module Request {
  import opened Basics
  import opened Json
  import opened Order
  import opened Policy
  import opened Filter
  import opened Ledger
  import opened Audit
  import opened Database
  import S = Store

  datatype Request = Request(document: Value, package: string, cfg: Config, now: int, cached: bool)

  datatype RequestError = Malformed(error: PolicyError) | StoreUnavailable(detail: string)

  function DocumentVersions(document: Value): map<string, Value> {
    var versions := if document.Object? then GetObject(document.fields, "versions") else None;
    if versions.Some? then versions.value else map[]
  }

  lemma ParsedVersions(document: Value, d: Document)
    requires Parse(document) == Ok(d)
    ensures DocumentVersions(document) == d.versions
    ensures document == Object(d.root) && Parse(Object(d.root)) == Ok(d)
  {
  }

  /** `(version, identity)` for the given versions. */
  function Observations(versions: map<string, Value>, keys: seq<string>): (r: seq<Observation>)
    requires forall k :: k in keys ==> k in versions
    ensures |r| == |keys|
    ensures forall i :: 0 <= i < |keys| ==> r[i] == Observation(keys[i], VersionIdentity(versions[keys[i]]))
  {
    seq(|keys|, i requires 0 <= i < |keys| => Observation(keys[i], VersionIdentity(versions[keys[i]])))
  }

  /** The batch's verdicts by version. */
  function CheckMap(keys: seq<string>, checks: seq<Check>): (r: map<string, Check>)
    requires |keys| == |checks|
    ensures forall k :: k in keys <==> k in r
  {
    if keys == [] then map[]
    else
      var n := |keys| - 1;
      CheckMap(keys[..n], checks[..n])[keys[n] := checks[n]]
  }

  lemma {:induction false} CheckMapAt(keys: seq<string>, checks: seq<Check>, i: nat)
    requires |keys| == |checks| && Distinct(keys) && i < |keys|
    ensures CheckMap(keys, checks)[keys[i]] == checks[i]
  {
    var n := |keys| - 1;
    if i < n {
      CheckMapAt(keys[..n], checks[..n], i);
      assert keys[i] != keys[n];
    }
  }

  /** The engine's verdict on one version, given its check and the rule the lookup answered. */
  type Gate = (string, Check, Option<Rule>) -> Decision

  function MetaOf(d: Document, v: string): Value {
    if v in d.versions then d.versions[v] else Null
  }

  function GateOf(f: Foreign, cfg: Config, now: int, d: Document): Gate {
    (v, check, rule) => Decide(f, cfg, d.name, MetaOf(d, v), Published(d, v), check, rule, now)
  }

  lemma GateDecides(f: Foreign, cfg: Config, now: int, d: Document, v: string, check: Check, rule: Option<Rule>)
    ensures GateOf(f, cfg, now, d)(v, check, rule) ==
              Decide(f, cfg, d.name, MetaOf(d, v), Published(d, v), check, rule, now)
  {
    hide Decide, MetaOf, Published;
  }

  /** One version: a rule lookup unless the ledger changed. */
  function GateOne(gate: Gate, faults: Faults, name: string, check: Check, w: World, v: string): (World, Decision) {
    if check.Changed? then (w, gate(v, check, None))
    else
      var (after, rule) := Lookup(faults, w, (name, v));
      (after, gate(v, check, rule))
  }

  /** The engine's loop over the versions, from looked-up checks. */
  function Gates(gate: Gate, faults: Faults, name: string, checks: map<string, Check>, w: World, keys: seq<string>)
    : (r: (World, map<string, Decision>))
    requires forall k :: k in keys ==> k in checks
    ensures forall k :: k in keys <==> k in r.1
  {
    if keys == [] then (w, map[])
    else
      var v := keys[|keys| - 1];
      var (before, decided) := Gates(gate, faults, name, checks, w, keys[..|keys| - 1]);
      var (after, decision) := GateOne(gate, faults, name, checks[v], before, v);
      (after, decided[v := decision])
  }

  function AllObservations(versions: map<string, Value>): (r: seq<Observation>)
    ensures |r| == |versions.Keys|
  {
    Observations(versions, SortedKeys(versions.Keys))
  }

  /** One batch over all versions, then the gates. */
  function BatchThenGates(gate: Gate, faults: Faults, name: string, w: World, package: string,
                          keys: seq<string>, obs: seq<Observation>, now: int, bump: bool)
    : (r: (World, map<string, Decision>))
    requires |keys| == |obs|
    ensures forall k :: k in keys <==> k in r.1
  {
    var (observed, checks) := ObserveBatch(faults, ClearFailure(w), package, obs, now, bump);
    Gates(gate, faults, name, CheckMap(keys, checks), observed, keys)
  }

  /** The gates of a well-formed document after its versions were observed. */
  function Gated(f: Foreign, faults: Faults, w: World, q: Request, d: Document): (r: (World, map<string, Decision>))
    ensures r.1.Keys == d.versions.Keys
  {
    BatchThenGates(GateOf(f, q.cfg, q.now, d), faults, d.name, w, q.package,
                   SortedKeys(d.versions.Keys), AllObservations(d.versions), q.now, !q.cached)
  }

  /** The blocking part of `evaluate`. */
  function Evaluated(f: Foreign, faults: Faults, w: World, q: Request): (World, Result<Outcome, RequestError>) {
    match Parse(q.document)
    case Err(error) =>
      var obs := AllObservations(DocumentVersions(q.document));
      (ObserveBatch(faults, ClearFailure(w), q.package, obs, q.now, !q.cached).0, Err(Malformed(error)))
    case Ok(d) =>
      var (gated, decisions) := Gated(f, faults, w, q, d);
      if gated.failure.Some? then (ClearFailure(gated), Err(StoreUnavailable(gated.failure.value)))
      else
        var outcome := Outcomes(f, q.cfg, d, decisions);
        (RecordBlocksIn(f, faults, gated, q.package, outcome.blocked, q.now).0, Ok(outcome))
  }

  /** The request path on the store itself. */
  method Evaluate(store: S.Store, q: Request) returns (r: Result<Outcome, RequestError>)
    modifies store
    ensures (store.Contents(), r) == Evaluated(store.f, store.faults, old(store.Contents()), q)
  {
    hide GateOf, Gates, Outcomes, ObserveBatch, RecordBlocksIn, AllObservations, SortedKeys, CheckMap;
    store.ClearFailure();
    var versions := DocumentVersions(q.document);
    var keys := SortedKeys(versions.Keys);
    var batch := store.ObserveBatch(q.package, AllObservations(versions), q.now, !q.cached);
    var checks := CheckMap(keys, batch);

    var parsed := Parse(q.document);
    if parsed.Err? {
      return Err(Malformed(parsed.error));
    }
    var d := parsed.value;
    ParsedVersions(q.document, d);
    hide Parse, DocumentVersions;
    var decisions := RunGates(store, GateOf(store.f, q.cfg, q.now, d), d.name, checks, keys);
    var failure := store.TakeFailure();
    if failure.Some? {
      return Err(StoreUnavailable(failure.value));
    }
    var outcome := Rebuild(store.f, q.cfg, d, decisions);
    var written := store.RecordBlocks(q.package, outcome.blocked, q.now);
    r := Ok(outcome);
  }

  method RunGates(store: S.Store, gate: Gate, name: string, checks: map<string, Check>, keys: seq<string>)
    returns (decisions: map<string, Decision>)
    requires forall k :: k in keys ==> k in checks
    modifies store
    ensures (store.Contents(), decisions) == Gates(gate, store.faults, name, checks, old(store.Contents()), keys)
  {
    decisions := map[];
    for i := 0 to |keys|
      invariant (store.Contents(), decisions) ==
                  Gates(gate, store.faults, name, checks, old(store.Contents()), keys[..i])
    {
      assert keys[..i + 1][..i] == keys[..i];
      var v := keys[i];
      var rule: Option<Rule> := None;
      if !checks[v].Changed? {
        rule := store.Lookup((name, v));
      }
      decisions := decisions[v := gate(v, checks[v], rule)];
    }
    assert keys[..|keys|] == keys;
  }

  // -- storage failures ---------------------------------------------------------------------------

  /** The error of the first failing operation among `from..until`. */
  function FirstFault(faults: Faults, from: nat, until: nat): Option<string>
    requires from <= until
    decreases until
  {
    if from == until then None
    else
      var earlier := FirstFault(faults, from, until - 1);
      if earlier.Some? then earlier else faults(until - 1)
  }

  lemma {:induction false} FirstFaultExactly(faults: Faults, from: nat, until: nat)
    requires from <= until
    ensures FirstFault(faults, from, until).None? <==> (forall n :: from <= n < until ==> faults(n).None?)
    decreases until
  {
    if from < until {
      FirstFaultExactly(faults, from, until - 1);
    }
  }

  function RuleFor(db: Db, key: Key): Option<Rule> {
    if key in db.rules then Some(db.rules[key].rule) else None
  }

  /** A changed check and a denying rule both block, and a changed check ignores the rule. */
  ghost predicate FailsClosed(gate: Gate) {
    && (forall v, check: Check, rule :: check.Changed? ==>
          gate(v, check, rule).Block? && gate(v, check, rule) == gate(v, check, None))
    && (forall v, check, rule: Rule :: rule.verdict.Deny? ==> gate(v, check, Some(rule)).Block?)
  }

  lemma EngineFailsClosed(f: Foreign, cfg: Config, now: int, d: Document)
    ensures FailsClosed(GateOf(f, cfg, now, d))
  {
  }

  /** A changed check costs no operation, any other exactly one lookup; a failure ends in a block. */
  lemma GateOneFailsClosed(gate: Gate, faults: Faults, name: string, check: Check, w: World, v: string)
    requires FailsClosed(gate)
    ensures var (after, decision) := GateOne(gate, faults, name, check, w, v);
      && after.db == w.db
      && after.clock == w.clock + (if check.Changed? then 0 else 1)
      && after.failure == (if w.failure.Some? || check.Changed? then w.failure else faults(w.clock))
      && (decision.Serve? ==> !check.Changed? && faults(w.clock).None?)
  {
  }

  /** The gates change no table, and the slot ends with the first error since `start`. */
  lemma {:induction false} GatesNoteFirstFailure(gate: Gate, faults: Faults, name: string, checks: map<string, Check>,
                                                 w: World, keys: seq<string>, start: nat)
    requires FailsClosed(gate)
    requires forall k :: k in keys ==> k in checks
    requires start <= w.clock && w.failure == FirstFault(faults, start, w.clock)
    ensures var after := Gates(gate, faults, name, checks, w, keys).0;
      && after.db == w.db
      && w.clock <= after.clock
      && after.failure == FirstFault(faults, start, after.clock)
  {
    if keys != [] {
      var front, v := keys[..|keys| - 1], keys[|keys| - 1];
      GatesNoteFirstFailure(gate, faults, name, checks, w, front, start);
      GateOneFailsClosed(gate, faults, name, checks[v], Gates(gate, faults, name, checks, w, front).0, v);
    }
  }

  lemma LastGate(gate: Gate, faults: Faults, name: string, checks: map<string, Check>, w: World, keys: seq<string>)
    requires keys != [] && forall k :: k in keys ==> k in checks
    ensures var v := keys[|keys| - 1];
      var before := Gates(gate, faults, name, checks, w, keys[..|keys| - 1]);
      var (after, decision) := GateOne(gate, faults, name, checks[v], before.0, v);
      Gates(gate, faults, name, checks, w, keys) == (after, before.1[v := decision])
  {
    hide GateOne;
  }

  /** A served version passed the ledger, and the lookup of its rule succeeded. */
  lemma {:induction false} ServedWasLookedUp(gate: Gate, faults: Faults, name: string, checks: map<string, Check>,
                                             w: World, keys: seq<string>, i: nat)
    requires FailsClosed(gate)
    requires Distinct(keys) && i < |keys|
    requires forall k :: k in keys ==> k in checks
    ensures Gates(gate, faults, name, checks, w, keys).1[keys[i]].Serve? ==>
              && checks[keys[i]] in {Unseen, Match}
              && faults(Gates(gate, faults, name, checks, w, keys[..i]).0.clock).None?
  {
    hide Gates, GateOne, Lookup;
    var n := |keys| - 1;
    var front := keys[..n];
    LastGate(gate, faults, name, checks, w, keys);
    GateOneFailsClosed(gate, faults, name, checks[keys[n]], Gates(gate, faults, name, checks, w, front).0, keys[n]);
    hide FailsClosed;
    if i < n {
      ServedWasLookedUp(gate, faults, name, checks, w, front, i);
      assert front[..i] == keys[..i] && keys[i] != keys[n];
    }
  }

  /** Whatever the slot held, after batch and gates it holds the first error of this request. */
  lemma BatchThenGatesNotesFirstFailure(gate: Gate, faults: Faults, name: string, w: World, package: string,
                                        keys: seq<string>, obs: seq<Observation>, now: int, bump: bool)
    requires |keys| == |obs| && FailsClosed(gate)
    ensures var after := BatchThenGates(gate, faults, name, w, package, keys, obs, now, bump).0;
      w.clock <= after.clock && after.failure == FirstFault(faults, w.clock, after.clock)
  {
    var (observed, checks) := ObserveBatch(faults, ClearFailure(w), package, obs, now, bump);
    assert observed.failure == FirstFault(faults, w.clock, observed.clock);
    GatesNoteFirstFailure(gate, faults, name, CheckMap(keys, checks), observed, keys, w.clock);
  }

  /** The world in which the gates come to the i-th version. */
  function ReachedVersion(gate: Gate, faults: Faults, name: string, w: World, package: string,
                          keys: seq<string>, obs: seq<Observation>, now: int, bump: bool, i: nat): World
    requires |keys| == |obs| && i <= |keys|
  {
    var (observed, checks) := ObserveBatch(faults, ClearFailure(w), package, obs, now, bump);
    Gates(gate, faults, name, CheckMap(keys, checks), observed, keys[..i]).0
  }

  /**
   A served version passed the ledger and its rule was looked up: its check is Unseen or Match,
   it comes from a batch that did not fail, and the lookup of its own rule, made when the gates
   came to it, did not fail either.
   */
  lemma ServedWasCheckedAndLookedUp(gate: Gate, faults: Faults, name: string, w: World, package: string,
                                    keys: seq<string>, obs: seq<Observation>, now: int, bump: bool, i: nat)
    requires |keys| == |obs| && FailsClosed(gate) && Distinct(keys) && i < |keys|
    requires BatchThenGates(gate, faults, name, w, package, keys, obs, now, bump).1[keys[i]].Serve?
    ensures faults(w.clock).None?
    ensures CheckAll(w.db.seen, package, obs, now, bump)[i] in {Unseen, Match}
    ensures var reached := ReachedVersion(gate, faults, name, w, package, keys, obs, now, bump, i);
      && w.clock < reached.clock < BatchThenGates(gate, faults, name, w, package, keys, obs, now, bump).0.clock
      && TryLookupRule(faults, reached, (name, keys[i])).1.Ok?
  {
    hide Lookup, ObserveAll, CheckAll;
    var (observed, checks) := ObserveBatch(faults, ClearFailure(w), package, obs, now, bump);
    var found := CheckMap(keys, checks);
    ServedWasLookedUp(gate, faults, name, found, observed, keys, i);
    CheckMapAt(keys, checks, i);
    LookupBetween(gate, faults, name, found, observed, keys, i);
  }

  /** The lookup for the i-th version comes after the batch and before the slot is taken. */
  lemma LookupBetween(gate: Gate, faults: Faults, name: string, checks: map<string, Check>, w: World,
                      keys: seq<string>, i: nat)
    requires i < |keys|
    requires forall k :: k in keys ==> k in checks
    requires !checks[keys[i]].Changed?
    ensures w.clock <= Gates(gate, faults, name, checks, w, keys[..i]).0.clock
                     < Gates(gate, faults, name, checks, w, keys).0.clock
  {
    assert keys[..i][..0] == [] && keys[..i + 1][..i] == keys[..i];
    ClockMonotone(gate, faults, name, checks, w, keys[..i], 0);
    ClockMonotone(gate, faults, name, checks, w, keys, i + 1);
  }

  /** Looking up more versions never takes the clock back. */
  lemma {:induction false} ClockMonotone(gate: Gate, faults: Faults, name: string, checks: map<string, Check>,
                                         w: World, keys: seq<string>, i: nat)
    requires i <= |keys|
    requires forall k :: k in keys ==> k in checks
    ensures Gates(gate, faults, name, checks, w, keys[..i]).0.clock <=
              Gates(gate, faults, name, checks, w, keys).0.clock
  {
    if i == |keys| {
      assert keys[..i] == keys;
    } else {
      ClockMonotone(gate, faults, name, checks, w, keys[..|keys| - 1], i);
      assert keys[..|keys| - 1][..i] == keys[..i];
    }
  }

  /**
   One request at a time fails closed and says so. If any operation before the answer failed, the
   request ends as StoreUnavailable carrying the first error, whatever the slot held before; and
   it ends so only then.
   */
  lemma RequestReportsFailures(f: Foreign, faults: Faults, w: World, q: Request, d: Document)
    requires Parse(q.document) == Ok(d)
    ensures var answer := Evaluated(f, faults, w, q).1;
      var take := Gated(f, faults, w, q, d).0.clock;
      && w.clock <= take
      && (answer.Ok? <==> (forall n :: w.clock <= n < take ==> faults(n).None?))
      && (answer.Err? ==> FirstFault(faults, w.clock, take).Some?
                          && answer == Err(StoreUnavailable(FirstFault(faults, w.clock, take).value)))
  {
    hide Rebuilt, RecordBlocks, Blocked, BatchThenGates;
    EngineFailsClosed(f, q.cfg, q.now, d);
    BatchThenGatesNotesFirstFailure(GateOf(f, q.cfg, q.now, d), faults, d.name, w, q.package,
                                    SortedKeys(d.versions.Keys), AllObservations(d.versions), q.now, !q.cached);
    FirstFaultExactly(faults, w.clock, Gated(f, faults, w, q, d).0.clock);
  }

  /** What an answer serves was checked by a batch that succeeded and looked up in a rules table that could be read. */
  lemma AnswersServeCheckedVersions(f: Foreign, faults: Faults, w: World, q: Request, d: Document, v: string)
    requires Parse(q.document) == Ok(d)
    requires Evaluated(f, faults, w, q).1.Ok?
    requires v in DocumentVersions(Evaluated(f, faults, w, q).1.value.packument)
    ensures v in d.versions
    ensures CheckOne(w.db.seen, (q.package, v), VersionIdentity(d.versions[v])) in {Unseen, Match}
    ensures faults(w.clock).None?
    ensures exists i :: LookedUpInTurn(f, faults, w, q, d, v, i)
  {
    hide Outcomes, RecordBlocks, BatchThenGates, GateOf, CheckAll, ObserveAll, Parse, Evaluated, DocumentVersions;
    hide ReachedVersion, TryLookupRule, ObserveBatch, Gates, VersionIdentity, Lookup;
    var keys := SortedKeys(d.versions.Keys);
    var obs := AllObservations(d.versions);
    EngineFailsClosed(f, q.cfg, q.now, d);
    AnsweredVersionsServed(f, faults, w, q, d, v);
    assert v in keys;
    var i :| 0 <= i < |keys| && keys[i] == v;
    hide FailsClosed, SortedKeys, CheckOne, LookedUpInTurn;
    ServedWasCheckedAndLookedUp(GateOf(f, q.cfg, q.now, d), faults, d.name, w, q.package, keys, obs, q.now, !q.cached,
                                i);
    assert Versions(obs) == keys;
    BatchPerVersion(w.db.seen, q.package, obs, q.now, !q.cached, i);
    InTurn(f, faults, w, q, d, v, i);
  }

  lemma InTurn(f: Foreign, faults: Faults, w: World, q: Request, d: Document, v: string, i: nat)
    requires var keys := SortedKeys(d.versions.Keys); i < |keys| && keys[i] == v
    requires var keys, obs := SortedKeys(d.versions.Keys), AllObservations(d.versions);
      var gate := GateOf(f, q.cfg, q.now, d);
      var reached := ReachedVersion(gate, faults, d.name, w, q.package, keys, obs, q.now, !q.cached, i);
      var after := BatchThenGates(gate, faults, d.name, w, q.package, keys, obs, q.now, !q.cached).0;
      && w.clock < reached.clock < after.clock
      && TryLookupRule(faults, reached, (d.name, v)).1.Ok?
    ensures LookedUpInTurn(f, faults, w, q, d, v, i)
  {
    hide ReachedVersion, TryLookupRule, BatchThenGates, GateOf, SortedKeys, AllObservations;
  }

  /** The version is the i-th one, and its rule was read when the gates came to it. */
  ghost predicate LookedUpInTurn(f: Foreign, faults: Faults, w: World, q: Request, d: Document, v: string, i: nat) {
    var keys := SortedKeys(d.versions.Keys);
    && i < |keys| && keys[i] == v
    && var reached := ReachedVersion(GateOf(f, q.cfg, q.now, d), faults, d.name, w, q.package, keys,
                                     AllObservations(d.versions), q.now, !q.cached, i);
       && w.clock < reached.clock < Gated(f, faults, w, q, d).0.clock
       && TryLookupRule(faults, reached, (d.name, v)).1.Ok?
  }

  lemma AnsweredVersionsServed(f: Foreign, faults: Faults, w: World, q: Request, d: Document, v: string)
    requires Parse(q.document) == Ok(d)
    requires Evaluated(f, faults, w, q).1.Ok?
    requires v in DocumentVersions(Evaluated(f, faults, w, q).1.value.packument)
    ensures v in d.versions && Gated(f, faults, w, q, d).1[v].Serve?
  {
    hide Outcomes, Gated, GateOf, Parse, AllObservations, RecordBlocksIn;
    var decisions := Gated(f, faults, w, q, d).1;
    ParsedVersions(q.document, d);
    OutcomeParts(f, q.cfg, d, decisions);
    ParsedVersions(Outcomes(f, q.cfg, d, decisions).packument, Parse(Outcomes(f, q.cfg, d, decisions).packument).value);
  }

  // -- without failures -----------------------------------------------------------------------------

  ghost predicate NoFaults(faults: Faults) {
    forall n :: faults(n).None?
  }

  /** The decisions as a function of the checks and the rules table. */
  function Decisions(gate: Gate, name: string, checks: map<string, Check>, db: Db): (r: map<string, Decision>)
    ensures r.Keys == checks.Keys
  {
    map v | v in checks :: gate(v, checks[v], RuleFor(db, (name, v)))
  }

  lemma {:induction false} GatesWithoutFaults(gate: Gate, faults: Faults, name: string, checks: map<string, Check>,
                                              w: World, keys: seq<string>)
    requires NoFaults(faults) && FailsClosed(gate)
    requires forall k :: k in keys ==> k in checks
    ensures var (after, decisions) := Gates(gate, faults, name, checks, w, keys);
      && after.db == w.db && after.failure == w.failure
      && forall v :: v in keys ==> decisions[v] == Decisions(gate, name, checks, w.db)[v]
  {
    if keys != [] {
      GatesWithoutFaults(gate, faults, name, checks, w, keys[..|keys| - 1]);
    }
  }

  /** The verdicts of one batch over a whole document. */
  function BatchChecks(seen: Seen, package: string, versions: map<string, Value>, now: int,
                       bump: bool): (r: map<string, Check>)
    ensures r.Keys == versions.Keys
  {
    CheckMap(SortedKeys(versions.Keys), CheckAll(seen, package, AllObservations(versions), now, bump))
  }

  /** The decisions of a request when nothing fails, as a function of the tables. */
  function AnswerDecisions(f: Foreign, db: Db, q: Request, d: Document): (r: map<string, Decision>)
    ensures r.Keys == d.versions.Keys
  {
    var checks := BatchChecks(db.seen, q.package, d.versions, q.now, !q.cached);
    Decisions(GateOf(f, q.cfg, q.now, d), d.name, checks, db)
  }

  function Answer(f: Foreign, db: Db, q: Request, d: Document): Outcome {
    Outcomes(f, q.cfg, d, AnswerDecisions(f, db, q, d))
  }

  lemma BatchThenGatesWithoutFaults(gate: Gate, faults: Faults, name: string, w: World, package: string,
                                    keys: seq<string>, obs: seq<Observation>, now: int, bump: bool)
    requires |keys| == |obs| && FailsClosed(gate) && NoFaults(faults)
    ensures var (after, decisions) := BatchThenGates(gate, faults, name, w, package, keys, obs, now, bump);
      && decisions == Decisions(gate, name, CheckMap(keys, CheckAll(w.db.seen, package, obs, now, bump)), w.db)
      && after.failure.None?
      && after.db == w.db.(seen := ObserveAll(w.db.seen, package, obs, now, bump))
  {
    var (observed, checks) := ObserveBatch(faults, ClearFailure(w), package, obs, now, bump);
    assert observed.db.rules == w.db.rules;
    GatesWithoutFaults(gate, faults, name, CheckMap(keys, checks), observed, keys);
    var decisions := BatchThenGates(gate, faults, name, w, package, keys, obs, now, bump).1;
    forall v | v in decisions
      ensures decisions[v] == Decisions(gate, name, CheckMap(keys, checks), w.db)[v]
    {
      assert v in keys;
    }
    assert decisions == Decisions(gate, name, CheckMap(keys, checks), w.db);
  }

  /** A request that meets no failure: one batch, pure decisions, one append of blocks. */
  lemma EvaluatedWithoutFaults(f: Foreign, faults: Faults, w: World, q: Request, d: Document)
    requires NoFaults(faults)
    requires Parse(q.document) == Ok(d)
    ensures Evaluated(f, faults, w, q).1 == Ok(Answer(f, w.db, q, d))
    ensures Evaluated(f, faults, w, q).0.db == Db(
              w.db.rules,
              ObserveAll(w.db.seen, q.package, AllObservations(d.versions), q.now, !q.cached),
              RecordBlocks(f, w.db.audit, q.package, Answer(f, w.db, q, d).blocked, q.now))
  {
    hide Rebuilt, Blocked, BatchThenGates;
    EngineFailsClosed(f, q.cfg, q.now, d);
    BatchThenGatesWithoutFaults(GateOf(f, q.cfg, q.now, d), faults, d.name, w, q.package,
                                SortedKeys(d.versions.Keys), AllObservations(d.versions), q.now, !q.cached);
  }

  /** The check a version gets in a batch that succeeds, and the row the batch leaves. */
  lemma CheckOfVersion(seen: Seen, package: string, versions: map<string, Value>, now: int, bump: bool, v: string)
    requires v in versions
    ensures var key, identity := (package, v), VersionIdentity(versions[v]);
      var after := ObserveAll(seen, package, AllObservations(versions), now, bump);
      && BatchChecks(seen, package, versions, now, bump)[v] == CheckOne(seen, key, identity)
      && key in after
      && after[key] == ObserveOne(seen, key, identity, now, bump)[key]
  {
    var keys := SortedKeys(versions.Keys);
    var obs := AllObservations(versions);
    assert v in keys;
    var i :| 0 <= i < |keys| && keys[i] == v;
    assert Versions(obs) == keys;
    BatchPerVersion(seen, package, obs, now, bump, i);
    CheckMapAt(keys, CheckAll(seen, package, obs, now, bump), i);
  }

  lemma ChangedIsBlocked(f: Foreign, cfg: Config, now: int, d: Document, v: string, check: Check, rule: Option<Rule>)
    requires check.Changed?
    ensures GateOf(f, cfg, now, d)(v, check, rule).Block?
  {
  }

  lemma MatchesNext(seen: Seen, after: Seen, key: Key, identity: Option<string>, now: int, bump: bool)
    requires !CheckOne(seen, key, identity).Changed?
    requires key in after && after[key] == ObserveOne(seen, key, identity, now, bump)[key]
    ensures CheckOne(after, key, identity) == Match
  {
  }

  lemma DecisionOf(f: Foreign, db: Db, q: Request, d: Document, v: string)
    requires v in d.versions
    ensures var check := BatchChecks(db.seen, q.package, d.versions, q.now, !q.cached)[v];
      AnswerDecisions(f, db, q, d)[v] == GateOf(f, q.cfg, q.now, d)(v, check, RuleFor(db, (d.name, v)))
  {
    hide GateOf, BatchChecks, RuleFor;
  }

  /** A version that was served is served again on the ledger its evaluation left behind. */
  lemma ServedAgain(f: Foreign, db: Db, after: Db, q: Request, again: Request, d: Document, d2: Document, v: string)
    requires again.cfg == q.cfg && again.now == q.now && again.package == q.package
    requires v in d.versions && v in d2.versions && d2.versions[v] == d.versions[v]
    requires d2.name == d.name && Published(d2, v) == Published(d, v)
    requires after.rules == db.rules
    requires after.seen == ObserveAll(db.seen, q.package, AllObservations(d.versions), q.now, !q.cached)
    requires AnswerDecisions(f, db, q, d)[v].Serve?
    ensures AnswerDecisions(f, after, again, d2)[v].Serve?
  {
    hide GateOf, BatchChecks, ObserveAll, Published, VersionIdentity;
    var key, identity := (q.package, v), VersionIdentity(d.versions[v]);
    var check, rule := CheckOne(db.seen, key, identity), RuleFor(db, (d.name, v));
    CheckOfVersion(db.seen, q.package, d.versions, q.now, !q.cached, v);
    CheckOfVersion(after.seen, q.package, d2.versions, q.now, !again.cached, v);
    DecisionOf(f, db, q, d, v);
    DecisionOf(f, after, again, d2, v);
    hide AnswerDecisions, RuleFor;
    assert GateOf(f, q.cfg, q.now, d)(v, check, rule).Serve?;
    if check.Changed? {
      ChangedIsBlocked(f, q.cfg, q.now, d, v, check, rule);
    }
    MatchesNext(db.seen, after.seen, key, identity, q.now, !q.cached);
    hide CheckOne, ObserveOne;
    assert RuleFor(after, (d2.name, v)) == rule;
    SameDecisionUnchanged(f, q.cfg, q.now, d, d2, v, check, Match, rule);
  }

  lemma SameDecisionUnchanged(f: Foreign, cfg: Config, now: int, d: Document, d2: Document, v: string,
                              check: Check, check2: Check, rule: Option<Rule>)
    requires d2.name == d.name && Published(d2, v) == Published(d, v) && MetaOf(d2, v) == MetaOf(d, v)
    requires !check2.Changed?
    ensures GateOf(f, cfg, now, d)(v, check, rule).Serve? ==> GateOf(f, cfg, now, d2)(v, check2, rule).Serve?
  {
  }

  /**
   Filtering twice is filtering once. Evaluating an answered document again, with the rules, the
   config and the clock unchanged and the ledger the first evaluation left behind, blocks nothing
   and returns the same document, in both dist-tag modes and whether or not it came from cache.
   */
  lemma EvaluatingAgainChangesNothing(f: Foreign, faults: Faults, w: World, q: Request, cached: bool)
    requires NoFaults(faults)
    requires Parse(q.document).Ok?
    ensures var (after, first) := Evaluated(f, faults, w, q);
      && first.Ok?
      && var again := q.(document := first.value.packument, cached := cached);
      && Evaluated(f, faults, after, again).1 == Ok(Outcome(first.value.packument, []))
  {
    hide RecordBlocks, AnswerDecisions, Evaluated, ObserveAll, Outcomes, Parse;
    var d := Parse(q.document).value;
    ParsedVersions(q.document, d);
    EvaluatedWithoutFaults(f, faults, w, q, d);
    var after := Evaluated(f, faults, w, q).0;
    var decisions := AnswerDecisions(f, w.db, q, d);
    OutcomeParts(f, q.cfg, d, decisions);
    var again := q.(document := Answer(f, w.db, q, d).packument, cached := cached);
    var d2 := Parse(again.document).value;
    EvaluatedWithoutFaults(f, faults, after, again, d2);
    var decisions2 := AnswerDecisions(f, after.db, again, d2);
    forall v | v in d2.versions
      ensures decisions2[v].Serve?
    {
      ServedAgain(f, w.db, after.db, q, again, d, d2, v);
    }
    assert d2.versions.Keys == Surviving(decisions);
    SecondPassChangesNothing(f, q.cfg, d, decisions, decisions2);
  }
}
