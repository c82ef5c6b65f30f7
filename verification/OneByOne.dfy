/**
 The engine driven the plain way, one ledger observation per version between rule lookups, and
 why observing the whole packument in one batch first means the same.
 */
module OneByOne {
  import opened Basics
  import opened Json
  import opened Policy
  import opened Filter
  import opened Ledger
  import opened Database
  import opened MemoryLedger
  import opened Request
  import opened Order
  import S = Store

  /** `policy::evaluate` with the store as its ledger: observe, look up, decide, next version. */
  function EngineSteps(gate: Gate, faults: Faults, name: string, w: World, keys: seq<string>, obs: seq<Observation>,
                       now: int, bump: bool): (World, map<string, Decision>)
    requires |keys| == |obs|
  {
    if keys == [] then (w, map[])
    else
      var n := |keys| - 1;
      var (before, decided) := EngineSteps(gate, faults, name, w, keys[..n], obs[..n], now, bump);
      var (observed, checks) := ObserveBatch(faults, before, name, [obs[n]], now, bump);
      var (after, decision) := GateOne(gate, faults, name, checks[0], observed, keys[n]);
      (after, decided[keys[n] := decision])
  }

  method RunEngine(store: S.Store, gate: Gate, name: string, keys: seq<string>, obs: seq<Observation>, now: int,
                   bump: bool)
    returns (decisions: map<string, Decision>)
    requires |keys| == |obs|
    modifies store
    ensures (store.Contents(), decisions) ==
              EngineSteps(gate, store.faults, name, old(store.Contents()), keys, obs, now, bump)
  {
    decisions := map[];
    for i := 0 to |keys|
      invariant (store.Contents(), decisions) ==
                  EngineSteps(gate, store.faults, name, old(store.Contents()), keys[..i], obs[..i], now, bump)
    {
      hide Database.ObserveBatch, Database.Lookup;
      assert keys[..i + 1][..i] == keys[..i] && obs[..i + 1][..i] == obs[..i];
      var checks := store.ObserveBatch(name, [obs[i]], now, bump);
      var rule: Option<Rule> := None;
      if !checks[0].Changed? {
        rule := store.Lookup((name, keys[i]));
      }
      decisions := decisions[keys[i] := gate(keys[i], checks[0], rule)];
    }
    assert keys[..|keys|] == keys && obs[..|obs|] == obs;
  }

  /** One observation in a transaction of its own. */
  lemma ObserveSingle(faults: Faults, w: World, name: string, o: Observation, now: int, bump: bool)
    requires NoFaults(faults)
    ensures var (after, checks) := ObserveBatch(faults, w, name, [o], now, bump);
      && checks == [CheckOne(w.db.seen, (name, o.version), o.identity)]
      && after == Tick(w).(db := w.db.(seen := ObserveOne(w.db.seen, (name, o.version), o.identity, now, bump)))
  {
    assert [o][..0] == [];
    assert ObserveAll(w.db.seen, name, [], now, bump) == w.db.seen;
    assert CheckAll(w.db.seen, name, [], now, bump) == [];
  }

  /** Step by step the engine leaves the batch's ledger and decides from the batch's checks. */
  lemma {:induction false} EngineStepsArePure(gate: Gate, faults: Faults, name: string, w: World, keys: seq<string>,
                                              obs: seq<Observation>, now: int, bump: bool)
    requires |keys| == |obs| && NoFaults(faults) && FailsClosed(gate) && Distinct(keys)
    ensures var (after, decisions) := EngineSteps(gate, faults, name, w, keys, obs, now, bump);
      && after.db == w.db.(seen := ObserveAll(w.db.seen, name, obs, now, bump))
      && after.failure == w.failure
      && decisions == Decisions(gate, name, CheckMap(keys, CheckAll(w.db.seen, name, obs, now, bump)), w.db)
  {
    if keys != [] {
      var n := |keys| - 1;
      EngineStepsArePure(gate, faults, name, w, keys[..n], obs[..n], now, bump);
      hide ObserveBatch;
      var before := EngineSteps(gate, faults, name, w, keys[..n], obs[..n], now, bump).0;
      ObserveSingle(faults, before, name, obs[n], now, bump);
      var checks := CheckAll(w.db.seen, name, obs, now, bump);
      assert checks[..n] == CheckAll(w.db.seen, name, obs[..n], now, bump);
      DecisionsGrow(gate, name, keys, checks, w.db);
    }
  }

  lemma DecisionsGrow(gate: Gate, name: string, keys: seq<string>, checks: seq<Check>, db: Db)
    requires |keys| == |checks| > 0 && Distinct(keys)
    ensures var n := |keys| - 1;
      Decisions(gate, name, CheckMap(keys, checks), db) ==
        Decisions(gate, name, CheckMap(keys[..n], checks[..n]), db)[
          keys[n] := gate(keys[n], checks[n], RuleFor(db, (name, keys[n])))]
  {
    assert keys[|keys| - 1] !in keys[..|keys| - 1];
  }

  /** The two forms on any names, as functions of the tables. */
  lemma BothForms(f: Foreign, faults: Faults, w: World, q: Request, d: Document)
    requires NoFaults(faults)
    ensures var keys, obs := SortedKeys(d.versions.Keys), AllObservations(d.versions);
      var gate := GateOf(f, q.cfg, q.now, d);
      var (stepped, decisions) := EngineSteps(gate, faults, d.name, ClearFailure(w), keys, obs, q.now, !q.cached);
      var (gated, batched) := Gated(f, faults, w, q, d);
      && gated.db == w.db.(seen := ObserveAll(w.db.seen, q.package, obs, q.now, !q.cached))
      && stepped.db == w.db.(seen := ObserveAll(w.db.seen, d.name, obs, q.now, !q.cached))
      && gated.failure == stepped.failure == None
      && batched == Decisions(gate, d.name, BatchChecks(w.db.seen, q.package, d.versions, q.now, !q.cached), w.db)
      && decisions == Decisions(gate, d.name, BatchChecks(w.db.seen, d.name, d.versions, q.now, !q.cached), w.db)
  {
    hide GateOf, EngineSteps, BatchThenGates, Decisions;
    var gate := GateOf(f, q.cfg, q.now, d);
    var keys, obs := SortedKeys(d.versions.Keys), AllObservations(d.versions);
    EngineFailsClosed(f, q.cfg, q.now, d);
    EngineStepsArePure(gate, faults, d.name, ClearFailure(w), keys, obs, q.now, !q.cached);
    BatchThenGatesWithoutFaults(gate, faults, d.name, w, q.package, keys, obs, q.now, !q.cached);
    assert ClearFailure(w).db == w.db;
    var checks := CheckAll(w.db.seen, d.name, obs, q.now, !q.cached);
    SameRules(gate, d.name, CheckMap(keys, checks), ClearFailure(w).db, w.db);
  }

  /**
   One batch means the same as one observation per version. With no storage failure, and the
   request's package name being the document's, observing everything first and deciding from the
   looked-up checks gives the decisions and the tables of the engine that observes and looks up
   version by version.
   */
  lemma BatchMeansOneByOne(f: Foreign, faults: Faults, w: World, q: Request, d: Document)
    requires NoFaults(faults)
    requires q.package == d.name
    ensures var keys := SortedKeys(d.versions.Keys);
      var (stepped, decisions) := EngineSteps(GateOf(f, q.cfg, q.now, d), faults, d.name, ClearFailure(w), keys,
                                              AllObservations(d.versions), q.now, !q.cached);
      var (gated, batched) := Gated(f, faults, w, q, d);
      && batched == decisions
      && gated.db == stepped.db
      && gated.failure == stepped.failure == None
  {
    hide GateOf, EngineSteps, Gated, BatchChecks, ObserveAll, AllObservations;
    BothForms(f, faults, w, q, d);
  }

  /** The row exists and records this identity. */
  predicate Records(seen: Seen, key: Key, identity: Option<string>) {
    key in seen && seen[key].identity == identity
  }

  /** The row exists and records another identity. */
  predicate Contradicts(seen: Seen, key: Key, identity: Option<string>) {
    key in seen && seen[key].identity != identity
  }

  /** Observing leaves a row as it is exactly when it matches and the times are not bumped. */
  lemma RowStaysExactlyWhen(seen: Seen, key: Key, identity: Option<string>, now: int, bump: bool)
    ensures (key in seen && ObserveOne(seen, key, identity, now, bump)[key] == seen[key]) <==>
              !bump && Records(seen, key, identity)
  {
  }

  /** Whether the batch under either name leaves a version's rows as they are. */
  lemma BatchLeavesRow(seen: Seen, name: string, versions: map<string, Value>, now: int, bump: bool, v: string)
    requires v in versions
    ensures var key, after := (name, v), ObserveAll(seen, name, AllObservations(versions), now, bump);
      (key in seen && key in after && after[key] == seen[key]) <==>
        !bump && Records(seen, key, VersionIdentity(versions[v]))
    ensures (name, v) in ObserveAll(seen, name, AllObservations(versions), now, bump)
  {
    hide VersionIdentity;
    CheckOfVersion(seen, name, versions, now, bump, v);
    RowStaysExactlyWhen(seen, (name, v), VersionIdentity(versions[v]), now, bump);
  }

  lemma BatchLeavesOthers(seen: Seen, name: string, versions: map<string, Value>, now: int, bump: bool, key: Key)
    requires key.0 != name || key.1 !in versions
    ensures var after := ObserveAll(seen, name, AllObservations(versions), now, bump);
      (key in after <==> key in seen) && (key in after ==> after[key] == seen[key])
  {
    assert Versions(AllObservations(versions)) == SortedKeys(versions.Keys);
    BatchTouchesOnlyItsVersions(seen, name, AllObservations(versions), now, bump, key);
  }

  /** Batches under two names leave the same ledger exactly when neither changes a row. */
  lemma LedgersAgreeExactlyWhen(seen: Seen, a: string, b: string, versions: map<string, Value>, now: int, bump: bool)
    requires a != b
    ensures var obs := AllObservations(versions);
      ObserveAll(seen, a, obs, now, bump) == ObserveAll(seen, b, obs, now, bump) <==>
        forall v :: v in versions ==>
          && !bump
          && Records(seen, (a, v), VersionIdentity(versions[v]))
          && Records(seen, (b, v), VersionIdentity(versions[v]))
  {
    hide ObserveAll, AllObservations, VersionIdentity, Records;
    var obs := AllObservations(versions);
    var under, other := ObserveAll(seen, a, obs, now, bump), ObserveAll(seen, b, obs, now, bump);
    forall v | v in versions
      ensures (under == other ==> !bump && Records(seen, (a, v), VersionIdentity(versions[v]))
                                  && Records(seen, (b, v), VersionIdentity(versions[v])))
    {
      BatchLeavesRow(seen, a, versions, now, bump, v);
      BatchLeavesRow(seen, b, versions, now, bump, v);
      BatchLeavesOthers(seen, b, versions, now, bump, (a, v));
      BatchLeavesOthers(seen, a, versions, now, bump, (b, v));
    }
    if forall v :: v in versions ==> !bump && Records(seen, (a, v), VersionIdentity(versions[v]))
                                     && Records(seen, (b, v), VersionIdentity(versions[v])) {
      BatchLeavesAll(seen, a, versions, now, bump);
      BatchLeavesAll(seen, b, versions, now, bump);
    }
  }

  lemma BatchLeavesAll(seen: Seen, name: string, versions: map<string, Value>, now: int, bump: bool)
    requires forall v :: v in versions ==> !bump && Records(seen, (name, v), VersionIdentity(versions[v]))
    ensures ObserveAll(seen, name, AllObservations(versions), now, bump) == seen
  {
    hide ObserveAll, AllObservations, VersionIdentity;
    var after := ObserveAll(seen, name, AllObservations(versions), now, bump);
    forall key: Key
      ensures (key in after <==> key in seen) && (key in seen ==> after[key] == seen[key])
    {
      if key.0 == name && key.1 in versions {
        BatchLeavesRow(seen, name, versions, now, bump, key.1);
        assert key == (name, key.1);
      } else {
        BatchLeavesOthers(seen, name, versions, now, bump, key);
      }
    }
  }

  /** What the ledger says against a version under one name. */
  function Objection(seen: Seen, key: Key, identity: Option<string>): Option<Option<string>> {
    if Contradicts(seen, key, identity) then Some(seen[key].identity) else None
  }

  /** A decision depends on the check only through what the ledger objects. */
  lemma DecisionsAgreeExactlyWhen(f: Foreign, cfg: Config, now: int, d: Document, v: string, seen: Seen, a: Key, b: Key,
                                  identity: Option<string>, rule: Option<Rule>)
    ensures var gate := GateOf(f, cfg, now, d);
      gate(v, CheckOne(seen, a, identity), rule) == gate(v, CheckOne(seen, b, identity), rule) <==>
        Objection(seen, a, identity) == Objection(seen, b, identity)
  {
    hide UnderQuarantine, InstallHooks, ScriptsSha256, VersionIntegrity, AgeSeconds, VersionIdentity;
  }

  /**
   Exactly when the batch and the stepwise engine agree, whatever name the document carries. The
   request path records under the name in the URL, the engine under the name in the document. The
   tables come out equal if and only if the names are the same or nothing is recorded at all: the
   document comes from cache and both rows of every version exist and match. The decisions are
   equal if and only if, version by version, the ledger objects to the same identity, or to
   nothing, under both names.
   */
  lemma NamesAgreeExactlyWhen(f: Foreign, faults: Faults, w: World, q: Request, d: Document)
    requires NoFaults(faults)
    ensures var keys, obs := SortedKeys(d.versions.Keys), AllObservations(d.versions);
      var (stepped, decisions) := EngineSteps(GateOf(f, q.cfg, q.now, d), faults, d.name, ClearFailure(w), keys, obs,
                                              q.now, !q.cached);
      var (gated, batched) := Gated(f, faults, w, q, d);
      && (gated.db == stepped.db <==>
            || q.package == d.name
            || (forall v :: v in d.versions ==>
                  && q.cached
                  && Records(w.db.seen, (q.package, v), VersionIdentity(d.versions[v]))
                  && Records(w.db.seen, (d.name, v), VersionIdentity(d.versions[v]))))
      && (batched == decisions <==>
            forall v :: v in d.versions ==>
              Objection(w.db.seen, (q.package, v), VersionIdentity(d.versions[v])) ==
              Objection(w.db.seen, (d.name, v), VersionIdentity(d.versions[v])))
      && gated.failure == stepped.failure == None
  {
    hide GateOf, EngineSteps, Gated, ObserveAll, AllObservations, VersionIdentity, Records, Objection, BatchChecks;
    BothForms(f, faults, w, q, d);
    if q.package != d.name {
      LedgersAgreeExactlyWhen(w.db.seen, q.package, d.name, d.versions, q.now, !q.cached);
    }
    DecisionTablesAgree(f, w.db, q, d);
  }

  lemma DecisionTablesAgree(f: Foreign, db: Db, q: Request, d: Document)
    ensures var gate := GateOf(f, q.cfg, q.now, d);
      Decisions(gate, d.name, BatchChecks(db.seen, q.package, d.versions, q.now, !q.cached), db) ==
      Decisions(gate, d.name, BatchChecks(db.seen, d.name, d.versions, q.now, !q.cached), db) <==>
        forall v :: v in d.versions ==>
          Objection(db.seen, (q.package, v), VersionIdentity(d.versions[v])) ==
          Objection(db.seen, (d.name, v), VersionIdentity(d.versions[v]))
  {
    hide GateOf, VersionIdentity, Objection, BatchChecks, CheckOne, RuleFor, ObserveOne, ObserveAll;
    var gate := GateOf(f, q.cfg, q.now, d);
    var a := Decisions(gate, d.name, BatchChecks(db.seen, q.package, d.versions, q.now, !q.cached), db);
    var b := Decisions(gate, d.name, BatchChecks(db.seen, d.name, d.versions, q.now, !q.cached), db);
    forall v | v in d.versions
      ensures a[v] == b[v] <==>
                Objection(db.seen, (q.package, v), VersionIdentity(d.versions[v])) ==
                Objection(db.seen, (d.name, v), VersionIdentity(d.versions[v]))
    {
      CheckOfVersion(db.seen, q.package, d.versions, q.now, !q.cached, v);
      CheckOfVersion(db.seen, d.name, d.versions, q.now, !q.cached, v);
      DecisionsAgreeExactlyWhen(f, q.cfg, q.now, d, v, db.seen, (q.package, v), (d.name, v),
                                VersionIdentity(d.versions[v]), RuleFor(db, (d.name, v)));
    }
  }

  lemma SameRules(gate: Gate, name: string, checks: map<string, Check>, a: Db, b: Db)
    requires a.rules == b.rules
    ensures Decisions(gate, name, checks, a) == Decisions(gate, name, checks, b)
  {
  }

  /** The engine on the in-memory stores. */
  function MemorySteps(gate: Gate, name: string, rules: map<Key, Rule>, entries: Entries, keys: seq<string>,
                       obs: seq<Observation>, now: int): (Entries, map<string, Decision>)
    requires |keys| == |obs|
  {
    if keys == [] then (entries, map[])
    else
      var n := |keys| - 1;
      var (before, decided) := MemorySteps(gate, name, rules, entries, keys[..n], obs[..n], now);
      var (after, check) := MemoryObserve(before, (name, obs[n].version), obs[n].identity, now);
      var rule := if (name, keys[n]) in rules then Some(rules[(name, keys[n])]) else None;
      (after, decided[keys[n] := gate(keys[n], check, if check.Changed? then None else rule)])
  }

  function PlainRules(db: Db): map<Key, Rule> {
    map key | key in db.rules :: db.rules[key].rule
  }

  /**
   The database agrees with the in-memory reference. At a whole-second clock, with counters that
   do not reach their 64-bit ceiling, a bumping evaluation decides as the engine on the in-memory
   stores does and leaves the ledger that engine leaves.
   */
  lemma {:induction false} BatchMeansInMemory(gate: Gate, name: string, db: Db, keys: seq<string>,
                                              obs: seq<Observation>, now: int, bound: nat)
    requires |keys| == |obs| && FailsClosed(gate) && Distinct(keys)
    requires now % SECOND == 0
    requires CountersBelow(db.seen, bound) && bound + |keys| <= U64_MAX
    ensures var (entries, decisions) := MemorySteps(gate, name, PlainRules(db), LiftAll(db.seen), keys, obs, now);
      && entries == LiftAll(ObserveAll(db.seen, name, obs, now, true))
      && decisions == Decisions(gate, name, CheckMap(keys, CheckAll(db.seen, name, obs, now, true)), db)
      && CountersBelow(ObserveAll(db.seen, name, obs, now, true), bound + |keys|)
  {
    if keys != [] {
      var n := |keys| - 1;
      BatchMeansInMemory(gate, name, db, keys[..n], obs[..n], now, bound);
      hide MemoryObserve, ObserveOne;
      var before := ObserveAll(db.seen, name, obs[..n], now, true);
      ObserveAgrees(before, (name, obs[n].version), obs[n].identity, now, bound + n);
      var checks := CheckAll(db.seen, name, obs, now, true);
      assert checks[..n] == CheckAll(db.seen, name, obs[..n], now, true);
      DecisionsGrow(gate, name, keys, checks, db);
    }
  }
}
