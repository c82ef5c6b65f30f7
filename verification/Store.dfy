/** The store as the daemon holds it: tables and a failure slot updated in place. */
module Store {
  import opened Basics
  import opened Policy
  import opened Filter
  import opened Ledger
  import opened Audit
  import opened Database

  lemma BatchNext(seen: Seen, name: string, obs: seq<Observation>, i: nat, now: int, bump: bool)
    requires i < |obs|
    ensures var before, key := ObserveAll(seen, name, obs[..i], now, bump), (name, obs[i].version);
      && ObserveAll(seen, name, obs[..i + 1], now, bump) == ObserveOne(before, key, obs[i].identity, now, bump)
      && CheckAll(seen, name, obs[..i + 1], now, bump) ==
           CheckAll(seen, name, obs[..i], now, bump) + [CheckOne(before, key, obs[i].identity)]
  {
    assert obs[..i + 1][..i] == obs[..i];
    hide ObserveOne, CheckOne;
  }

  lemma NextBlock(f: Foreign, audit: seq<AuditRow>, name: string, blocked: seq<BlockRecord>, i: nat, now: int)
    requires i < |blocked|
    ensures Audit.RecordBlocks(f, audit, name, blocked[..i + 1], now) ==
              RecordBlock(f, Audit.RecordBlocks(f, audit, name, blocked[..i], now), name, blocked[i], now)
  {
    assert blocked[..i + 1][..i] == blocked[..i];
    hide RecordBlock;
  }

  class Store {
    const f: Foreign
    const faults: Faults
    var rules: map<Key, StoredRule>
    var seen: Seen
    var audit: seq<AuditRow>
    var clock: nat
    var failure: Option<string>

    ghost function Contents(): World
      reads this
    {
      World(Db(rules, seen, audit), clock, failure)
    }

    constructor (f: Foreign, faults: Faults)
      ensures this.f == f && this.faults == faults
      ensures Contents() == World(Db(map[], map[], []), 0, None)
    {
      this.f, this.faults := f, faults;
      rules, seen, audit, clock, failure := map[], map[], [], 0, None;
    }

    /** The next entry of the fault schedule. */
    method Attempt() returns (error: Option<string>)
      modifies this`clock
      ensures error == faults(old(clock))
      ensures Contents() == Tick(old(Contents()))
    {
      error := faults(clock);
      clock := clock + 1;
    }

    method NoteFailure(error: string)
      modifies this`failure
      ensures Contents() == Database.NoteFailure(old(Contents()), error)
    {
      if failure.None? {
        failure := Some(error);
      }
    }

    method ClearFailure()
      modifies this`failure
      ensures Contents() == Database.ClearFailure(old(Contents()))
    {
      failure := None;
    }

    method TakeFailure() returns (taken: Option<string>)
      modifies this`failure
      ensures taken == old(failure)
      ensures Contents() == Database.ClearFailure(old(Contents()))
    {
      taken := failure;
      failure := None;
    }

    method RecordRule(rule: NewRule, now: int) returns (r: Result<StoredRule, string>)
      modifies this
      ensures (Contents(), r) == Database.RecordRule(f, faults, old(Contents()), rule, now)
    {
      var error := Attempt();
      if error.Some? {
        return Err(error.value);
      }
      var stored := StoreRule(f, rule, now);
      rules := rules[(rule.name, rule.version) := stored];
      r := Ok(stored);
    }

    method AppendAudit(entry: AuditRow) returns (r: Result<nat, string>)
      modifies this
      ensures (Contents(), r) == Database.AppendAudit(faults, old(Contents()), entry)
    {
      var error := Attempt();
      if error.Some? {
        return Err(error.value);
      }
      r := Ok(|audit|);
      audit := audit + [entry];
    }

    method RecordRuleAudited(rule: NewRule, now: int) returns (r: Result<StoredRule, string>)
      modifies this
      ensures (Contents(), r) == Database.RecordRuleAudited(f, faults, old(Contents()), rule, now)
    {
      r := RecordRule(rule, now);
      if r.Err? {
        return;
      }
      var row := AppendAudit(RuleEntry(f, rule, now));
      if row.Err? {
        r := Err(row.error);
      }
    }

    /** Fails closed: a rules table that cannot be read denies the version. */
    method Lookup(key: Key) returns (rule: Option<Rule>)
      modifies this
      ensures (Contents(), rule) == Database.Lookup(faults, old(Contents()), key)
    {
      var error := Attempt();
      if error.Some? {
        NoteFailure(error.value);
        return Some(UnavailableRule(key, error.value));
      }
      rule := if key in rules then Some(rules[key].rule) else None;
    }

    /** The whole batch, or nothing: the loop computes what single observations in this order would. */
    method TryObserveBatch(name: string, obs: seq<Observation>, now: int, bump: bool)
      returns (r: Result<seq<Check>, string>)
      modifies this
      ensures (Contents(), r) == Database.TryObserveBatch(faults, old(Contents()), name, obs, now, bump)
    {
      if obs == [] {
        return Ok([]);
      }
      var error := Attempt();
      if error.Some? {
        return Err(error.value);
      }
      var checks: seq<Check> := [];
      for i := 0 to |obs|
        invariant checks == CheckAll(old(seen), name, obs[..i], now, bump)
        invariant Contents() == Tick(old(Contents())).(
                    db := old(Contents()).db.(seen := ObserveAll(old(seen), name, obs[..i], now, bump)))
      {
        BatchNext(old(seen), name, obs, i, now, bump);
        hide CheckAll, ObserveAll;
        var key := (name, obs[i].version);
        if key !in seen {
          checks := checks + [Unseen];
          seen := seen[key := SeenRow(obs[i].identity, UnixSeconds(now), UnixSeconds(now), 1, 0, None)];
        } else if seen[key].identity == obs[i].identity {
          checks := checks + [Match];
          if bump {
            seen := seen[key := seen[key].(lastSeen := UnixSeconds(now), timesSeen := seen[key].timesSeen + 1)];
          } else {
            assert seen == seen[key := seen[key]];
          }
        } else {
          checks := checks + [Changed(seen[key].identity)];
          seen := seen[key := seen[key].(mismatches := seen[key].mismatches + 1,
                                         lastMismatch := Some(UnixSeconds(now)))];
        }
      }
      assert obs[..|obs|] == obs;
      r := Ok(checks);
    }

    /** Fails closed: a ledger that cannot be read reports every version as changed. */
    method ObserveBatch(name: string, obs: seq<Observation>, now: int, bump: bool) returns (checks: seq<Check>)
      modifies this
      ensures (Contents(), checks) == Database.ObserveBatch(faults, old(Contents()), name, obs, now, bump)
    {
      var r := TryObserveBatch(name, obs, now, bump);
      match r
      case Ok(found) => checks := found;
      case Err(error) =>
        NoteFailure(error);
        checks := AllChanged(|obs|);
    }

    /** A row for each record whose reason is not the latest one on file for its version; all of them or none. */
    method RecordBlocks(name: string, blocked: seq<BlockRecord>, now: int) returns (r: Result<nat, string>)
      modifies this
      ensures (Contents(), r) == RecordBlocksIn(f, faults, old(Contents()), name, blocked, now)
    {
      if blocked == [] {
        return Ok(0);
      }
      var error := Attempt();
      if error.Some? {
        return Err(error.value);
      }
      var written := 0;
      for i := 0 to |blocked|
        invariant Contents() == Tick(old(Contents())).(
                    db := old(Contents()).db.(audit := Audit.RecordBlocks(f, old(audit), name, blocked[..i], now)))
        invariant |audit| == |old(audit)| + written
      {
        NextBlock(f, old(audit), name, blocked, i, now);
        hide BlockEntry, Latest, StartsWith, ReasonPrefix, Audit.RecordBlocks;
        var entry := BlockEntry(f, name, blocked[i], now);
        var previous := Latest(audit, name, blocked[i].version, entry.event);
        if previous.Some? && StartsWith(previous.value.detail, ReasonPrefix(blocked[i].reason)) {
          continue;
        }
        audit := audit + [entry];
        written := written + 1;
      }
      assert blocked[..|blocked|] == blocked;
      r := Ok(written);
    }

    /** Forget what is old, unless a mismatch or a rule depends on it. */
    method PruneSeen(before: int) returns (r: Result<nat, string>)
      modifies this
      ensures (Contents(), r) == PruneLedger(faults, old(Contents()), before)
    {
      var error := Attempt();
      if error.Some? {
        return Err(error.value);
      }
      var kept := map key | key in seen && !Prunable(key, seen[key], rules.Keys, before) :: seen[key];
      assert kept == Ledger.PruneSeen(seen, rules.Keys, before);
      SubsetSize(kept.Keys, seen.Keys);
      r := Ok(|seen.Keys| - |kept.Keys|);
      seen := kept;
    }

    /** Cut the log at a time, and count what went. */
    method PruneAudit(before: int) returns (r: Result<nat, string>)
      modifies this
      ensures (Contents(), r) == PruneLog(faults, old(Contents()), before)
    {
      var error := Attempt();
      if error.Some? {
        return Err(error.value);
      }
      var kept := Audit.PruneAudit(audit, before);
      PruneAuditShrinks(audit, before);
      r := Ok(|audit| - |kept|);
      audit := kept;
    }
  }
}
