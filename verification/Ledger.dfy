/**
 The `seen` table: the trust-on-first-use integrity ledger. An observation compares and
 records; a batch observes every version of one packument in a single transaction.
 */
module Ledger {
  import opened Basics
  import opened Policy

  /** `(name, version)`, the primary key of `seen` and the unique key of `rules`. */
  type Key = (string, string)

  datatype SeenRow = SeenRow(
    identity: Option<string>,
    firstSeen: int,
    lastSeen: int,
    timesSeen: nat,
    mismatches: nat,
    lastMismatch: Option<int>)

  type Seen = map<Key, SeenRow>

  datatype Observation = Observation(version: string, identity: Option<string>)

  /** `DateTime::timestamp`: whole Unix seconds, rounded down. */
  function UnixSeconds(now: int): int {
    now / SECOND
  }

  /** The second a time lies in. */
  lemma UnixSecondsReads(now: int, seconds: int)
    ensures UnixSeconds(now) == seconds <==> seconds * SECOND <= now < (seconds + 1) * SECOND
  {
  }

  function FirstSight(identity: Option<string>, seconds: int): SeenRow {
    SeenRow(identity, seconds, seconds, 1, 0, None)
  }

  /** What one observation leaves in the row; the recorded identity is never overwritten. */
  function Reobserved(row: SeenRow, identity: Option<string>, seconds: int, bump: bool): SeenRow {
    if row.identity != identity then row.(mismatches := row.mismatches + 1, lastMismatch := Some(seconds))
    else if bump then row.(lastSeen := seconds, timesSeen := row.timesSeen + 1)
    else row
  }

  function ObserveOne(seen: Seen, key: Key, identity: Option<string>, now: int, bump: bool): Seen {
    seen[key := if key in seen then Reobserved(seen[key], identity, UnixSeconds(now), bump)
                else FirstSight(identity, UnixSeconds(now))]
  }

  function CheckOne(seen: Seen, key: Key, identity: Option<string>): Check {
    if key !in seen then Unseen
    else if seen[key].identity == identity then Match
    else Changed(seen[key].identity)
  }

  /** The ledger after a batch: one observation after another. */
  function ObserveAll(seen: Seen, name: string, obs: seq<Observation>, now: int, bump: bool): Seen {
    if obs == [] then seen
    else
      var last := obs[|obs| - 1];
      ObserveOne(ObserveAll(seen, name, obs[..|obs| - 1], now, bump), (name, last.version), last.identity, now, bump)
  }

  /** The verdicts of a batch, each against the ledger the earlier observations left. */
  function CheckAll(seen: Seen, name: string, obs: seq<Observation>, now: int, bump: bool): (r: seq<Check>)
    ensures |r| == |obs|
  {
    if obs == [] then []
    else
      var front, last := obs[..|obs| - 1], obs[|obs| - 1];
      CheckAll(seen, name, front, now, bump) +
      [CheckOne(ObserveAll(seen, name, front, now, bump), (name, last.version), last.identity)]
  }

  /** `prune_seen`: old, never mismatched and named by no rule. */
  predicate Prunable(key: Key, row: SeenRow, ruled: set<Key>, before: int) {
    row.lastSeen < UnixSeconds(before) && row.mismatches == 0 && key !in ruled
  }

  function PruneSeen(seen: Seen, ruled: set<Key>, before: int): Seen {
    map key | key in seen && !Prunable(key, seen[key], ruled, before) :: seen[key]
  }

  /** How many observations of this version in the batch differ from an identity. */
  function Differing(name: string, obs: seq<Observation>, key: Key, identity: Option<string>): nat {
    if obs == [] then 0
    else
      var last := obs[|obs| - 1];
      Differing(name, obs[..|obs| - 1], key, identity) +
      (if (name, last.version) == key && last.identity != identity then 1 else 0)
  }

  function Versions(obs: seq<Observation>): (r: seq<string>)
    ensures |r| == |obs|
    ensures forall i :: 0 <= i < |obs| ==> r[i] == obs[i].version
  {
    seq(|obs|, i requires 0 <= i < |obs| => obs[i].version)
  }

  /** A batch never rewrites evidence, and counts exactly the observations that differ from it. */
  lemma {:induction false} BatchKeepsEvidence(seen: Seen, name: string, obs: seq<Observation>, now: int, bump: bool,
                                              key: Key)
    requires key in seen
    ensures var after := ObserveAll(seen, name, obs, now, bump);
      && key in after
      && after[key].identity == seen[key].identity
      && after[key].firstSeen == seen[key].firstSeen
      && after[key].mismatches == seen[key].mismatches + Differing(name, obs, key, seen[key].identity)
  {
    if obs != [] {
      BatchKeepsEvidence(seen, name, obs[..|obs| - 1], now, bump, key);
    }
  }

  /** Versions outside the batch keep their rows, and none appears out of nothing. */
  lemma {:induction false} BatchTouchesOnlyItsVersions(seen: Seen, name: string, obs: seq<Observation>, now: int,
                                                       bump: bool, key: Key)
    requires key.0 != name || key.1 !in Versions(obs)
    ensures var after := ObserveAll(seen, name, obs, now, bump);
      (key in after <==> key in seen) && (key in after ==> after[key] == seen[key])
  {
    if obs != [] {
      var front := obs[..|obs| - 1];
      assert forall i :: 0 <= i < |front| ==> Versions(front)[i] == Versions(obs)[i];
      assert Versions(obs)[|obs| - 1] == obs[|obs| - 1].version;
      BatchTouchesOnlyItsVersions(seen, name, front, now, bump, key);
    }
  }

  /**
   What a batch answers and records for the i-th of its distinct versions: unseen exactly when
   the ledger had no row, in which case the first sight is recorded; otherwise the verdict
   compares with the recorded identity and only the bookkeeping moves.
   */
  lemma {:induction false} BatchPerVersion(seen: Seen, name: string, obs: seq<Observation>, now: int, bump: bool,
                                           i: nat)
    requires Distinct(Versions(obs)) && i < |obs|
    ensures var key, identity := (name, obs[i].version), obs[i].identity;
      && CheckAll(seen, name, obs, now, bump)[i] == CheckOne(seen, key, identity)
      && key in ObserveAll(seen, name, obs, now, bump)
      && ObserveAll(seen, name, obs, now, bump)[key] == ObserveOne(seen, key, identity, now, bump)[key]
  {
    var front := obs[..|obs| - 1];
    assert forall k :: 0 <= k < |front| ==> Versions(front)[k] == Versions(obs)[k];
    if i == |obs| - 1 {
      assert obs[i].version !in Versions(front) by {
        assert Versions(obs)[i] == obs[i].version;
      }
      BatchTouchesOnlyItsVersions(seen, name, front, now, bump, (name, obs[i].version));
    } else {
      BatchPerVersion(seen, name, front, now, bump, i);
      assert Versions(obs)[i] != Versions(obs)[|obs| - 1];
    }
  }

  /**
   Exactly what pruning keeps: a row last seen in the second of the cutoff or later, and any row with a
   mismatch or a rule.
   */
  lemma PruningKeepsExactly(seen: Seen, ruled: set<Key>, before: int, key: Key)
    ensures key in PruneSeen(seen, ruled, before) <==>
              key in seen && (before < (seen[key].lastSeen + 1) * SECOND || seen[key].mismatches > 0 || key in ruled)
    ensures key in PruneSeen(seen, ruled, before) ==> PruneSeen(seen, ruled, before)[key] == seen[key]
  {
  }

  /** Pruning drops exactly the prunable rows and rewrites none; a mismatch or a rule protects a row. */
  lemma PruningKeepsEvidence(seen: Seen, ruled: set<Key>, before: int, key: Key)
    requires key in seen
    ensures key in PruneSeen(seen, ruled, before) ==> PruneSeen(seen, ruled, before)[key] == seen[key]
    ensures seen[key].mismatches > 0 || key in ruled ==> key in PruneSeen(seen, ruled, before)
  {
  }
}
