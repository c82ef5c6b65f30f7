/**
 The in-memory ledger the engine is specified against, and its agreement with the `seen` table:
 the two answer alike on every run of observations at whole-second times.
 */
module MemoryLedger {
  import opened Basics
  import opened Policy
  import opened Ledger

  datatype LedgerEntry = LedgerEntry(
    integrity: Option<string>,
    firstSeen: int,
    lastSeen: int,
    timesSeen: nat,
    mismatchCount: nat,
    lastMismatch: Option<int>)

  type Entries = map<Key, LedgerEntry>

  /** Times keep their full resolution and counters saturate. */
  function MemoryObserve(entries: Entries, key: Key, integrity: Option<string>, now: int): (Entries, Check) {
    if key !in entries then (entries[key := LedgerEntry(integrity, now, now, 1, 0, None)], Unseen)
    else
      var entry := entries[key];
      if entry.integrity == integrity then
        (entries[key := entry.(lastSeen := now, timesSeen := SaturatingAdd(entry.timesSeen, 1))], Match)
      else
        (entries[key := entry.(mismatchCount := SaturatingAdd(entry.mismatchCount, 1), lastMismatch := Some(now))],
         Changed(entry.integrity))
  }

  class InMemoryLedger {
    var entries: Entries

    constructor ()
      ensures entries == map[]
    {
      entries := map[];
    }

    /** Compare with the recorded hash and record the observation. */
    method Observe(key: Key, integrity: Option<string>, now: int) returns (check: Check)
      modifies this
      ensures (entries, check) == MemoryObserve(old(entries), key, integrity, now)
    {
      if key in entries {
        var entry := entries[key];
        if entry.integrity == integrity {
          entries := entries[key := entry.(lastSeen := now, timesSeen := SaturatingAdd(entry.timesSeen, 1))];
          check := Match;
        } else {
          entries := entries[key := entry.(mismatchCount := SaturatingAdd(entry.mismatchCount, 1),
                                           lastMismatch := Some(now))];
          check := Changed(entry.integrity);
        }
      } else {
        entries := entries[key := LedgerEntry(integrity, now, now, 1, 0, None)];
        check := Unseen;
      }
    }
  }

  /** What a table row says, as an in-memory entry. */
  function Lift(row: SeenRow): LedgerEntry {
    LedgerEntry(
      row.identity,
      row.firstSeen * SECOND,
      row.lastSeen * SECOND,
      row.timesSeen,
      row.mismatches,
      if row.lastMismatch.Some? then Some(row.lastMismatch.value * SECOND) else None)
  }

  function LiftAll(seen: Seen): Entries {
    map key | key in seen :: Lift(seen[key])
  }

  ghost predicate CountersBelow(seen: Seen, bound: nat) {
    forall key :: key in seen ==> seen[key].timesSeen <= bound && seen[key].mismatches <= bound
  }

  /** One bumping observation at a whole second leaves both ledgers in agreement. */
  lemma ObserveAgrees(seen: Seen, key: Key, identity: Option<string>, now: int, bound: nat)
    requires now % SECOND == 0
    requires CountersBelow(seen, bound) && bound < U64_MAX
    ensures MemoryObserve(LiftAll(seen), key, identity, now) ==
              (LiftAll(ObserveOne(seen, key, identity, now, true)), CheckOne(seen, key, identity))
    ensures CountersBelow(ObserveOne(seen, key, identity, now, true), bound + 1)
  {
    assert UnixSeconds(now) * SECOND == now;
    var after := ObserveOne(seen, key, identity, now, true);
    assert LiftAll(after) == LiftAll(seen)[key := Lift(after[key])];
  }

  /** One observation of a run. */
  datatype Sighting = Sighting(key: Key, identity: Option<string>, now: int)

  function TableRun(sightings: seq<Sighting>): (Seen, seq<Check>) {
    if sightings == [] then (map[], [])
    else
      var (seen, checks) := TableRun(sightings[..|sightings| - 1]);
      var s := sightings[|sightings| - 1];
      (ObserveOne(seen, s.key, s.identity, s.now, true), checks + [CheckOne(seen, s.key, s.identity)])
  }

  function MemoryRun(sightings: seq<Sighting>): (Entries, seq<Check>) {
    if sightings == [] then (map[], [])
    else
      var (entries, checks) := MemoryRun(sightings[..|sightings| - 1]);
      var s := sightings[|sightings| - 1];
      var (after, check) := MemoryObserve(entries, s.key, s.identity, s.now);
      (after, checks + [check])
  }

  /** Over every run of whole-second observations the table and the memory ledger stay equal. */
  lemma {:induction false} RunsAgree(sightings: seq<Sighting>)
    requires forall i :: 0 <= i < |sightings| ==> sightings[i].now % SECOND == 0
    requires |sightings| <= U64_MAX
    ensures MemoryRun(sightings) == (LiftAll(TableRun(sightings).0), TableRun(sightings).1)
    ensures CountersBelow(TableRun(sightings).0, |sightings|)
  {
    if sightings != [] {
      var front, s := sightings[..|sightings| - 1], sightings[|sightings| - 1];
      RunsAgree(front);
      ObserveAgrees(TableRun(front).0, s.key, s.identity, s.now, |front|);
    }
  }

  /** The whole second a time lies in. */
  function RoundDown(time: int): int {
    UnixSeconds(time) * SECOND
  }

  function RoundEntry(entry: LedgerEntry): LedgerEntry {
    entry.(firstSeen := RoundDown(entry.firstSeen),
           lastSeen := RoundDown(entry.lastSeen),
           lastMismatch := if entry.lastMismatch.Some? then Some(RoundDown(entry.lastMismatch.value)) else None)
  }

  function RoundAll(entries: Entries): Entries {
    map key | key in entries :: RoundEntry(entries[key])
  }

  predicate WholeSecondEntry(entry: LedgerEntry) {
    && entry.firstSeen % SECOND == 0 && entry.lastSeen % SECOND == 0
    && (entry.lastMismatch.Some? ==> entry.lastMismatch.value % SECOND == 0)
  }

  lemma RoundingIsIdle(entry: LedgerEntry)
    ensures RoundEntry(entry) == entry <==> WholeSecondEntry(entry)
  {
  }

  lemma RowRounds(seen: Seen, entries: Entries, key: Key, identity: Option<string>, now: int)
    requires LiftAll(seen) == RoundAll(entries)
    requires key in seen ==> seen[key].timesSeen < U64_MAX && seen[key].mismatches < U64_MAX
    ensures var (after, check) := MemoryObserve(entries, key, identity, now);
      && Lift(ObserveOne(seen, key, identity, now, true)[key]) == RoundEntry(after[key])
      && CheckOne(seen, key, identity) == check
  {
    assert key in LiftAll(seen) <==> key in RoundAll(entries);
    assert key in seen ==> LiftAll(seen)[key] == RoundAll(entries)[key];
    hide LiftAll, RoundAll;
  }

  /** One bumping observation at any time: the verdicts agree, and so do the rounded ledgers. */
  lemma ObserveRounds(seen: Seen, entries: Entries, key: Key, identity: Option<string>, now: int, bound: nat)
    requires LiftAll(seen) == RoundAll(entries)
    requires CountersBelow(seen, bound) && bound < U64_MAX
    ensures var (after, check) := MemoryObserve(entries, key, identity, now);
      LiftAll(ObserveOne(seen, key, identity, now, true)) == RoundAll(after) && CheckOne(seen, key, identity) == check
    ensures CountersBelow(ObserveOne(seen, key, identity, now, true), bound + 1)
  {
    RowRounds(seen, entries, key, identity, now);
    var table, after := ObserveOne(seen, key, identity, now, true), MemoryObserve(entries, key, identity, now).0;
    assert table == seen[key := table[key]] && after == entries[key := after[key]];
    hide ObserveOne, MemoryObserve, RoundEntry, Lift, CheckOne;
    assert LiftAll(table) == LiftAll(seen)[key := Lift(table[key])];
    assert RoundAll(after) == RoundAll(entries)[key := RoundEntry(after[key])];
  }

  /**
   From any ledger the two share, one bumping observation gives both the same verdict at any time,
   and leaves them equal exactly when it happens at a whole second.
   */
  lemma ObserveAgreesExactlyWhen(seen: Seen, key: Key, identity: Option<string>, now: int, bound: nat)
    requires CountersBelow(seen, bound) && bound < U64_MAX
    ensures MemoryObserve(LiftAll(seen), key, identity, now).1 == CheckOne(seen, key, identity)
    ensures var table := ObserveOne(seen, key, identity, now, true);
      MemoryObserve(LiftAll(seen), key, identity, now).0 == LiftAll(table) <==> now % SECOND == 0
  {
    if now % SECOND == 0 {
      ObserveAgrees(seen, key, identity, now, bound);
    }
    var table, after := ObserveOne(seen, key, identity, now, true), MemoryObserve(LiftAll(seen), key, identity, now).0;
    assert LiftAll(table)[key] == Lift(table[key]);
    assert UnixSeconds(now) * SECOND == now <==> now % SECOND == 0;
    assert after[key] == Lift(table[key]) ==> now % SECOND == 0;
  }

  /** At any times: over every run the verdicts are the same and the table is the memory ledger rounded down. */
  lemma {:induction false} TableIsMemoryRounded(sightings: seq<Sighting>)
    requires |sightings| <= U64_MAX
    ensures LiftAll(TableRun(sightings).0) == RoundAll(MemoryRun(sightings).0)
    ensures TableRun(sightings).1 == MemoryRun(sightings).1
    ensures CountersBelow(TableRun(sightings).0, |sightings|)
  {
    if sightings != [] {
      var front, s := sightings[..|sightings| - 1], sightings[|sightings| - 1];
      TableIsMemoryRounded(front);
      hide LiftAll, RoundAll, MemoryObserve, ObserveOne, CheckOne, CountersBelow;
      ObserveRounds(TableRun(front).0, MemoryRun(front).0, s.key, s.identity, s.now, |front|);
    } else {
      assert LiftAll(map[]) == RoundAll(map[]);
    }
  }

  /** So a run leaves the two equal exactly when every time the memory ledger ends with is a whole second. */
  lemma RunsAgreeExactlyWhen(sightings: seq<Sighting>)
    requires |sightings| <= U64_MAX
    ensures var entries := MemoryRun(sightings).0;
      entries == LiftAll(TableRun(sightings).0) <==> forall key :: key in entries ==> WholeSecondEntry(entries[key])
  {
    TableIsMemoryRounded(sightings);
    var entries := MemoryRun(sightings).0;
    forall key | key in entries
      ensures RoundAll(entries)[key] == entries[key] <==> WholeSecondEntry(entries[key])
    {
      RoundingIsIdle(entries[key]);
    }
    if forall key :: key in entries ==> WholeSecondEntry(entries[key]) {
      assert RoundAll(entries) == entries;
    }
  }
}
