/** The `audit` table, in row-id order, and the rule that a repeated verdict is not appended twice. */
module Audit {
  import opened Basics
  import opened Policy
  import opened Filter
  import Ledger

  datatype Event = BlockEvent | TamperEvent | AllowEvent | DenyEvent | OtherEvent(text: string)

  datatype Severity = Info | Warning | Critical

  datatype AuditRow = AuditRow(
    ts: int,
    event: Event,
    severity: Severity,
    name: string,
    version: Option<string>,
    detail: string)

  const HOOK_MARKER: string := "install hooks present — "

  /** `hook: command` pairs joined by `"; "`. */
  function JoinHooks(hooks: seq<Hook>): string {
    if hooks == [] then ""
    else if |hooks| == 1 then hooks[0].name + ": " + hooks[0].command
    else hooks[0].name + ": " + hooks[0].command + "; " + JoinHooks(hooks[1..])
  }

  /** The operator-facing detail of a block record. */
  function Detail(f: Foreign, evidence: Evidence): string {
    if evidence.HooksPresent? then HOOK_MARKER + JoinHooks(evidence.hooks) else f.wording(evidence)
  }

  function ReasonPrefix(r: Reason): string {
    ReasonText(r) + ": "
  }

  function BlockEventOf(r: Reason): Event {
    if IsCritical(r) then TamperEvent else BlockEvent
  }

  /** `AuditEntry::block`. */
  function BlockEntry(f: Foreign, name: string, record: BlockRecord, now: int): AuditRow {
    AuditRow(
      Ledger.UnixSeconds(now),
      BlockEventOf(record.reason),
      if IsCritical(record.reason) then Critical else Warning,
      name,
      Some(record.version),
      ReasonPrefix(record.reason) + Detail(f, record.evidence))
  }

  /**
   Content that changed under its hash or its commands, and nothing else, is a critical tamper event;
   the row is about the version withheld, carries the whole second, and starts with the reason.
   */
  lemma BlockEntryReads(f: Foreign, name: string, record: BlockRecord, now: int)
    ensures var row := BlockEntry(f, name, record, now);
      && row.ts * SECOND <= now < (row.ts + 1) * SECOND
      && row.name == name && row.version == Some(record.version)
      && (row.event == TamperEvent <==> record.reason in {IntegrityChanged, ScriptsChanged})
      && (row.severity == Critical <==> record.reason in {IntegrityChanged, ScriptsChanged})
      && (row.event == TamperEvent || row.event == BlockEvent)
      && (row.severity == Critical || row.severity == Warning)
      && StartsWith(row.detail, ReasonText(record.reason) + ": ")
      && (row.detail == ReasonText(record.reason) + ": " + f.wording(record.evidence) || record.evidence.HooksPresent?)
  {
    Ledger.UnixSecondsReads(now, Ledger.UnixSeconds(now));
  }

  /** Each reason is one of seven words, in the order of the list. */
  lemma ReasonsRead(r: Reason)
    ensures var words := [
        "integrity_changed", "deny_rule", "too_new", "install_script", "scripts_changed",
        "no_integrity", "install_script_quarantine"];
      var reasons := [
        IntegrityChanged, DenyRule, TooNew, InstallScript, ScriptsChanged, NoIntegrity, InstallScriptQuarantine];
      exists i :: 0 <= i < 7 && r == reasons[i] && ReasonText(r) == words[i]
  {
    var reasons := [
      IntegrityChanged, DenyRule, TooNew, InstallScript, ScriptsChanged, NoIntegrity, InstallScriptQuarantine];
    var i: int :=
      if r.IntegrityChanged? then 0 else if r.DenyRule? then 1 else if r.TooNew? then 2
      else if r.InstallScript? then 3 else if r.ScriptsChanged? then 4 else if r.NoIntegrity? then 5 else 6;
    assert r == reasons[i];
  }

  predicate StartsWith(s: string, prefix: string) {
    |prefix| <= |s| && s[..|prefix|] == prefix
  }

  predicate About(row: AuditRow, name: string, version: string, event: Event) {
    row.name == name && row.version == Some(version) && row.event == event
  }

  /** The newest row about a subject, if any. */
  function Latest(audit: seq<AuditRow>, name: string, version: string, event: Event): Option<AuditRow> {
    if audit == [] then None
    else if About(audit[|audit| - 1], name, version, event) then Some(audit[|audit| - 1])
    else Latest(audit[..|audit| - 1], name, version, event)
  }

  predicate AlreadyRecorded(audit: seq<AuditRow>, name: string, record: BlockRecord) {
    var previous := Latest(audit, name, record.version, BlockEventOf(record.reason));
    previous.Some? && StartsWith(previous.value.detail, ReasonPrefix(record.reason))
  }

  function RecordBlock(f: Foreign, audit: seq<AuditRow>, name: string, record: BlockRecord, now: int): seq<AuditRow> {
    if AlreadyRecorded(audit, name, record) then audit else audit + [BlockEntry(f, name, record, now)]
  }

  function RecordBlocks(f: Foreign, audit: seq<AuditRow>, name: string, blocked: seq<BlockRecord>,
                        now: int): seq<AuditRow> {
    if blocked == [] then audit
    else RecordBlock(f, RecordBlocks(f, audit, name, blocked[..|blocked| - 1], now), name, blocked[|blocked| - 1], now)
  }

  function PruneAudit(audit: seq<AuditRow>, before: int): seq<AuditRow> {
    if audit == [] then []
    else (if audit[0].ts < Ledger.UnixSeconds(before) then [] else [audit[0]]) + PruneAudit(audit[1..], before)
  }

  // -- the reason a row carries -----------------------------------------------------------------

  lemma ReasonTextsDiffer(r: Reason, s: Reason)
    ensures |ReasonText(r)| == |ReasonText(s)| <==> r == s
    ensures ':' !in ReasonText(r)
  {
  }

  /** A detail written for one reason carries the prefix of that reason and of no other. */
  lemma PrefixNamesReason(r: Reason, tail: string, s: Reason)
    ensures StartsWith(ReasonPrefix(r) + tail, ReasonPrefix(s)) <==> r == s
  {
    var detail := ReasonPrefix(r) + tail;
    var m, n := |ReasonText(r)|, |ReasonText(s)|;
    ReasonTextsDiffer(r, s);
    ReasonTextsDiffer(s, r);
    assert detail[..m] == ReasonText(r) && detail[m] == ':';
    if StartsWith(detail, ReasonPrefix(s)) {
      assert detail[..n + 2] == ReasonPrefix(s);
      assert forall i :: 0 <= i < n ==> detail[i] == ReasonPrefix(s)[i] == ReasonText(s)[i];
      assert detail[n] == ReasonPrefix(s)[n] == ':';
      assert forall i :: 0 <= i < m ==> detail[i] == ReasonText(r)[i];
    }
  }

  predicate IsBlockRow(row: AuditRow) {
    row.event in {BlockEvent, TamperEvent}
  }

  /** A block or tamper row that came from `record_blocks`. */
  predicate WrittenFor(row: AuditRow, r: Reason) {
    row.version.Some? && row.event == BlockEventOf(r) && StartsWith(row.detail, ReasonPrefix(r))
  }

  predicate SameSubject(a: AuditRow, b: AuditRow) {
    a.name == b.name && a.version == b.version && a.event == b.event
  }

  /** Rows i and j are about the same subject and no row between them is. */
  ghost predicate Consecutive(audit: seq<AuditRow>, i: int, j: int) {
    && 0 <= i < j < |audit| && SameSubject(audit[i], audit[j])
    && forall k :: i < k < j ==> !SameSubject(audit[k], audit[j])
  }

  ghost predicate SameReason(a: AuditRow, b: AuditRow) {
    exists r :: WrittenFor(a, r) && WrittenFor(b, r)
  }

  ghost predicate EveryBlockHasReason(audit: seq<AuditRow>) {
    forall i :: 0 <= i < |audit| && IsBlockRow(audit[i]) ==> exists r :: WrittenFor(audit[i], r)
  }

  /** Every block row says why, and none repeats the verdict of its predecessor. */
  ghost predicate NoRepeatedVerdict(audit: seq<AuditRow>) {
    && EveryBlockHasReason(audit)
    && (forall i, j :: Consecutive(audit, i, j) && IsBlockRow(audit[j]) ==> !SameReason(audit[i], audit[j]))
  }

  lemma {:induction false} LatestIsLast(audit: seq<AuditRow>, name: string, version: string, event: Event)
    ensures var row := Latest(audit, name, version, event);
      && (row.None? <==> forall i :: 0 <= i < |audit| ==> !About(audit[i], name, version, event))
      && (row.Some? ==> exists i :: 0 <= i < |audit| && audit[i] == row.value && About(audit[i], name, version, event)
                          && forall k :: i < k < |audit| ==> !About(audit[k], name, version, event))
  {
    hide About;
    if audit != [] && !About(audit[|audit| - 1], name, version, event) {
      var front := audit[..|audit| - 1];
      LatestIsLast(front, name, version, event);
      if Latest(front, name, version, event).Some? {
        var i :| 0 <= i < |front| && front[i] == Latest(front, name, version, event).value
          && About(front[i], name, version, event)
          && forall k :: i < k < |front| ==> !About(front[k], name, version, event);
        assert audit[i] == front[i];
      }
    }
  }

  /** Appending any row that does not repeat the verdict before it keeps the log free of repeats. */
  lemma AppendKeepsNoRepeat(audit: seq<AuditRow>, row: AuditRow)
    requires NoRepeatedVerdict(audit)
    requires IsBlockRow(row) ==> exists r :: WrittenFor(row, r)
    requires IsBlockRow(row) ==> forall i :: Consecutive(audit + [row], i, |audit|) ==> !SameReason(audit[i], row)
    ensures NoRepeatedVerdict(audit + [row])
  {
    var all := audit + [row];
    forall i | 0 <= i < |all| && IsBlockRow(all[i])
      ensures exists r :: WrittenFor(all[i], r)
    {
      if i < |audit| {
        assert IsBlockRow(audit[i]);
      }
    }
    forall i, j | Consecutive(all, i, j) && IsBlockRow(all[j])
      ensures !SameReason(all[i], all[j])
    {
      if j < |audit| {
        assert forall k :: i < k < j ==> all[k] == audit[k];
        assert Consecutive(audit, i, j);
      }
    }
  }

  lemma RecordBlockKeepsNoRepeat(f: Foreign, audit: seq<AuditRow>, name: string, record: BlockRecord, now: int)
    requires NoRepeatedVerdict(audit)
    ensures NoRepeatedVerdict(RecordBlock(f, audit, name, record, now))
  {
    if !AlreadyRecorded(audit, name, record) {
      var row := BlockEntry(f, name, record, now);
      var event := BlockEventOf(record.reason);
      PrefixNamesReason(record.reason, Detail(f, record.evidence), record.reason);
      assert WrittenFor(row, record.reason);
      LatestIsLast(audit, name, record.version, event);
      forall i | Consecutive(audit + [row], i, |audit|)
        ensures !SameReason(audit[i], row)
      {
        assert About(audit[i], name, record.version, event);
        var last :| 0 <= last < |audit| && audit[last] == Latest(audit, name, record.version, event).value
          && About(audit[last], name, record.version, event)
          && forall k :: last < k < |audit| ==> !About(audit[k], name, record.version, event);
        if i < last {
          assert SameSubject((audit + [row])[last], row);
        }
        assert i == last;
        forall r | WrittenFor(audit[i], r) && WrittenFor(row, r)
          ensures false
        {
          PrefixNamesReason(record.reason, Detail(f, record.evidence), r);
        }
      }
      AppendKeepsNoRepeat(audit, row);
    }
  }

  /** `record_blocks` keeps the log free of repeated verdicts. */
  lemma {:induction false} RecordBlocksKeepsNoRepeat(f: Foreign, audit: seq<AuditRow>, name: string,
                                                     blocked: seq<BlockRecord>, now: int)
    requires NoRepeatedVerdict(audit)
    ensures NoRepeatedVerdict(RecordBlocks(f, audit, name, blocked, now))
  {
    if blocked != [] {
      RecordBlocksKeepsNoRepeat(f, audit, name, blocked[..|blocked| - 1], now);
      RecordBlockKeepsNoRepeat(f, RecordBlocks(f, audit, name, blocked[..|blocked| - 1], now), name,
                               blocked[|blocked| - 1], now);
    }
  }

  // -- recording the same verdicts again ---------------------------------------------------------

  lemma RecordBlockIsRecorded(f: Foreign, audit: seq<AuditRow>, name: string, record: BlockRecord, now: int)
    ensures AlreadyRecorded(RecordBlock(f, audit, name, record, now), name, record)
  {
    PrefixNamesReason(record.reason, Detail(f, record.evidence), record.reason);
  }

  lemma OtherVersionsStayRecorded(f: Foreign, audit: seq<AuditRow>, name: string, record: BlockRecord, now: int,
                                  r: BlockRecord)
    requires r.version != record.version
    requires AlreadyRecorded(audit, name, r)
    ensures AlreadyRecorded(RecordBlock(f, audit, name, record, now), name, r)
  {
    assert (audit + [BlockEntry(f, name, record, now)])[..|audit|] == audit;
  }

  lemma {:induction false} EveryVerdictRecorded(f: Foreign, audit: seq<AuditRow>, name: string,
                                                blocked: seq<BlockRecord>, now: int, i: nat)
    requires Distinct(RecordNames(blocked)) && i < |blocked|
    ensures AlreadyRecorded(RecordBlocks(f, audit, name, blocked, now), name, blocked[i])
  {
    var front, last := blocked[..|blocked| - 1], blocked[|blocked| - 1];
    var before := RecordBlocks(f, audit, name, front, now);
    assert forall k :: 0 <= k < |front| ==> RecordNames(front)[k] == RecordNames(blocked)[k];
    if i == |blocked| - 1 {
      RecordBlockIsRecorded(f, before, name, last, now);
    } else {
      EveryVerdictRecorded(f, audit, name, front, now, i);
      assert RecordNames(blocked)[i] != RecordNames(blocked)[|blocked| - 1];
      OtherVersionsStayRecorded(f, before, name, last, now, blocked[i]);
    }
  }

  ghost predicate SameVerdicts(a: seq<BlockRecord>, b: seq<BlockRecord>) {
    |a| == |b| && forall i :: 0 <= i < |a| ==> a[i].version == b[i].version && a[i].reason == b[i].reason
  }

  /**
   Recording the same verdicts again appends nothing, at any later time and even when the
   details moved (the age gate renders a live age): only the reason identifies a repeat.
   */
  lemma {:induction false} RecordingAgainAppendsNothing(f: Foreign, audit: seq<AuditRow>, name: string,
                                                        blocked: seq<BlockRecord>, now: int,
                                                        again: seq<BlockRecord>, later: int)
    requires Distinct(RecordNames(blocked))
    requires SameVerdicts(blocked, again)
    ensures var once := RecordBlocks(f, audit, name, blocked, now);
      RecordBlocks(f, once, name, again, later) == once
  {
    var once := RecordBlocks(f, audit, name, blocked, now);
    forall i | 0 <= i < |again|
      ensures AlreadyRecorded(once, name, again[i])
    {
      EveryVerdictRecorded(f, audit, name, blocked, now, i);
    }
    NothingNewIsAppended(f, once, name, again, later);
  }

  lemma {:induction false} NothingNewIsAppended(f: Foreign, audit: seq<AuditRow>, name: string,
                                                blocked: seq<BlockRecord>, now: int)
    requires forall i :: 0 <= i < |blocked| ==> AlreadyRecorded(audit, name, blocked[i])
    ensures RecordBlocks(f, audit, name, blocked, now) == audit
  {
    if blocked != [] {
      NothingNewIsAppended(f, audit, name, blocked[..|blocked| - 1], now);
      assert AlreadyRecorded(audit, name, blocked[|blocked| - 1]);
    }
  }

  // -- pruning -----------------------------------------------------------------------------------

  ghost predicate MonotoneTimestamps(audit: seq<AuditRow>) {
    forall i, j :: 0 <= i < j < |audit| ==> audit[i].ts <= audit[j].ts
  }

  lemma {:induction false} PruningDropsAPrefix(audit: seq<AuditRow>, before: int) returns (cut: nat)
    requires MonotoneTimestamps(audit)
    ensures cut <= |audit| && PruneAudit(audit, before) == audit[cut..]
    ensures forall i :: 0 <= i < |audit| ==> (audit[i].ts < Ledger.UnixSeconds(before) <==> i < cut)
  {
    cut := 0;
    if audit != [] && audit[0].ts < Ledger.UnixSeconds(before) {
      cut := PruningDropsAPrefix(audit[1..], before);
      assert audit[1..][cut..] == audit[cut + 1..];
      cut := cut + 1;
    } else if audit != [] {
      RecentRowsStay(audit, before);
    }
  }

  lemma {:induction false} RecentRowsStay(audit: seq<AuditRow>, before: int)
    requires forall i :: 0 <= i < |audit| ==> audit[i].ts >= Ledger.UnixSeconds(before)
    ensures PruneAudit(audit, before) == audit
  {
    if audit != [] {
      RecentRowsStay(audit[1..], before);
    }
  }

  /** With timestamps that never go back, pruning keeps the log free of repeated verdicts. */
  lemma PruningKeepsNoRepeat(audit: seq<AuditRow>, before: int)
    requires NoRepeatedVerdict(audit) && MonotoneTimestamps(audit)
    ensures NoRepeatedVerdict(PruneAudit(audit, before)) && MonotoneTimestamps(PruneAudit(audit, before))
  {
    var cut := PruningDropsAPrefix(audit, before);
    var kept := PruneAudit(audit, before);
    forall i, j | Consecutive(kept, i, j) && IsBlockRow(kept[j])
      ensures !SameReason(kept[i], kept[j])
    {
      forall k | i + cut < k < j + cut
        ensures !SameSubject(audit[k], audit[j + cut])
      {
        assert kept[k - cut] == audit[k];
      }
      assert Consecutive(audit, i + cut, j + cut);
    }
    forall i | 0 <= i < |kept| && IsBlockRow(kept[i])
      ensures exists r :: WrittenFor(kept[i], r)
    {
      assert IsBlockRow(audit[i + cut]);
    }
  }

  /**
   Between two block rows with one subject and reason stands a row of that subject that no cutoff
   drops before it drops one of them.
   */
  ghost predicate Shielded(audit: seq<AuditRow>) {
    forall i, j :: Repeats(audit, i, j) ==> exists k :: Shields(audit, i, k, j)
  }

  ghost predicate Repeats(audit: seq<AuditRow>, i: int, j: int) {
    0 <= i < j < |audit| && SameSubject(audit[i], audit[j]) && IsBlockRow(audit[j]) && SameReason(audit[i], audit[j])
  }

  ghost predicate Shields(audit: seq<AuditRow>, i: int, k: int, j: int) {
    0 <= i < k < j < |audit| && SameSubject(audit[k], audit[j]) && audit[k].ts >= Min(audit[i].ts, audit[j].ts)
  }

  predicate Survives(row: AuditRow, before: int) {
    row.ts >= Ledger.UnixSeconds(before)
  }

  /** Where a surviving row ends up. */
  function PlaceAfter(audit: seq<AuditRow>, before: int, i: nat): nat
    requires i <= |audit|
  {
    |PruneAudit(audit[..i], before)|
  }

  lemma {:induction false} PruneConcat(a: seq<AuditRow>, b: seq<AuditRow>, before: int)
    ensures PruneAudit(a + b, before) == PruneAudit(a, before) + PruneAudit(b, before)
  {
    hide PruneAudit;
    if a == [] {
      assert a + b == b;
      NothingToPrune(before);
    } else {
      PruneConcat(a[1..], b, before);
      PruneHead(a, before);
      PruneHead(a + b, before);
      assert (a + b)[1..] == a[1..] + b && (a + b)[0] == a[0];
      PrependConcat(a[0], PruneAudit(a[1..], before), PruneAudit(b, before));
    }
  }

  lemma NothingToPrune(before: int)
    ensures PruneAudit([], before) == []
  {
  }

  lemma PrependConcat(row: AuditRow, a: seq<AuditRow>, b: seq<AuditRow>)
    ensures [row] + (a + b) == [row] + a + b
  {
  }

  lemma PruneHead(audit: seq<AuditRow>, before: int)
    requires audit != []
    ensures PruneAudit(audit, before) ==
              if audit[0].ts < Ledger.UnixSeconds(before) then PruneAudit(audit[1..], before)
              else [audit[0]] + PruneAudit(audit[1..], before)
  {
  }

  /** A surviving row keeps its content and its order. */
  lemma SurvivorsKeepPlace(audit: seq<AuditRow>, before: int, i: nat)
    requires i < |audit| && Survives(audit[i], before)
    ensures PlaceAfter(audit, before, i) < |PruneAudit(audit, before)|
    ensures PruneAudit(audit, before)[PlaceAfter(audit, before, i)] == audit[i]
    ensures forall j :: i < j <= |audit| ==> PlaceAfter(audit, before, i) < PlaceAfter(audit, before, j)
  {
    forall j | i < j <= |audit|
      ensures PruneAudit(audit[..i], before) + [audit[i]] <= PruneAudit(audit[..j], before)
    {
      PruneConcat(audit[..i], audit[i..j], before);
      assert audit[..i] + audit[i..j] == audit[..j] && audit[i..j][0] == audit[i];
      assert PruneAudit(audit[i..j], before) == [audit[i]] + PruneAudit(audit[i..j][1..], before);
    }
    assert audit[..|audit|] == audit;
  }

  /** Every row of the pruned log is a surviving row, in its place. */
  lemma {:induction false} KeptRowsSurvived(audit: seq<AuditRow>, before: int, p: nat) returns (i: nat)
    requires p < |PruneAudit(audit, before)|
    ensures i < |audit| && Survives(audit[i], before) && PlaceAfter(audit, before, i) == p
    ensures PruneAudit(audit, before)[p] == audit[i]
  {
    var n := |audit| - 1;
    PruneConcat(audit[..n], [audit[n]], before);
    assert audit[..n] + [audit[n]] == audit;
    assert [audit[n]][1..] == [];
    if p < |PruneAudit(audit[..n], before)| {
      i := KeptRowsSurvived(audit[..n], before, p);
      assert audit[..n][..i] == audit[..i];
    } else {
      i := n;
    }
  }

  /** A row survives a cutoff exactly when it is from its second or later. */
  lemma SurvivesReads(row: AuditRow, before: int)
    ensures Survives(row, before) <==> before < (row.ts + 1) * SECOND
  {
  }

  lemma PlacesInOrder(audit: seq<AuditRow>, before: int, i: nat, j: nat)
    requires i < |audit| && j < |audit| && Survives(audit[i], before) && Survives(audit[j], before)
    ensures PlaceAfter(audit, before, i) < PlaceAfter(audit, before, j) <==> i < j
  {
    SurvivorsKeepPlace(audit, before, i);
    SurvivorsKeepPlace(audit, before, j);
  }

  /** A shielded log stays free of repeats under every cutoff. */
  lemma ShieldedSurvivesPruning(audit: seq<AuditRow>, before: int)
    requires EveryBlockHasReason(audit) && Shielded(audit)
    ensures NoRepeatedVerdict(PruneAudit(audit, before))
  {
    hide PruneAudit, PlaceAfter, SameReason, WrittenFor, SameSubject;
    var kept := PruneAudit(audit, before);
    forall p, q | Consecutive(kept, p, q) && IsBlockRow(kept[q])
      ensures !SameReason(kept[p], kept[q])
    {
      if SameReason(kept[p], kept[q]) {
        var i := KeptRowsSurvived(audit, before, p);
        var j := KeptRowsSurvived(audit, before, q);
        PlacesInOrder(audit, before, i, j);
        assert Repeats(audit, i, j);
        var k :| Shields(audit, i, k, j);
        PlacesInOrder(audit, before, i, k);
        PlacesInOrder(audit, before, k, j);
        SurvivorsKeepPlace(audit, before, k);
      }
    }
    forall p | 0 <= p < |kept| && IsBlockRow(kept[p])
      ensures exists r :: WrittenFor(kept[p], r)
    {
      var i := KeptRowsSurvived(audit, before, p);
    }
  }

  /** An unshielded pair repeats under the cutoff that keeps just the two and what is as young. */
  lemma UnshieldedRepeats(audit: seq<AuditRow>, i: nat, j: nat)
    requires Repeats(audit, i, j) && forall k :: !Shields(audit, i, k, j)
    ensures !NoRepeatedVerdict(PruneAudit(audit, Min(audit[i].ts, audit[j].ts) * SECOND))
  {
    hide PruneAudit, PlaceAfter, SameReason, WrittenFor, SameSubject;
    var before := Min(audit[i].ts, audit[j].ts) * SECOND;
    assert Ledger.UnixSeconds(before) == Min(audit[i].ts, audit[j].ts);
    var kept := PruneAudit(audit, before);
    SurvivorsKeepPlace(audit, before, i);
    SurvivorsKeepPlace(audit, before, j);
    var p, q := PlaceAfter(audit, before, i), PlaceAfter(audit, before, j);
    forall r | p < r < q
      ensures !SameSubject(kept[r], kept[q])
    {
      var k := KeptRowsSurvived(audit, before, r);
      PlacesInOrder(audit, before, i, k);
      PlacesInOrder(audit, before, k, j);
      assert !Shields(audit, i, k, j);
    }
    assert Consecutive(kept, p, q);
  }

  /**
   Exactly when pruning keeps a log free of repeated verdicts: under every cutoff, if and only if
   between any two block rows with one subject and reason stands another row of that subject at
   least as young as the older of the two.
   */
  lemma PruningKeepsNoRepeatExactlyWhen(audit: seq<AuditRow>)
    requires EveryBlockHasReason(audit)
    ensures (forall before: int :: NoRepeatedVerdict(PruneAudit(audit, before))) <==> Shielded(audit)
  {
    if Shielded(audit) {
      forall before: int
        ensures NoRepeatedVerdict(PruneAudit(audit, before))
      {
        ShieldedSurvivesPruning(audit, before);
      }
    } else {
      var i, j :| Repeats(audit, i, j) && forall k :: !Shields(audit, i, k, j);
      UnshieldedRepeats(audit, i, j);
    }
  }

  // -- logs in order, subject by subject -----------------------------------------------------------

  /** Block rows about one subject never go back in time. */
  ghost predicate SubjectsInOrder(audit: seq<AuditRow>) {
    forall i, j :: 0 <= i < j < |audit| && SameSubject(audit[i], audit[j]) && IsBlockRow(audit[j]) ==>
      audit[i].ts <= audit[j].ts
  }

  /** A log without repeats whose subjects are in order is shielded: any row in between is young enough. */
  lemma InOrderIsShielded(audit: seq<AuditRow>)
    requires NoRepeatedVerdict(audit) && SubjectsInOrder(audit)
    ensures Shielded(audit)
  {
    hide SameReason, WrittenFor;
    forall i, j | Repeats(audit, i, j)
      ensures exists k :: Shields(audit, i, k, j)
    {
      assert !Consecutive(audit, i, j);
      var k :| i < k < j && SameSubject(audit[k], audit[j]);
      assert SameSubject(audit[i], audit[k]) && IsBlockRow(audit[k]);
      assert Shields(audit, i, k, j);
    }
  }

  lemma PruningKeepsOrder(audit: seq<AuditRow>, before: int)
    requires SubjectsInOrder(audit)
    ensures SubjectsInOrder(PruneAudit(audit, before))
    ensures forall row :: row in PruneAudit(audit, before) ==> row in audit
  {
    hide PruneAudit, PlaceAfter;
    var kept := PruneAudit(audit, before);
    forall p, q | 0 <= p < q < |kept| && SameSubject(kept[p], kept[q]) && IsBlockRow(kept[q])
      ensures kept[p].ts <= kept[q].ts
    {
      var i := KeptRowsSurvived(audit, before, p);
      var j := KeptRowsSurvived(audit, before, q);
      PlacesInOrder(audit, before, i, j);
    }
    forall row | row in kept
      ensures row in audit
    {
      var p :| 0 <= p < |kept| && kept[p] == row;
      var i := KeptRowsSurvived(audit, before, p);
    }
  }

  /** The rows a request appends are about its package and carry its time. */
  lemma {:induction false} RecordedRows(f: Foreign, audit: seq<AuditRow>, name: string, blocked: seq<BlockRecord>,
                                        now: int)
    ensures var after := RecordBlocks(f, audit, name, blocked, now);
      && audit <= after
      && forall i :: |audit| <= i < |after| ==> after[i].name == name && after[i].ts == Ledger.UnixSeconds(now)
  {
    if blocked != [] {
      hide AlreadyRecorded;
      RecordedRows(f, audit, name, blocked[..|blocked| - 1], now);
    }
  }

  /** Recording blocks keeps the subjects in order if no row of the package is younger than the request. */
  lemma RecordingKeepsOrder(f: Foreign, audit: seq<AuditRow>, name: string, blocked: seq<BlockRecord>, now: int)
    requires SubjectsInOrder(audit)
    requires forall row :: row in audit && IsBlockRow(row) && row.name == name ==> row.ts <= Ledger.UnixSeconds(now)
    ensures SubjectsInOrder(RecordBlocks(f, audit, name, blocked, now))
  {
    RecordedRows(f, audit, name, blocked, now);
    hide RecordBlocks;
    var after := RecordBlocks(f, audit, name, blocked, now);
    forall i, j | 0 <= i < j < |after| && SameSubject(after[i], after[j]) && IsBlockRow(after[j])
      ensures after[i].ts <= after[j].ts
    {
      assert i < |audit| ==> after[i] == audit[i] && audit[i] in audit;
      assert j < |audit| ==> after[j] == audit[j];
    }
  }

  /** A verdict, another one stamped earlier, and the first again: each is appended. */
  lemma BackAndForth(f: Foreign, name: string, first: BlockRecord, other: BlockRecord, t0: int, t1: int, t2: int)
    requires first.version == other.version && first.reason != other.reason
    requires BlockEventOf(first.reason) == BlockEventOf(other.reason)
    ensures var a, b := BlockEntry(f, name, first, t0), BlockEntry(f, name, other, t1);
      var c := BlockEntry(f, name, first, t2);
      && RecordBlocks(f, [], name, [first], t0) == [a]
      && RecordBlocks(f, [a], name, [other], t1) == [a, b]
      && RecordBlocks(f, [a, b], name, [first], t2) == [a, b, c]
  {
    var a, b, c := BlockEntry(f, name, first, t0), BlockEntry(f, name, other, t1), BlockEntry(f, name, first, t2);
    PrefixNamesReason(first.reason, Detail(f, first.evidence), other.reason);
    PrefixNamesReason(other.reason, Detail(f, other.evidence), first.reason);
    hide StartsWith, ReasonPrefix, Detail;
    assert [first][..0] == [] && [other][..0] == [];
    assert [a] + [b] == [a, b] && [a, b] + [c] == [a, b, c];
  }

  /** A cutoff that drops just the middle one makes the log repeat. */
  lemma PrunedInTheMiddle(f: Foreign, name: string, first: BlockRecord, other: BlockRecord, t0: int, t1: int, t2: int,
                          before: int)
    requires Ledger.UnixSeconds(t1) < Ledger.UnixSeconds(before) <= Ledger.UnixSeconds(t0)
    requires Ledger.UnixSeconds(before) <= Ledger.UnixSeconds(t2)
    ensures var a, b := BlockEntry(f, name, first, t0), BlockEntry(f, name, other, t1);
      var c := BlockEntry(f, name, first, t2);
      !NoRepeatedVerdict(PruneAudit([a, b, c], before))
  {
    var a, b, c := BlockEntry(f, name, first, t0), BlockEntry(f, name, other, t1), BlockEntry(f, name, first, t2);
    PrefixNamesReason(first.reason, Detail(f, first.evidence), first.reason);
    assert WrittenFor(a, first.reason) && WrittenFor(c, first.reason);
    RecentRowsStay([c], before);
    assert [b, c][1..] == [c] && [a, b, c][1..] == [b, c];
    PruneHead([b, c], before);
    PruneHead([a, b, c], before);
    hide PruneAudit, WrittenFor;
    var kept := PruneAudit([a, b, c], before);
    assert kept == [a] + [c];
    assert Consecutive(kept, 0, 1) && SameReason(kept[0], kept[1]);
  }

  /** Without that condition it fails: dropping a row from the middle joins two equal verdicts. */
  lemma PruningOutOfOrderCanRepeat(f: Foreign, name: string, version: string)
    ensures exists audit, before :: NoRepeatedVerdict(audit) && !NoRepeatedVerdict(PruneAudit(audit, before))
  {
    var young := BlockRecord(version, TooNew, Age(0));
    var denied := BlockRecord(version, DenyRule, DeniedBy(None));
    var a := BlockEntry(f, name, young, 10 * SECOND);
    var b := BlockEntry(f, name, denied, 5 * SECOND);
    var c := BlockEntry(f, name, young, 11 * SECOND);
    var tail, denial := Detail(f, young.evidence), Detail(f, denied.evidence);
    PrefixNamesReason(TooNew, tail, TooNew);
    PrefixNamesReason(DenyRule, denial, DenyRule);
    assert WrittenFor(a, TooNew) && WrittenFor(b, DenyRule) && WrittenFor(c, TooNew);
    var log := [a, b, c];
    forall r
      ensures !(WrittenFor(a, r) && WrittenFor(b, r)) && !(WrittenFor(b, r) && WrittenFor(c, r))
    {
      PrefixNamesReason(TooNew, tail, r);
      PrefixNamesReason(DenyRule, denial, r);
    }
    assert NoRepeatedVerdict(log) by {
      forall i, j | Consecutive(log, i, j)
        ensures !SameReason(log[i], log[j])
      {
        assert j == i + 1 by {
          assert SameSubject(log[1], log[2]);
        }
      }
    }
    var kept := PruneAudit(log, 7 * SECOND);
    assert a.ts == 10 && b.ts == 5 && c.ts == 11;
    RecentRowsStay([c], 7 * SECOND);
    assert PruneAudit([b, c], 7 * SECOND) == [c] by {
      assert [b, c][1..] == [c];
    }
    assert log[1..] == [b, c];
    assert kept == [a, c];
    assert Consecutive(kept, 0, 1) && SameReason(kept[0], kept[1]);
  }
}
