/**
 What schedules of concurrent evaluations mean for the evidence and for the audit log: a replaced
 version is never served, and when the log can come to repeat a verdict.
 */
module Schedules {
  import opened Basics
  import opened Json
  import opened Order
  import opened Policy
  import opened Filter
  import opened Ledger
  import opened Audit
  import opened Database
  import opened Request
  import opened Interleaving

  // -- a replaced version is never served ---------------------------------------------------------------

  /** One step, of any evaluation or of maintenance, keeps a row that has recorded a mismatch. */
  lemma StepKeepsMismatch(f: Foreign, faults: Faults, s: State, action: Action, key: Key)
    requires key in s.w.db.seen && s.w.db.seen[key].mismatches > 0
    ensures var after := Next(f, faults, s, action).w.db.seen;
      && key in after && after[key].identity == s.w.db.seen[key].identity
      && after[key].mismatches >= s.w.db.seen[key].mismatches
  {
    hide BatchStep, LookupStep, Outcomes, StoreRule, RecordBlocks, PruneAudit, PruneSeen;
    match action
    case Batch(id) =>
      if id in s.evaluations {
        BatchKeepsMismatch(faults, s, id, s.evaluations[id], key);
      }
    case LookupNext(id) =>
      if Next(f, faults, s, action) != s {
        LookupKeepsLedger(f, faults, s, id, s.evaluations[id]);
      }
    case PruneTheLedger(before) => PruningKeepsEvidence(s.w.db.seen, s.w.db.rules.Keys, before, key);
    case _ =>
  }

  lemma BatchKeepsMismatch(faults: Faults, s: State, id: nat, e: Evaluation, key: Key)
    requires key in s.w.db.seen
    ensures var after := BatchStep(faults, s, id, e).w.db.seen;
      && key in after && after[key].identity == s.w.db.seen[key].identity
      && after[key].mismatches >= s.w.db.seen[key].mismatches
  {
    hide CheckMap, Parse, DocumentVersions, ObserveAll, CheckAll, SortedKeys, AllObservations;
    var q := e.request;
    BatchKeepsEvidence(s.w.db.seen, q.package, AllObservations(DocumentVersions(q.document)), q.now, !q.cached, key);
  }

  lemma LookupKeepsLedger(f: Foreign, faults: Faults, s: State, id: nat, e: Evaluation)
    requires e.phase.Deciding? && e.phase.todo != [] && e.phase.todo[0] in e.trace.checks
    ensures LookupStep(f, faults, s, id, e).w.db.seen == s.w.db.seen
  {
    hide GateOf;
  }

  lemma {:induction false} RunKeepsMismatch(f: Foreign, faults: Faults, s: State, actions: seq<Action>, key: Key)
    requires key in s.w.db.seen && s.w.db.seen[key].mismatches > 0
    ensures var after := Run(f, faults, s, actions).w.db.seen;
      && key in after && after[key].identity == s.w.db.seen[key].identity
      && after[key].mismatches >= s.w.db.seen[key].mismatches
  {
    if actions != [] {
      hide Next;
      RunKeepsMismatch(f, faults, s, actions[..|actions| - 1], key);
      StepKeepsMismatch(f, faults, Run(f, faults, s, actions[..|actions| - 1]), actions[|actions| - 1], key);
    }
  }

  /** A batch, whether it succeeds or fails, objects to a version whose row records another identity. */
  lemma BatchObjects(faults: Faults, s: State, id: nat, e: Evaluation, v: string)
    requires var versions := DocumentVersions(e.request.document);
      && v in versions && (e.request.package, v) in s.w.db.seen
      && s.w.db.seen[(e.request.package, v)].identity != VersionIdentity(versions[v])
    ensures var after := BatchStep(faults, s, id, e).evaluations[id];
      v in after.trace.checks && after.trace.checks[v].Changed? && !Early(after.phase)
  {
    hide Parse, DocumentVersions, ObserveAll, VersionIdentity, SortedKeys, CheckMap, CheckAll;
    var q := e.request;
    var versions := DocumentVersions(q.document);
    var keys, obs := SortedKeys(versions.Keys), AllObservations(versions);
    BatchVerdictsSound(faults, s.w, q.package, keys, obs, q.now, !q.cached);
    assert v in keys;
    var i :| 0 <= i < |keys| && keys[i] == v;
    assert obs[i].version == keys[i] && obs != [];
    assert Versions(obs) == keys;
    BatchPerVersion(s.w.db.seen, q.package, obs, q.now, !q.cached, i);
    CheckMapAt(keys, CheckAll(s.w.db.seen, q.package, obs, q.now, !q.cached), i);
  }

  /** Before the batch of the evaluation. */
  predicate Early(phase: Phase) {
    phase.Waiting? || phase.Cleared?
  }

  /** After its batch, nothing changes what the evaluation was told by the ledger. */
  lemma {:induction false} ChecksStay(f: Foreign, faults: Faults, s: State, actions: seq<Action>, id: nat)
    requires id in s.evaluations && !Early(s.evaluations[id].phase)
    ensures var after := Run(f, faults, s, actions).evaluations;
      && id in after && after[id].trace.checks == s.evaluations[id].trace.checks && !Early(after[id].phase)
  {
    if actions != [] {
      hide Next;
      ChecksStay(f, faults, s, actions[..|actions| - 1], id);
      ChecksStayNext(f, faults, Run(f, faults, s, actions[..|actions| - 1]), actions[|actions| - 1], id);
    }
  }

  lemma ChecksStayNext(f: Foreign, faults: Faults, s: State, action: Action, id: nat)
    requires id in s.evaluations && !Early(s.evaluations[id].phase)
    ensures var after := Next(f, faults, s, action).evaluations;
      && id in after && after[id].trace.checks == s.evaluations[id].trace.checks && !Early(after[id].phase)
  {
    hide BatchStep, Outcomes, GateOf, GateOne, RecordBlocksIn;
    EvaluationsElsewhereStay(f, faults, s, action);
  }

  /**
   Under every interleaving and every failure pattern: once a mismatch is on record, whatever happens
   between, an evaluation whose batch comes after it never serves an identity other than the first.
   */
  lemma ReplacedNeverServedInterleaved(f: Foreign, faults: Faults, db: Db, before: seq<Action>, between: seq<Action>,
                                       after: seq<Action>, id: nat, v: string)
    requires var s := Run(f, faults, Start(db), before);
      var t := Run(f, faults, s, between);
      && id in t.evaluations && t.evaluations[id].phase.Cleared?
      && var q := t.evaluations[id].request;
         var versions := DocumentVersions(q.document);
         && v in versions && (q.package, v) in s.w.db.seen
         && s.w.db.seen[(q.package, v)].mismatches > 0
         && s.w.db.seen[(q.package, v)].identity != VersionIdentity(versions[v])
    ensures var last := Run(f, faults, Start(db), before + between + [Batch(id)] + after);
      && id in last.evaluations
      && var phase := last.evaluations[id].phase;
         phase.Finished? && phase.answer.Ok? ==> v !in DocumentVersions(phase.answer.value.packument)
  {
    hide Run, Next, BatchStep, DocumentVersions, VersionIdentity;
    var s := Run(f, faults, Start(db), before);
    var t := Run(f, faults, s, between);
    RunKeepsMismatch(f, faults, s, between, (t.evaluations[id].request.package, v));
    BatchObjects(faults, t, id, t.evaluations[id], v);
    BatchIsStep(f, faults, t, id);
    ChecksStay(f, faults, Next(f, faults, t, Batch(id)), after, id);
    RunConcat(f, faults, Start(db), before, between);
    RunConcat(f, faults, Start(db), before + between, [Batch(id)]);
    RunOne(f, faults, t, Batch(id));
    RunConcat(f, faults, Start(db), before + between + [Batch(id)], after);
    AnswersAreVetted(f, faults, db, before + between + [Batch(id)] + after);
  }

  /** While a row is there, no step of any evaluation or of maintenance changes its identity. */
  lemma StepKeepsIdentity(f: Foreign, faults: Faults, s: State, action: Action, key: Key)
    requires key in s.w.db.seen && key in Next(f, faults, s, action).w.db.seen
    ensures Next(f, faults, s, action).w.db.seen[key].identity == s.w.db.seen[key].identity
  {
    hide BatchStep, LookupStep, Outcomes, StoreRule, RecordBlocks, PruneAudit;
    match action
    case Batch(id) =>
      if id in s.evaluations {
        BatchKeepsMismatch(faults, s, id, s.evaluations[id], key);
      }
    case LookupNext(id) =>
      if Next(f, faults, s, action) != s {
        LookupKeepsLedger(f, faults, s, id, s.evaluations[id]);
      }
    case _ =>
  }

  /** The row is there after each of these actions. */
  ghost predicate RowStays(f: Foreign, faults: Faults, s: State, actions: seq<Action>, key: Key) {
    forall n :: 0 <= n <= |actions| ==> key in Run(f, faults, s, actions[..n]).w.db.seen
  }

  lemma {:induction false} RunKeepsIdentity(f: Foreign, faults: Faults, s: State, actions: seq<Action>, key: Key)
    requires RowStays(f, faults, s, actions, key)
    ensures key in s.w.db.seen && key in Run(f, faults, s, actions).w.db.seen
    ensures Run(f, faults, s, actions).w.db.seen[key].identity == s.w.db.seen[key].identity
  {
    hide Next;
    assert actions[..0] == [] && actions[..|actions|] == actions;
    assert key in Run(f, faults, s, actions[..0]).w.db.seen;
    assert key in Run(f, faults, s, actions[..|actions|]).w.db.seen;
    if actions != [] {
      var front, last := actions[..|actions| - 1], actions[|actions| - 1];
      assert forall n :: 0 <= n <= |front| ==> front[..n] == actions[..n];
      RunKeepsIdentity(f, faults, s, front, key);
      StepKeepsIdentity(f, faults, Run(f, faults, s, front), last, key);
    }
  }

  lemma BatchRecordsHash(faults: Faults, s: State, id: nat, e: Evaluation, v: string, hash: string)
    requires var versions := DocumentVersions(e.request.document);
      v in versions && Publishes(versions[v], "integrity", hash)
    requires (e.request.package, v) !in s.w.db.seen && faults(s.w.clock).None?
    ensures var seen := BatchStep(faults, s, id, e).w.db.seen;
      (e.request.package, v) in seen && seen[(e.request.package, v)].identity == Some(hash)
  {
    hide Parse, Publishes, VersionIdentity, ObserveAll, DocumentVersions, CheckMap, CheckAll;
    var q := e.request;
    var versions := DocumentVersions(q.document);
    CheckOfVersion(s.w.db.seen, q.package, versions, q.now, !q.cached, v);
    IdentityReads(versions[v]);
    assert AllObservations(versions) != [];
    hide AllObservations;
  }

  /**
   Published hashes under every interleaving. One evaluation's batch first records a version with one
   integrity; as long as the row is there, whatever else is in flight and whatever fails, an
   evaluation of a document that publishes another integrity for it, whose batch comes later, never
   serves it.
   */
  lemma ReplacedHashNeverServed(f: Foreign, faults: Faults, s: State, between: seq<Action>, after: seq<Action>,
                                first: nat, id: nat, v: string, hash: string, other: string)
    requires AllSound(s) && first in s.evaluations && s.evaluations[first].phase.Cleared? && faults(s.w.clock).None?
    requires var q := s.evaluations[first].request;
      && v in DocumentVersions(q.document) && Publishes(DocumentVersions(q.document)[v], "integrity", hash)
      && (q.package, v) !in s.w.db.seen
      && RowStays(f, faults, Next(f, faults, s, Batch(first)), between, (q.package, v))
    requires var t := Run(f, faults, Next(f, faults, s, Batch(first)), between);
      && id in t.evaluations && t.evaluations[id].phase.Cleared?
      && var q := t.evaluations[id].request;
         && q.package == s.evaluations[first].request.package && v in DocumentVersions(q.document)
         && Publishes(DocumentVersions(q.document)[v], "integrity", other) && hash != other
    ensures var t := Run(f, faults, Next(f, faults, s, Batch(first)), between);
      var last := Run(f, faults, Next(f, faults, t, Batch(id)), after);
      && id in last.evaluations
      && var phase := last.evaluations[id].phase;
         phase.Finished? && phase.answer.Ok? ==> v !in DocumentVersions(phase.answer.value.packument)
  {
    hide Run, Next, BatchStep, DocumentVersions, VersionIdentity, Publishes, RowStays;
    var package := s.evaluations[first].request.package;
    var recorded := Next(f, faults, s, Batch(first));
    BatchIsStep(f, faults, s, first);
    BatchRecordsHash(faults, s, first, s.evaluations[first], v, hash);
    RunKeepsIdentity(f, faults, recorded, between, (package, v));
    var t := Run(f, faults, recorded, between);
    IdentityReads(DocumentVersions(t.evaluations[id].request.document)[v]);
    BatchObjects(faults, t, id, t.evaluations[id], v);
    BatchIsStep(f, faults, t, id);
    var observed := Next(f, faults, t, Batch(id));
    ChecksStay(f, faults, observed, after, id);
    NextSound(f, faults, s, Batch(first));
    RunSound(f, faults, recorded, between);
    NextSound(f, faults, t, Batch(id));
    RunSound(f, faults, observed, after);
    assert Sound(Run(f, faults, observed, after).evaluations[id]);
  }

  lemma {:induction false} RunSound(f: Foreign, faults: Faults, s: State, actions: seq<Action>)
    requires AllSound(s)
    ensures AllSound(Run(f, faults, s, actions))
  {
    if actions != [] {
      hide Next, AllSound;
      RunSound(f, faults, s, actions[..|actions| - 1]);
      NextSound(f, faults, Run(f, faults, s, actions[..|actions| - 1]), actions[|actions| - 1]);
    }
  }

  // -- the audit log ------------------------------------------------------------------------------------

  /** The i-th action really records the blocks of an evaluation. */
  ghost predicate Records(f: Foreign, faults: Faults, db: Db, actions: seq<Action>, i: int) {
    && 0 <= i < |actions| && actions[i].RecordBlocked?
    && var s := Run(f, faults, Start(db), actions[..i]);
       actions[i].id in s.evaluations && s.evaluations[actions[i].id].phase.Recording?
  }

  /** The request it records for. */
  ghost function RecordedFor(f: Foreign, faults: Faults, db: Db, actions: seq<Action>, i: int): Request
    requires Records(f, faults, db, actions, i)
  {
    Run(f, faults, Start(db), actions[..i]).evaluations[actions[i].id].request
  }

  /** The request recorded at i came no later than the one recorded at j. */
  ghost predicate NoLater(f: Foreign, faults: Faults, db: Db, actions: seq<Action>, i: int, j: int)
    requires Records(f, faults, db, actions, i) && Records(f, faults, db, actions, j)
  {
    var a, b := RecordedFor(f, faults, db, actions, i), RecordedFor(f, faults, db, actions, j);
    a.package == b.package ==> UnixSeconds(a.now) <= UnixSeconds(b.now)
  }

  /** No block row of its package is younger than the request recorded at j. */
  ghost predicate NothingYounger(f: Foreign, faults: Faults, db: Db, actions: seq<Action>, j: int, audit: seq<AuditRow>)
    requires Records(f, faults, db, actions, j)
  {
    var q := RecordedFor(f, faults, db, actions, j);
    forall row :: row in audit && IsBlockRow(row) && row.name == q.package ==> row.ts <= UnixSeconds(q.now)
  }

  /** The evaluations of each package record in the order of their times, after whatever the log starts with. */
  ghost predicate RecordsInOrder(f: Foreign, faults: Faults, db: Db, actions: seq<Action>) {
    && (forall i, j :: i < j && Records(f, faults, db, actions, i) && Records(f, faults, db, actions, j) ==>
          NoLater(f, faults, db, actions, i, j))
    && (forall j :: Records(f, faults, db, actions, j) ==> NothingYounger(f, faults, db, actions, j, db.audit))
  }

  /** What holds of the log after n actions. */
  ghost predicate LogInOrder(f: Foreign, faults: Faults, db: Db, actions: seq<Action>, n: nat, audit: seq<AuditRow>) {
    && NoRepeatedVerdict(audit) && SubjectsInOrder(audit)
    && forall j :: n <= j && Records(f, faults, db, actions, j) ==> NothingYounger(f, faults, db, actions, j, audit)
  }

  /**
   On which schedules the log never repeats a verdict. If block rows come only from evaluations, those
   of one package record in the order of their times, and the log starts in order, then no two
   consecutive rows of a subject carry the same reason, however the evaluations interleave, whatever
   fails, and however often and with whatever cutoffs the log is pruned meanwhile.
   */
  lemma LogNeverRepeatsInterleaved(f: Foreign, faults: Faults, db: Db, actions: seq<Action>)
    requires NoRepeatedVerdict(db.audit) && SubjectsInOrder(db.audit)
    requires RecordsInOrder(f, faults, db, actions)
    requires forall i :: 0 <= i < |actions| && actions[i].AppendRow? ==> !IsBlockRow(actions[i].row)
    ensures NoRepeatedVerdict(Run(f, faults, Start(db), actions).w.db.audit)
    ensures SubjectsInOrder(Run(f, faults, Start(db), actions).w.db.audit)
  {
    LogStaysInOrder(f, faults, db, actions, |actions|);
    assert actions[..|actions|] == actions;
  }

  lemma {:induction false} LogStaysInOrder(f: Foreign, faults: Faults, db: Db, actions: seq<Action>, n: nat)
    requires n <= |actions|
    requires NoRepeatedVerdict(db.audit) && SubjectsInOrder(db.audit)
    requires RecordsInOrder(f, faults, db, actions)
    requires forall i :: 0 <= i < |actions| && actions[i].AppendRow? ==> !IsBlockRow(actions[i].row)
    ensures LogInOrder(f, faults, db, actions, n, Run(f, faults, Start(db), actions[..n]).w.db.audit)
    decreases n
  {
    hide Next, NoRepeatedVerdict, SubjectsInOrder, Records, NoLater, NothingYounger;
    if n > 0 {
      LogStaysInOrder(f, faults, db, actions, n - 1);
      assert actions[..n][..n - 1] == actions[..n - 1] && actions[..n][n - 1] == actions[n - 1];
      hide Run;
      LogActionInOrder(f, faults, db, actions, n - 1, Run(f, faults, Start(db), actions[..n - 1]));
    } else {
      assert actions[..0] == [];
    }
  }

  lemma LogActionInOrder(f: Foreign, faults: Faults, db: Db, actions: seq<Action>, n: nat, s: State)
    requires n < |actions| && s == Run(f, faults, Start(db), actions[..n])
    requires RecordsInOrder(f, faults, db, actions)
    requires actions[n].AppendRow? ==> !IsBlockRow(actions[n].row)
    requires LogInOrder(f, faults, db, actions, n, s.w.db.audit)
    ensures LogInOrder(f, faults, db, actions, n + 1, Next(f, faults, s, actions[n]).w.db.audit)
  {
    hide Run, NoRepeatedVerdict, SubjectsInOrder, RecordBlocks;
    var audit, after := s.w.db.audit, Next(f, faults, s, actions[n]).w.db.audit;
    match actions[n]
    case RecordBlocked(id) =>
      if Records(f, faults, db, actions, n) {
        RecordingInOrder(f, faults, db, actions, n, s);
      }
    case AppendRow(row) =>
      if after != audit {
        assert after == audit + [row];
        hide Next, Records;
        AppendingInOrder(audit, row);
      }
    case PruneTheLog(before) =>
      if after != audit {
        assert after == PruneAudit(audit, before);
        hide Next, Records, PruneAudit;
        InOrderIsShielded(audit);
        ShieldedSurvivesPruning(audit, before) by {
          hide Shielded;
          AllHaveReasons(audit);
        }
        PruningKeepsOrder(audit, before);
      }
    case _ =>
      AuditStays(f, faults, s, actions[n]);
      hide Next;
  }

  lemma AllHaveReasons(audit: seq<AuditRow>)
    requires NoRepeatedVerdict(audit)
    ensures EveryBlockHasReason(audit)
  {
  }

  lemma AppendingInOrder(audit: seq<AuditRow>, row: AuditRow)
    requires NoRepeatedVerdict(audit) && SubjectsInOrder(audit) && !IsBlockRow(row)
    ensures NoRepeatedVerdict(audit + [row]) && SubjectsInOrder(audit + [row])
    ensures forall r :: r in audit + [row] && IsBlockRow(r) ==> r in audit
  {
    AppendKeepsNoRepeat(audit, row);
    hide NoRepeatedVerdict;
  }

  lemma RecordingInOrder(f: Foreign, faults: Faults, db: Db, actions: seq<Action>, n: nat, s: State)
    requires Records(f, faults, db, actions, n) && s == Run(f, faults, Start(db), actions[..n])
    requires RecordsInOrder(f, faults, db, actions)
    requires LogInOrder(f, faults, db, actions, n, s.w.db.audit)
    ensures LogInOrder(f, faults, db, actions, n + 1, Next(f, faults, s, actions[n]).w.db.audit)
  {
    hide Run, NoRepeatedVerdict, SubjectsInOrder, RecordBlocks, Next;
    var id, audit := actions[n].id, s.w.db.audit;
    var e := s.evaluations[id];
    var q, blocked := e.request, e.phase.outcome.blocked;
    RecordMeans(f, faults, s, id);
    assert NothingYounger(f, faults, db, actions, n, audit);
    RecordBlocksKeepsNoRepeat(f, audit, q.package, blocked, q.now);
    RecordingKeepsOrder(f, audit, q.package, blocked, q.now);
    RecordedRows(f, audit, q.package, blocked, q.now);
    var recorded := RecordBlocks(f, audit, q.package, blocked, q.now);
    forall j | n + 1 <= j && Records(f, faults, db, actions, j)
      ensures NothingYounger(f, faults, db, actions, j, recorded)
    {
      assert NoLater(f, faults, db, actions, n, j) && NothingYounger(f, faults, db, actions, j, audit);
      hide Records, RecordedFor;
      forall row | row in recorded
        ensures row in audit || (row.name == q.package && row.ts == UnixSeconds(q.now))
      {
        var k :| 0 <= k < |recorded| && recorded[k] == row;
        assert k < |audit| ==> recorded[k] == audit[k];
      }
    }
  }

  lemma AuditStays(f: Foreign, faults: Faults, s: State, action: Action)
    requires !action.RecordBlocked? && !action.AppendRow? && !action.PruneTheLog?
    ensures Next(f, faults, s, action).w.db.audit == s.w.db.audit
  {
    hide BatchStep, LookupStep, Outcomes, StoreRule, PruneSeen;
    if action.Batch? && action.id in s.evaluations {
      BatchKeepsAudit(faults, s, action.id, s.evaluations[action.id]);
    }
    if action.LookupNext? && Next(f, faults, s, action) != s {
      LookupKeepsAudit(f, faults, s, action.id, s.evaluations[action.id]);
    }
  }

  lemma BatchKeepsAudit(faults: Faults, s: State, id: nat, e: Evaluation)
    ensures BatchStep(faults, s, id, e).w.db.audit == s.w.db.audit
  {
    hide CheckMap, Parse, DocumentVersions, ObserveAll, CheckAll, SortedKeys, AllObservations;
  }

  lemma LookupKeepsAudit(f: Foreign, faults: Faults, s: State, id: nat, e: Evaluation)
    requires e.phase.Deciding? && e.phase.todo != [] && e.phase.todo[0] in e.trace.checks
    ensures LookupStep(f, faults, s, id, e).w.db.audit == s.w.db.audit
  {
    hide GateOf;
  }

  /** Rows appended for blocks carry the time their request was captured. */
  lemma {:induction false} AppendedFirst(f: Foreign, audit: seq<AuditRow>, name: string, blocked: seq<BlockRecord>,
                                         now: int)
    requires blocked != [] && forall row :: row in audit ==> row.name != name
    ensures var after := RecordBlocks(f, audit, name, blocked, now);
      && audit < after && after[|audit|].ts == UnixSeconds(now)
      && forall row :: row in after && row !in audit ==> row.name == name
  {
    var n := |blocked| - 1;
    if n == 0 {
      var event := BlockEventOf(blocked[0].reason);
      LatestIsLast(audit, name, blocked[0].version, event);
      assert blocked[..0] == [] && RecordBlocks(f, audit, name, [], now) == audit;
      assert forall i :: 0 <= i < |audit| ==> audit[i] in audit;
    } else {
      AppendedFirst(f, audit, name, blocked[..n], now);
    }
  }

  /**
   Timestamps can go back. Two evaluations capture their times in one order and record in the
   other: with no failure at all, for any two requests for different packages that both withhold
   something, the earlier one recording last.
   */
  lemma TimestampsCanGoBack(f: Foreign, faults: Faults, db: Db, q: Request, d: Document, later: Request, d2: Document)
    requires NoFaults(faults) && db.audit == []
    requires Parse(q.document) == Ok(d) && Parse(later.document) == Ok(d2) && q.package != later.package
    requires UnixSeconds(q.now) < UnixSeconds(later.now)
    requires Answer(f, db, q, d).blocked != []
    requires var seen := ObserveAll(db.seen, q.package, AllObservations(d.versions), q.now, !q.cached);
      Answer(f, db.(seen := seen), later, d2).blocked != []
    ensures var actions := UntilTake(0, q) + UntilTake(1, later) + [RecordBlocked(1)] + [RecordBlocked(0)];
      !MonotoneTimestamps(Run(f, faults, Start(db), actions).w.db.audit)
  {
    hide Run, Parse, DocumentVersions, Outcomes, Next, UntilTake, RecordBlocks, ObserveAll, AllObservations;
    hide AnswerDecisions;
    var s0 := Start(db);
    var s1 := Run(f, faults, s0, UntilTake(0, q));
    TakenWithoutFaults(f, faults, s0, 0, q, d);
    var s2 := Run(f, faults, s1, UntilTake(1, later));
    TakenWithoutFaults(f, faults, s1, 1, later, d2);
    RunConcat(f, faults, s0, UntilTake(0, q), UntilTake(1, later));
    hide Answer;
    RecordedLast(f, faults, s2, q, later);
    RunConcat(f, faults, s0, UntilTake(0, q) + UntilTake(1, later), [RecordBlocked(1)]);
    RunOne(f, faults, s2, RecordBlocked(1));
    var s3 := Next(f, faults, s2, RecordBlocked(1));
    RunConcat(f, faults, s0, UntilTake(0, q) + UntilTake(1, later) + [RecordBlocked(1)], [RecordBlocked(0)]);
    RunOne(f, faults, s3, RecordBlocked(0));
  }

  /** Two evaluations about to record, the later one first. */
  lemma RecordedLast(f: Foreign, faults: Faults, s: State, q: Request, later: Request)
    requires NoFaults(faults) && s.w.db.audit == [] && {0, 1} <= s.evaluations.Keys
    requires s.evaluations[0].request == q && s.evaluations[1].request == later
    requires s.evaluations[0].phase.Recording? && s.evaluations[0].phase.outcome.blocked != []
    requires s.evaluations[1].phase.Recording? && s.evaluations[1].phase.outcome.blocked != []
    requires q.package != later.package && UnixSeconds(q.now) < UnixSeconds(later.now)
    ensures !MonotoneTimestamps(Next(f, faults, Next(f, faults, s, RecordBlocked(1)), RecordBlocked(0)).w.db.audit)
  {
    hide Next, RecordBlocks;
    RecordMeans(f, faults, s, 1);
    var t := Next(f, faults, s, RecordBlocked(1));
    RecordMeans(f, faults, t, 0);
    var first := t.w.db.audit;
    AppendedFirst(f, [], later.package, s.evaluations[1].phase.outcome.blocked, later.now);
    AppendedFirst(f, first, q.package, t.evaluations[0].phase.outcome.blocked, q.now);
    var log := Next(f, faults, t, RecordBlocked(0)).w.db.audit;
    assert log[0] == first[0] && log[|first|].ts < log[0].ts;
  }

  lemma TakenWithoutFaults(f: Foreign, faults: Faults, s: State, id: nat, q: Request, d: Document)
    requires NoFaults(faults) && id !in s.evaluations && Parse(q.document) == Ok(d)
    ensures var t := Run(f, faults, s, UntilTake(id, q));
      && OthersStay(s, t, id) && t.evaluations[id].request == q
      && t.evaluations[id].phase == Recording(Answer(f, s.w.db, q, d))
      && t.w.db == s.w.db.(seen := ObserveAll(s.w.db.seen, q.package, AllObservations(d.versions), q.now, !q.cached))
  {
    hide Run, Outcomes, UntilTake, ObserveAll, AllObservations, AnswerDecisions, Gated;
    UntilTakeMeans(f, faults, s, id, q);
    GatedWithoutFaults(f, faults, s.w, q, d);
  }

  lemma GatedWithoutFaults(f: Foreign, faults: Faults, w: World, q: Request, d: Document)
    requires NoFaults(faults)
    ensures var (gated, decisions) := Gated(f, faults, w, q, d);
      && gated.failure.None? && decisions == AnswerDecisions(f, w.db, q, d)
      && gated.db == w.db.(seen := ObserveAll(w.db.seen, q.package, AllObservations(d.versions), q.now, !q.cached))
  {
    hide GateOf, BatchThenGates, ObserveAll, CheckAll;
    EngineFailsClosed(f, q.cfg, q.now, d);
    BatchThenGatesWithoutFaults(GateOf(f, q.cfg, q.now, d), faults, d.name, w, q.package,
                                SortedKeys(d.versions.Keys), AllObservations(d.versions), q.now, !q.cached);
  }

  // -- a log that repeats -------------------------------------------------------------------------------

  /** A packument with one version that publishes nothing: no hash, no scripts, no time. */
  function BareDocument(name: string, v: string): Value {
    Object(map["name" := String(name), "versions" := Object(map[v := Null])])
  }

  function BareRequest(package: string, name: string, v: string, cfg: Config, now: int): Request {
    Request(BareDocument(name, v), package, cfg, now, false)
  }

  function BareRecord(v: string, rule: Option<Rule>): BlockRecord {
    if rule.Some? then BlockRecord(v, DenyRule, DeniedBy(rule.value.reason))
    else BlockRecord(v, NoIntegrity, NothingToPin)
  }

  lemma BareParses(name: string, v: string)
    ensures Parse(BareDocument(name, v)).Ok?
    ensures var d := Parse(BareDocument(name, v)).value;
      d.name == name && d.versions == map[v := Null] && d.time.None?
  {
    assert |"name"| == 4 && |"time"| == 4 && |"versions"| == 8;
    assert "name"[0] != "time"[0];
  }

  /** Without a rule such a version is withheld for having no hash, and with a deny rule for that. */
  lemma BareAnswer(f: Foreign, db: Db, q: Request, name: string, v: string)
    requires q.document == BareDocument(name, v) && q.cfg.bypassScopes == []
    requires (q.package, v) in db.seen ==> db.seen[(q.package, v)].identity == None
    requires RuleFor(db, (name, v)).Some? ==> RuleFor(db, (name, v)).value.verdict.Deny?
    ensures var d := Parse(q.document).value;
      Parse(q.document) == Ok(d) && Answer(f, db, q, d).blocked == [BareRecord(v, RuleFor(db, (name, v)))]
  {
    hide BareDocument, Rebuilt, BareRecord, Blocked, SortedKeys, RuleFor, AnswerDecisions, Parse;
    BareParses(name, v);
    var d := Parse(q.document).value;
    BareDecision(f, db, q, d, v);
    assert d.versions.Keys == {v};
    OneBlocked(AnswerDecisions(f, db, q, d), v);
    BlockedOf(f, db, q, d);
  }

  lemma BlockedOf(f: Foreign, db: Db, q: Request, d: Document)
    ensures Answer(f, db, q, d).blocked == Blocked(AnswerDecisions(f, db, q, d), SortedKeys(d.versions.Keys))
  {
    hide Rebuilt, Blocked, SortedKeys, AnswerDecisions;
  }

  lemma BareDecision(f: Foreign, db: Db, q: Request, d: Document, v: string)
    requires d.versions == map[v := Null] && q.cfg.bypassScopes == []
    requires (q.package, v) in db.seen ==> db.seen[(q.package, v)].identity == None
    requires RuleFor(db, (d.name, v)).Some? ==> RuleFor(db, (d.name, v)).value.verdict.Deny?
    ensures var record := BareRecord(v, RuleFor(db, (d.name, v)));
      record.version == v && AnswerDecisions(f, db, q, d)[v] == Block(record.reason, record.evidence)
  {
    hide AnswerDecisions, BatchChecks, GateOf, ObserveOne, ObserveAll, Decide, RuleFor, VersionIdentity, Published;
    var check, rule := BatchChecks(db.seen, q.package, d.versions, q.now, !q.cached)[v], RuleFor(db, (d.name, v));
    CheckOfVersion(db.seen, q.package, d.versions, q.now, !q.cached, v);
    DecisionOf(f, db, q, d, v);
    GateDecides(f, q.cfg, q.now, d, v, check, rule);
    NoIdentity();
    BareGates(f, q.cfg, d.name, Published(d, v), check, rule, q.now);
  }

  lemma NoIdentity()
    ensures VersionIdentity(Null) == None
  {
  }

  lemma BareGates(f: Foreign, cfg: Config, name: string, published: Option<string>, check: Check, rule: Option<Rule>,
                  now: int)
    requires cfg.bypassScopes == [] && !check.Changed? && (rule.Some? ==> rule.value.verdict.Deny?)
    ensures var record := BareRecord("", rule);
      Decide(f, cfg, name, Null, published, check, rule, now) == Block(record.reason, record.evidence)
  {
    hide AgeSeconds;
    assert VersionIdentity(Null) == None && InstallHooks(f, Null) == [];
  }

  lemma OneBlocked(decisions: map<string, Decision>, v: string)
    requires decisions.Keys == {v} && decisions[v].Block?
    ensures Blocked(decisions, SortedKeys({v})) == [BlockRecord(v, decisions[v].reason, decisions[v].evidence)]
  {
    var keys := SortedKeys({v});
    assert keys == [v] by {
      assert keys[0] in keys;
    }
    assert [v][..0] == [];
  }

  /** The ledger after such a version was observed on a ledger that knows nothing else of it. */
  lemma BareObserved(seen: Seen, q: Request, d: Document, v: string)
    requires d.versions == map[v := Null]
    requires (q.package, v) in seen ==> seen[(q.package, v)].identity == None
    ensures var after := ObserveAll(seen, q.package, AllObservations(d.versions), q.now, !q.cached);
      (q.package, v) in after ==> after[(q.package, v)].identity == None
  {
    hide ObserveAll, AllObservations;
    CheckOfVersion(seen, q.package, d.versions, q.now, !q.cached, v);
    assert VersionIdentity(Null) == None;
  }

  /** One evaluation captured early and two captured later, of the same bare version, and a deny rule in between. */
  function LateRecording(package: string, name: string, v: string, cfg: Config, reason: Option<string>, t: int,
                         early: int, late: int, before: int): seq<Action> {
    var q0 := BareRequest(package, name, v, cfg, early);
    var q1, q2 := BareRequest(package, name, v, cfg, late), BareRequest(package, name, v, cfg, late);
    var deny := NewRule(name, v, Deny, None, None, None, reason, None);
    [Begin(0, q0)] + Uninterrupted(1, q1) + UntilTake(2, q2) + [WriteRule(deny, t)] + Work(0, q0) +
    [RecordBlocked(0)] + [RecordBlocked(2)] + [PruneTheLog(before)]
  }

  /**
   Out of order, one package is enough. An evaluation that captured its time early records last but
   one: with no failure at all, its row is the only one an ordinary cutoff drops, and the rows around
   it carry the same reason.
   */
  lemma LateRecordingRepeats(f: Foreign, faults: Faults, package: string, name: string, v: string, cfg: Config,
                             reason: Option<string>, t: int, early: int, late: int, before: int)
    requires NoFaults(faults) && cfg.bypassScopes == []
    requires UnixSeconds(early) < UnixSeconds(before) <= UnixSeconds(late)
    ensures var actions := LateRecording(package, name, v, cfg, reason, t, early, late, before);
      !NoRepeatedVerdict(Run(f, faults, Start(Db(map[], map[], [])), actions).w.db.audit)
  {
    hide Run, Next, UntilTake, Work, Uninterrupted, BareDocument, NoRepeatedVerdict, RecordBlocks, PruneAudit;
    var q0, q1 := BareRequest(package, name, v, cfg, early), BareRequest(package, name, v, cfg, late);
    var deny := NewRule(name, v, Deny, None, None, None, reason, None);
    var s0 := Start(Db(map[], map[], []));
    var s1 := Next(f, faults, s0, Begin(0, q0));
    var s2 := Run(f, faults, s1, Uninterrupted(1, q1));
    var s3 := Run(f, faults, s2, UntilTake(2, q1));
    var s4 := Next(f, faults, s3, WriteRule(deny, t));
    var s5 := Run(f, faults, s4, Work(0, q0));
    var s6 := Next(f, faults, s5, RecordBlocked(0));
    var s7 := Next(f, faults, s6, RecordBlocked(2));
    Unrolled(f, faults, s0, [Begin(0, q0)], Uninterrupted(1, q1), UntilTake(2, q1), [WriteRule(deny, t)], Work(0, q0),
             [RecordBlocked(0)], [RecordBlocked(2)], [PruneTheLog(before)]);
    RunOne(f, faults, s0, Begin(0, q0));
    RunOne(f, faults, s3, WriteRule(deny, t));
    RunOne(f, faults, s5, RecordBlocked(0));
    RunOne(f, faults, s6, RecordBlocked(2));
    RunOne(f, faults, s7, PruneTheLog(before));
    var missing, denied := BareRecord(v, None), BareRecord(v, Some(StoreRule(f, deny, t).rule));
    hide StoreRule;
    FirstRecords(f, faults, s0, package, name, v, cfg, early, late);
    SecondTakes(f, faults, s2, package, name, v, cfg, early, late);
    DeniedInBetween(f, faults, s3, deny, t, package, name, v, cfg, early);
    BackAndForth(f, package, missing, denied, late, early, late);
    RecordMeans(f, faults, s5, 0);
    RecordMeans(f, faults, s6, 2);
    PrunedInTheMiddle(f, package, missing, denied, late, early, late, before);
    PruneMeans(f, faults, s7, before);
  }

  lemma Unrolled(f: Foreign, faults: Faults, s: State, a: seq<Action>, b: seq<Action>, c: seq<Action>, d: seq<Action>,
                 e: seq<Action>, g: seq<Action>, h: seq<Action>, i: seq<Action>)
    ensures Run(f, faults, s, a + b + c + d + e + g + h + i) ==
              Run(f, faults, Run(f, faults, Run(f, faults, Run(f, faults, Run(f, faults, Run(f, faults, Run(f, faults,
                Run(f, faults, s, a), b), c), d), e), g), h), i)
  {
    hide Run;
    RunConcat(f, faults, s, a, b);
    RunConcat(f, faults, s, a + b, c);
    RunConcat(f, faults, s, a + b + c, d);
    RunConcat(f, faults, s, a + b + c + d, e);
    RunConcat(f, faults, s, a + b + c + d + e, g);
    RunConcat(f, faults, s, a + b + c + d + e + g, h);
    RunConcat(f, faults, s, a + b + c + d + e + g + h, i);
  }

  lemma PruneMeans(f: Foreign, faults: Faults, s: State, before: int)
    requires NoFaults(faults)
    ensures Next(f, faults, s, PruneTheLog(before)).w.db.audit == PruneAudit(s.w.db.audit, before)
  {
    hide PruneAudit;
  }

  ghost predicate KnowsNothing(db: Db, package: string, name: string, v: string) {
    && ((package, v) in db.seen ==> db.seen[(package, v)].identity == None)
    && (name, v) !in db.rules
  }

  /** The early evaluation has begun; a later one is evaluated and recorded. */
  lemma FirstRecords(f: Foreign, faults: Faults, s: State, package: string, name: string, v: string, cfg: Config,
                     early: int, late: int)
    requires NoFaults(faults) && cfg.bypassScopes == [] && s == Start(Db(map[], map[], []))
    ensures var q0, q1 := BareRequest(package, name, v, cfg, early), BareRequest(package, name, v, cfg, late);
      var t := Run(f, faults, Next(f, faults, s, Begin(0, q0)), Uninterrupted(1, q1));
      && Waits(t, 0, q0) && t.evaluations.Keys == {0, 1} && KnowsNothing(t.w.db, package, name, v)
      && t.w.db.audit == RecordBlocks(f, [], package, [BareRecord(v, None)], late)
  {
    hide Run, Uninterrupted, BareDocument, RecordBlocks, Evaluated, ObserveAll, AllObservations, Parse, Answer;
    var q0, q1 := BareRequest(package, name, v, cfg, early), BareRequest(package, name, v, cfg, late);
    var begun := Next(f, faults, s, Begin(0, q0));
    assert Waits(begun, 0, q0) && begun.w == s.w && begun.evaluations.Keys == {0};
    hide Next;
    UninterruptedIsARequest(f, faults, begun, 1, q1);
    BareAnswer(f, begun.w.db, q1, name, v);
    BareParses(name, v);
    var d := Parse(q1.document).value;
    EvaluatedWithoutFaults(f, faults, begun.w, q1, d);
    BareObserved(begun.w.db.seen, q1, d, v);
  }

  /** Another late evaluation takes the slot and is about to record. */
  lemma SecondTakes(f: Foreign, faults: Faults, s: State, package: string, name: string, v: string, cfg: Config,
                    early: int, late: int)
    requires NoFaults(faults) && cfg.bypassScopes == [] && 2 !in s.evaluations
    requires Waits(s, 0, BareRequest(package, name, v, cfg, early)) && KnowsNothing(s.w.db, package, name, v)
    ensures var q0, q := BareRequest(package, name, v, cfg, early), BareRequest(package, name, v, cfg, late);
      var t := Run(f, faults, s, UntilTake(2, q));
      && Waits(t, 0, q0) && KnowsNothing(t.w.db, package, name, v) && t.w.db.audit == s.w.db.audit
      && AboutToRecord(t, 2, q, BareRecord(v, None))
  {
    hide Run, UntilTake, BareDocument, ObserveAll, AllObservations, Parse, Answer;
    var q := BareRequest(package, name, v, cfg, late);
    BareAnswer(f, s.w.db, q, name, v);
    BareParses(name, v);
    var d := Parse(q.document).value;
    TakenWithoutFaults(f, faults, s, 2, q, d);
    BareObserved(s.w.db.seen, q, d, v);
  }

  ghost predicate AboutToRecord(s: State, id: nat, q: Request, record: BlockRecord) {
    && id in s.evaluations && s.evaluations[id].request == q && s.evaluations[id].phase.Recording?
    && s.evaluations[id].phase.outcome.blocked == [record]
  }

  /** A deny rule is written, and only now the early evaluation does its work. */
  lemma DeniedInBetween(f: Foreign, faults: Faults, s: State, deny: NewRule, t: int, package: string, name: string,
                        v: string, cfg: Config, early: int)
    requires NoFaults(faults) && cfg.bypassScopes == [] && deny.verdict.Deny? && (deny.name, deny.version) == (name, v)
    requires Waits(s, 0, BareRequest(package, name, v, cfg, early)) && KnowsNothing(s.w.db, package, name, v)
    ensures var q := BareRequest(package, name, v, cfg, early);
      var after := Run(f, faults, Next(f, faults, s, WriteRule(deny, t)), Work(0, q));
      && after.w.db.audit == s.w.db.audit
      && AboutToRecord(after, 0, q, BareRecord(v, Some(StoreRule(f, deny, t).rule)))
      && forall id :: id != 0 && id in s.evaluations ==>
           id in after.evaluations && after.evaluations[id] == s.evaluations[id]
  {
    hide Run, Work, BareDocument, ObserveAll, AllObservations, Parse, Answer, BareRecord;
    var q := BareRequest(package, name, v, cfg, early);
    var ruled := Next(f, faults, s, WriteRule(deny, t));
    assert ruled.evaluations == s.evaluations && ruled.w.db.audit == s.w.db.audit && ruled.w.db.seen == s.w.db.seen;
    assert RuleFor(ruled.w.db, (name, v)) == Some(StoreRule(f, deny, t).rule);
    hide Next;
    BareAnswer(f, ruled.w.db, q, name, v);
    BareParses(name, v);
    WorkWithoutFaults(f, faults, ruled, 0, q, Parse(q.document).value);
  }

  lemma WorkWithoutFaults(f: Foreign, faults: Faults, s: State, id: nat, q: Request, d: Document)
    requires NoFaults(faults) && Waits(s, id, q) && Parse(q.document) == Ok(d)
    ensures var t := Run(f, faults, s, Work(id, q));
      && OthersStay(s, t, id) && t.evaluations[id].request == q
      && t.evaluations[id].phase == Recording(Answer(f, s.w.db, q, d))
      && t.w.db == s.w.db.(seen := ObserveAll(s.w.db.seen, q.package, AllObservations(d.versions), q.now, !q.cached))
  {
    hide Run, Outcomes, Work, ObserveAll, AllObservations, AnswerDecisions, Gated;
    WorkMeans(f, faults, s, id, q);
    GatedWithoutFaults(f, faults, s.w, q, d);
  }
}
