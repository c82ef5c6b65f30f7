/**
 The state database as a value, its operations under an arbitrary schedule of storage failures,
 and the fail-closed forms the request path uses. Every operation is one transaction: it either
 fails and changes nothing or takes effect whole.
 */
module Database {
  import opened Basics
  import opened Policy
  import opened Filter
  import opened Ledger
  import opened Audit

  /** A rule about to be recorded. */
  datatype NewRule = NewRule(
    name: string,
    version: string,
    verdict: Verdict,
    integrity: Option<string>,
    scripts: Option<map<string, string>>,
    pins: Option<map<string, string>>,
    reason: Option<string>,
    actor: Option<string>)

  datatype StoredRule = StoredRule(
    rule: Rule,
    scriptsJson: Option<string>,
    pins: Option<map<string, string>>,
    created: int)

  datatype Db = Db(rules: map<Key, StoredRule>, seen: Seen, audit: seq<AuditRow>)

  /** Operation number n fails exactly when the schedule has an error for n. */
  type Faults = nat -> Option<string>

  /** The database, how many operations it has been asked for, and the failure slot. */
  datatype World = World(db: Db, clock: nat, failure: Option<string>)

  function Tick(w: World): World {
    w.(clock := w.clock + 1)
  }

  /** `note_failure`: the first failure since the slot was cleared is kept. */
  function NoteFailure(w: World, error: string): World {
    if w.failure.None? then w.(failure := Some(error)) else w
  }

  function ClearFailure(w: World): World {
    w.(failure := None)
  }

  // -- rules -------------------------------------------------------------------------------------

  function StoreRule(f: Foreign, rule: NewRule, now: int): StoredRule {
    var sha := if rule.scripts.Some? then Some(ScriptSetSha256(f, rule.scripts.value)) else None;
    var json := if rule.scripts.Some? then Some(f.canonicalJson(rule.scripts.value)) else None;
    StoredRule(
      Rule(rule.name, rule.version, rule.verdict, rule.integrity, sha, rule.reason, rule.actor),
      json,
      rule.pins,
      UnixSeconds(now))
  }

  /** What is stored of a rule: all it says, its commands as text with the digest of that text, and the second. */
  lemma StoredRuleReads(f: Foreign, rule: NewRule, now: int)
    ensures var stored := StoreRule(f, rule, now);
      && (stored.rule.name, stored.rule.version) == (rule.name, rule.version)
      && (stored.rule.verdict, stored.rule.integrity) == (rule.verdict, rule.integrity)
      && (stored.rule.reason, stored.rule.actor, stored.pins) == (rule.reason, rule.actor, rule.pins)
      && (stored.scriptsJson == None <==> rule.scripts == None)
      && (stored.rule.scriptsSha256 == None <==> rule.scripts == None)
      && (forall hooks :: rule.scripts == Some(hooks) ==>
            && stored.scriptsJson == Some(f.canonicalJson(hooks))
            && stored.rule.scriptsSha256 == Some(f.sha256(stored.scriptsJson.value)))
      && stored.created * SECOND <= now < (stored.created + 1) * SECOND
  {
    UnixSecondsReads(now, UnixSeconds(now));
  }

  /** Two rules leave the same row exactly when they are the same rule, recorded in the same second. */
  lemma SameRowSameRule(f: Foreign, a: NewRule, b: NewRule, now: int, later: int)
    requires TellsApart(f)
    ensures StoreRule(f, a, now) == StoreRule(f, b, later) <==> a == b && UnixSeconds(now) == UnixSeconds(later)
  {
    StoredRuleReads(f, a, now);
    StoredRuleReads(f, b, later);
  }

  /** `record_rule`: insert or replace, touching `rules` only. */
  function RecordRule(f: Foreign, faults: Faults, w: World, rule: NewRule,
                      now: int): (World, Result<StoredRule, string>) {
    var error := faults(w.clock);
    if error.Some? then (Tick(w), Err(error.value))
    else
      var stored := StoreRule(f, rule, now);
      (Tick(w).(db := w.db.(rules := w.db.rules[(rule.name, rule.version) := stored])), Ok(stored))
  }

  function RuleEntry(f: Foreign, rule: NewRule, now: int): AuditRow {
    AuditRow(
      UnixSeconds(now),
      if rule.verdict.Allow? then AllowEvent else DenyEvent,
      if rule.verdict.Allow? then Info else Warning,
      rule.name,
      Some(rule.version),
      (if rule.verdict.Deny? then "denied"
       else "approved, pinned to " + (if rule.integrity.Some? then rule.integrity.value else "<no dist.integrity>")) +
      (if rule.reason.Some? then ": " + rule.reason.value else ""))
  }

  /**
   What the row of a rule tells: its verdict by event and severity, its subject, the hash it is pinned
   to and the reason given. And it never stands in the way of a block: the newest block row about any
   subject stays the newest one.
   */
  lemma RuleEntryReads(f: Foreign, rule: NewRule, now: int, audit: seq<AuditRow>, r: Reason)
    ensures var row := RuleEntry(f, rule, now);
      var given := if rule.reason == None then "" else ": " + rule.reason.value;
      && row.name == rule.name && row.version == Some(rule.version)
      && row.ts * SECOND <= now < (row.ts + 1) * SECOND
      && (row.event == AllowEvent <==> rule.verdict == Allow) && (row.event == DenyEvent <==> rule.verdict == Deny)
      && (row.severity == Info <==> rule.verdict == Allow) && (row.severity == Warning <==> rule.verdict == Deny)
      && (rule.verdict == Deny ==> row.detail == "denied" + given)
      && (rule.verdict == Allow && rule.integrity == None ==>
            row.detail == "approved, pinned to " + "<no dist.integrity>" + given)
      && (forall s :: rule.verdict == Allow && rule.integrity == Some(s) ==>
            row.detail == "approved, pinned to " + s + given)
      && (forall name, version :: Latest(audit + [row], name, version, BlockEventOf(r))
                               == Latest(audit, name, version, BlockEventOf(r)))
  {
    UnixSecondsReads(now, UnixSeconds(now));
    var row := RuleEntry(f, rule, now);
    assert (audit + [row])[..|audit|] == audit;
  }

  function AppendAudit(faults: Faults, w: World, entry: AuditRow): (World, Result<nat, string>) {
    var error := faults(w.clock);
    if error.Some? then (Tick(w), Err(error.value))
    else (Tick(w).(db := w.db.(audit := w.db.audit + [entry])), Ok(|w.db.audit|))
  }

  /** `record_rule_audited`: the rule, then its audit row, as two operations. */
  function RecordRuleAudited(f: Foreign, faults: Faults, w: World, rule: NewRule,
                             now: int): (World, Result<StoredRule, string>) {
    var (ruled, stored) := RecordRule(f, faults, w, rule, now);
    if stored.Err? then (ruled, stored)
    else
      var (audited, row) := AppendAudit(faults, ruled, RuleEntry(f, rule, now));
      (audited, if row.Err? then Err(row.error) else stored)
  }

  function TryLookupRule(faults: Faults, w: World, key: Key): (World, Result<Option<Rule>, string>) {
    var error := faults(w.clock);
    (Tick(w),
     if error.Some? then Err(error.value)
     else if key in w.db.rules then Ok(Some(w.db.rules[key].rule))
     else Ok(None))
  }

  function UnavailableRule(key: Key, error: string): Rule {
    Rule(key.0, key.1, Deny, None, None, Some("rules store unavailable: " + error), None)
  }

  /** `RuleStore::lookup`: a rules table that cannot be read denies the version. */
  function Lookup(faults: Faults, w: World, key: Key): (World, Option<Rule>) {
    var (after, found) := TryLookupRule(faults, w, key);
    match found
    case Ok(rule) => (after, rule)
    case Err(error) => (NoteFailure(after, error), Some(UnavailableRule(key, error)))
  }

  /** A lookup answers what is stored, or denies with the error as its reason and notes the failure. */
  lemma FailedLookupDenies(faults: Faults, w: World, key: Key)
    ensures var (after, rule) := Lookup(faults, w, key);
      && after.db == w.db
      && (faults(w.clock) == None ==>
            && after.failure == w.failure
            && (rule == None <==> key !in w.db.rules)
            && (key in w.db.rules ==> rule == Some(w.db.rules[key].rule)))
      && (forall e :: faults(w.clock) == Some(e) ==>
            && after.failure == Some(if w.failure == None then e else w.failure.value)
            && rule.Some? && rule.value.verdict == Deny && (rule.value.name, rule.value.version) == key
            && rule.value.reason == Some("rules store unavailable: " + e))
  {
  }

  // -- the ledger --------------------------------------------------------------------------------

  function TryObserveBatch(faults: Faults, w: World, name: string, obs: seq<Observation>, now: int, bump: bool)
    : (World, Result<seq<Check>, string>)
  {
    if obs == [] then (w, Ok([]))
    else
      var error := faults(w.clock);
      if error.Some? then (Tick(w), Err(error.value))
      else (Tick(w).(db := w.db.(seen := ObserveAll(w.db.seen, name, obs, now, bump))),
            Ok(CheckAll(w.db.seen, name, obs, now, bump)))
  }

  function AllChanged(n: nat): (r: seq<Check>)
    ensures |r| == n
    ensures forall i :: 0 <= i < n ==> r[i] == Changed(None)
  {
    seq(n, i => Changed(None))
  }

  /** `observe_batch`: a ledger that cannot be read reports every version as changed. */
  function ObserveBatch(faults: Faults, w: World, name: string, obs: seq<Observation>, now: int, bump: bool)
    : (r: (World, seq<Check>))
    ensures |r.1| == |obs|
  {
    var (after, checks) := TryObserveBatch(faults, w, name, obs, now, bump);
    match checks
    case Ok(checks) => (after, checks)
    case Err(error) => (NoteFailure(after, error), AllChanged(|obs|))
  }

  // -- maintenance -------------------------------------------------------------------------------

  function RecordBlocksIn(f: Foreign, faults: Faults, w: World, name: string, blocked: seq<BlockRecord>, now: int)
    : (World, Result<nat, string>)
  {
    if blocked == [] then (w, Ok(0))
    else
      var error := faults(w.clock);
      if error.Some? then (Tick(w), Err(error.value))
      else
        RecordBlocksGrows(f, w.db.audit, name, blocked, now);
        var audit := RecordBlocks(f, w.db.audit, name, blocked, now);
        (Tick(w).(db := w.db.(audit := audit)), Ok(|audit| - |w.db.audit|))
  }

  lemma {:induction false} RecordBlocksGrows(f: Foreign, audit: seq<AuditRow>, name: string,
                                             blocked: seq<BlockRecord>, now: int)
    ensures audit <= RecordBlocks(f, audit, name, blocked, now)
  {
    if blocked != [] {
      RecordBlocksGrows(f, audit, name, blocked[..|blocked| - 1], now);
    }
  }

  function PruneLedger(faults: Faults, w: World, before: int): (World, Result<nat, string>) {
    var error := faults(w.clock);
    if error.Some? then (Tick(w), Err(error.value))
    else
      var kept := PruneSeen(w.db.seen, w.db.rules.Keys, before);
      assert kept.Keys <= w.db.seen.Keys;
      SubsetSize(kept.Keys, w.db.seen.Keys);
      (Tick(w).(db := w.db.(seen := kept)), Ok(|w.db.seen.Keys| - |kept.Keys|))
  }

  lemma {:induction false} SubsetSize<T>(a: set<T>, b: set<T>)
    requires a <= b
    ensures |a| <= |b|
  {
    assert b == a + (b - a);
  }

  function PruneLog(faults: Faults, w: World, before: int): (World, Result<nat, string>) {
    var error := faults(w.clock);
    if error.Some? then (Tick(w), Err(error.value))
    else
      var kept := PruneAudit(w.db.audit, before);
      PruneAuditShrinks(w.db.audit, before);
      (Tick(w).(db := w.db.(audit := kept)), Ok(|w.db.audit| - |kept|))
  }

  lemma {:induction false} PruneAuditShrinks(audit: seq<AuditRow>, before: int)
    ensures |PruneAudit(audit, before)| <= |audit|
  {
    if audit != [] {
      PruneAuditShrinks(audit[1..], before);
    }
  }

  /**
   `record_rule_audited` is not one transaction: when the audit row cannot be appended the call
   reports an error with the rule already in force. The rule is in force after the call exactly
   when the first operation succeeded, and the call succeeds exactly when both did.
   */
  lemma AuditedRuleMayStandUnaudited(f: Foreign, faults: Faults, w: World, rule: NewRule, now: int)
    ensures var (after, stored) := RecordRuleAudited(f, faults, w, rule, now);
      var key := (rule.name, rule.version);
      && (stored.Ok? <==> faults(w.clock).None? && faults(w.clock + 1).None?)
      && (faults(w.clock).None? ==> after.db.rules == w.db.rules[key := StoreRule(f, rule, now)])
      && (faults(w.clock).Some? ==> after.db == w.db)
      && (stored.Ok? ==> after.db.audit == w.db.audit + [RuleEntry(f, rule, now)])
      && (stored.Err? ==> after.db.audit == w.db.audit)
      && after.db.seen == w.db.seen
  {
  }
}
