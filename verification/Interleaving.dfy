/**
 Several evaluations sharing one store. Clearing the slot, the batch, each lookup, taking the slot
 and recording the blocks are separate atomic steps, interleaved in any order with each other and
 with rule writes, prunes and audit appends; any operation may fail. A rule and its audit row are
 two operations, as in the store.
 */
module Interleaving {
  import opened Basics
  import opened Json
  import opened Order
  import opened Policy
  import opened Filter
  import opened Ledger
  import opened Audit
  import opened Database
  import opened Request

  /** Where an evaluation is; `todo` holds the versions not yet decided, in document order. */
  datatype Phase =
    | Waiting
    | Cleared
    | Deciding(d: Document, todo: seq<string>, decided: map<string, Decision>)
    | Recording(outcome: Outcome)
    | Finished(answer: Result<Outcome, RequestError>)

  /** What really happened to an evaluation's operations. */
  datatype Trace = Trace(batchSucceeded: bool, checks: map<string, Check>, lookedUp: set<string>)

  datatype Evaluation = Evaluation(request: Request, phase: Phase, trace: Trace)

  /** What happened to the shared failure slot, and by which evaluation. */
  datatype SlotEvent = Reset(owner: nat) | Noted(owner: nat, error: string)

  datatype State = State(w: World, evaluations: map<nat, Evaluation>, history: seq<SlotEvent>)

  datatype Action =
    | Begin(id: nat, request: Request)
    | Clear(id: nat)
    | Batch(id: nat)
    | LookupNext(id: nat)
    | Take(id: nat)
    | RecordBlocked(id: nat)
    | WriteRule(rule: NewRule, now: int)
    | AppendRow(row: AuditRow)
    | PruneTheLedger(before: int)
    | PruneTheLog(before: int)

  function Put(s: State, id: nat, e: Evaluation): map<nat, Evaluation> {
    s.evaluations[id := e]
  }

  /** The slot event of a fail-closed operation, if the operation failed. */
  function Swallowed(faults: Faults, w: World, attempted: bool, id: nat): seq<SlotEvent> {
    if attempted && faults(w.clock).Some? then [Noted(id, faults(w.clock).value)] else []
  }

  function ClearStep(s: State, id: nat, e: Evaluation): State {
    State(ClearFailure(s.w), Put(s, id, e.(phase := Cleared)), s.history + [Reset(id)])
  }

  function BatchStep(faults: Faults, s: State, id: nat, e: Evaluation): State {
    var q := e.request;
    var versions := DocumentVersions(q.document);
    var obs := AllObservations(versions);
    var (after, found) := ObserveBatch(faults, s.w, q.package, obs, q.now, !q.cached);
    var keys := SortedKeys(versions.Keys);
    var parsed := Parse(q.document);
    var phase := if parsed.Err? then Finished(Err(Malformed(parsed.error))) else Deciding(parsed.value, keys, map[]);
    State(
      after,
      Put(s, id, Evaluation(q, phase, Trace(obs != [] && faults(s.w.clock).None?, CheckMap(keys, found), {}))),
      s.history + Swallowed(faults, s.w, obs != [], id))
  }

  /** One version decided, with a rule lookup unless the ledger changed. */
  function LookupStep(f: Foreign, faults: Faults, s: State, id: nat, e: Evaluation): State
    requires e.phase.Deciding? && e.phase.todo != [] && e.phase.todo[0] in e.trace.checks
  {
    var Deciding(d, todo, decided) := e.phase;
    var v, check := todo[0], e.trace.checks[todo[0]];
    var (after, decision) := GateOne(GateOf(f, e.request.cfg, e.request.now, d), faults, d.name, check, s.w, v);
    var succeeded := !check.Changed? && faults(s.w.clock).None?;
    var trace := e.trace.(lookedUp := e.trace.lookedUp + if succeeded then {v} else {});
    State(
      after,
      Put(s, id, Evaluation(e.request, Deciding(d, todo[1..], decided[v := decision]), trace)),
      s.history + Swallowed(faults, s.w, !check.Changed?, id))
  }

  /** Take the slot: a recorded failure becomes the answer, otherwise the document is rebuilt. */
  function TakeStep(f: Foreign, s: State, id: nat, e: Evaluation): State
    requires e.phase.Deciding? && e.phase.decided.Keys == e.phase.d.versions.Keys
  {
    var phase :=
      if s.w.failure.Some? then Finished(Err(StoreUnavailable(s.w.failure.value)))
      else Recording(Outcomes(f, e.request.cfg, e.phase.d, e.phase.decided));
    State(ClearFailure(s.w), Put(s, id, e.(phase := phase)), s.history + [Reset(id)])
  }

  /** A failed append of the audit rows is logged and swallowed: the answer stands. */
  function RecordStep(f: Foreign, faults: Faults, s: State, id: nat, e: Evaluation): State
    requires e.phase.Recording?
  {
    var after := RecordBlocksIn(f, faults, s.w, e.request.package, e.phase.outcome.blocked, e.request.now).0;
    s.(w := after, evaluations := Put(s, id, e.(phase := Finished(Ok(e.phase.outcome)))))
  }

  /** One atomic step; an action that is not enabled changes nothing. */
  function Next(f: Foreign, faults: Faults, s: State, action: Action): State {
    match action
    case Begin(id, request) =>
      if id in s.evaluations then s
      else s.(evaluations := Put(s, id, Evaluation(request, Waiting, Trace(false, map[], {}))))
    case Clear(id) =>
      if id in s.evaluations && s.evaluations[id].phase.Waiting? then ClearStep(s, id, s.evaluations[id]) else s
    case Batch(id) =>
      if id in s.evaluations && s.evaluations[id].phase.Cleared? then BatchStep(faults, s, id, s.evaluations[id]) else s
    case LookupNext(id) =>
      if id in s.evaluations && s.evaluations[id].phase.Deciding? && s.evaluations[id].phase.todo != []
         && s.evaluations[id].phase.todo[0] in s.evaluations[id].trace.checks
      then LookupStep(f, faults, s, id, s.evaluations[id]) else s
    case Take(id) =>
      if id in s.evaluations && s.evaluations[id].phase.Deciding? && s.evaluations[id].phase.todo == []
         && s.evaluations[id].phase.decided.Keys == s.evaluations[id].phase.d.versions.Keys
      then TakeStep(f, s, id, s.evaluations[id]) else s
    case RecordBlocked(id) =>
      if id in s.evaluations && s.evaluations[id].phase.Recording? then RecordStep(f, faults, s, id, s.evaluations[id])
      else s
    case WriteRule(rule, now) => s.(w := RecordRule(f, faults, s.w, rule, now).0)
    case AppendRow(row) => s.(w := AppendAudit(faults, s.w, row).0)
    case PruneTheLedger(before) => s.(w := PruneLedger(faults, s.w, before).0)
    case PruneTheLog(before) => s.(w := PruneLog(faults, s.w, before).0)
  }

  function Run(f: Foreign, faults: Faults, s: State, actions: seq<Action>): State {
    if actions == [] then s
    else Next(f, faults, Run(f, faults, s, actions[..|actions| - 1]), actions[|actions| - 1])
  }

  function Start(db: Db): State {
    State(World(db, 0, None), map[], [])
  }

  // -- every answer was checked -------------------------------------------------------------------

  /** A version passed its ledger check in a batch that succeeded, and its rule was really read. */
  predicate Vetted(trace: Trace, v: string) {
    && trace.batchSucceeded
    && v in trace.checks && trace.checks[v] in {Unseen, Match}
    && v in trace.lookedUp
  }

  ghost predicate Sound(e: Evaluation) {
    match e.phase
    case Waiting => true
    case Cleared => true
    case Deciding(d, todo, decided) =>
      && Parse(Object(d.root)) == Ok(d)
      && d.versions.Keys == e.trace.checks.Keys
      && decided.Keys + (set k | k in todo) == d.versions.Keys
      && (!e.trace.batchSucceeded ==> forall v :: v in e.trace.checks ==> e.trace.checks[v].Changed?)
      && forall v :: v in decided && decided[v].Serve? ==> Vetted(e.trace, v)
    case Recording(outcome) => forall v :: v in DocumentVersions(outcome.packument) ==> Vetted(e.trace, v)
    case Finished(answer) =>
      answer.Ok? ==> forall v :: v in DocumentVersions(answer.value.packument) ==> Vetted(e.trace, v)
  }

  ghost predicate AllSound(s: State) {
    forall id :: id in s.evaluations ==> Sound(s.evaluations[id])
  }

  lemma {:induction false} EmptyChecks(keys: seq<string>, checks: seq<Check>)
    requires |keys| == |checks|
    requires forall i :: 0 <= i < |checks| ==> checks[i].Changed?
    ensures forall k :: k in CheckMap(keys, checks) ==> CheckMap(keys, checks)[k].Changed?
  {
    if keys != [] {
      EmptyChecks(keys[..|keys| - 1], checks[..|keys| - 1]);
    }
  }

  lemma BatchSound(faults: Faults, s: State, id: nat, e: Evaluation)
    ensures Sound(BatchStep(faults, s, id, e).evaluations[id])
  {
    hide Parse, DocumentVersions, AllObservations, ObserveBatch, Vetted, SortedKeys, CheckMap;
    var q := e.request;
    var versions := DocumentVersions(q.document);
    BatchVerdictsSound(faults, s.w, q.package, SortedKeys(versions.Keys), AllObservations(versions), q.now, !q.cached);
    var after := BatchStep(faults, s, id, e).evaluations[id];
    if Parse(q.document).Ok? {
      var d := Parse(q.document).value;
      ParsedVersions(q.document, d);
      assert after.phase == Deciding(d, SortedKeys(versions.Keys), map[]);
    }
  }

  lemma BatchVerdictsSound(faults: Faults, w: World, package: string, keys: seq<string>, obs: seq<Observation>,
                           now: int, bump: bool)
    requires |keys| == |obs|
    ensures var found := CheckMap(keys, ObserveBatch(faults, w, package, obs, now, bump).1);
      && found.Keys == (set k | k in keys)
      && (!(obs != [] && faults(w.clock).None?) ==> forall k :: k in found ==> found[k].Changed?)
  {
    hide CheckAll, ObserveAll;
    if obs == [] || faults(w.clock).Some? {
      EmptyChecks(keys, ObserveBatch(faults, w, package, obs, now, bump).1);
    }
  }

  lemma LookupSound(f: Foreign, faults: Faults, s: State, id: nat, e: Evaluation)
    requires Sound(e)
    requires e.phase.Deciding? && e.phase.todo != [] && e.phase.todo[0] in e.trace.checks
    ensures Sound(LookupStep(f, faults, s, id, e).evaluations[id])
  {
    hide GateOf, Parse, GateOne, Vetted;
    var Deciding(d, todo, decided) := e.phase;
    OneMoreVetted(e.trace, todo[0]);
    assert e.trace.lookedUp + {} == e.trace.lookedUp;
    EngineFailsClosed(f, e.request.cfg, e.request.now, d);
    GateOneFailsClosed(GateOf(f, e.request.cfg, e.request.now, d), faults, d.name, e.trace.checks[todo[0]], s.w,
                       todo[0]);
    var after := LookupStep(f, faults, s, id, e).evaluations[id];
    forall v | v in after.phase.decided && after.phase.decided[v].Serve?
      ensures Vetted(after.trace, v)
    {
    }
    HeadAndTail(todo);
  }

  lemma HeadAndTail(s: seq<string>)
    requires s != []
    ensures (set k | k in s) == {s[0]} + (set k | k in s[1..])
  {
    assert s == [s[0]] + s[1..];
  }

  lemma OneMoreVetted(trace: Trace, v: string)
    ensures var more := trace.(lookedUp := trace.lookedUp + {v});
      && (forall u :: Vetted(trace, u) ==> Vetted(more, u))
      && (v in trace.checks && !trace.checks[v].Changed? && trace.batchSucceeded ==> Vetted(more, v))
  {
  }

  lemma TakeSound(f: Foreign, s: State, id: nat, e: Evaluation)
    requires Sound(e)
    requires e.phase.Deciding? && e.phase.decided.Keys == e.phase.d.versions.Keys
    ensures Sound(TakeStep(f, s, id, e).evaluations[id])
  {
    hide Outcomes, Parse;
    OutcomeParts(f, e.request.cfg, e.phase.d, e.phase.decided);
    var packument := Outcomes(f, e.request.cfg, e.phase.d, e.phase.decided).packument;
    ParsedVersions(packument, Parse(packument).value);
  }

  lemma NextSound(f: Foreign, faults: Faults, s: State, action: Action)
    requires AllSound(s)
    ensures AllSound(Next(f, faults, s, action))
  {
    hide BatchStep, LookupStep, TakeStep, Sound, Vetted;
    EvaluationsElsewhereStay(f, faults, s, action);
    match action
    case Batch(id) =>
      if id in s.evaluations {
        BatchSound(faults, s, id, s.evaluations[id]);
      }
    case LookupNext(id) =>
      if Next(f, faults, s, action) != s {
        LookupSound(f, faults, s, id, s.evaluations[id]);
      }
    case Take(id) =>
      if Next(f, faults, s, action) != s {
        TakeSound(f, s, id, s.evaluations[id]);
      }
    case _ => SimpleSteps(f, faults, s, action);
  }

  function Actor(action: Action): Option<nat> {
    match action
    case Begin(id, _) => Some(id)
    case Clear(id) => Some(id)
    case Batch(id) => Some(id)
    case LookupNext(id) => Some(id)
    case Take(id) => Some(id)
    case RecordBlocked(id) => Some(id)
    case _ => None
  }

  lemma EvaluationsElsewhereStay(f: Foreign, faults: Faults, s: State, action: Action)
    ensures var after := Next(f, faults, s, action);
      && (forall id :: Actor(action) != Some(id) ==>
            (id in after.evaluations <==> id in s.evaluations)
            && (id in s.evaluations ==> after.evaluations[id] == s.evaluations[id]))
      && s.evaluations.Keys <= after.evaluations.Keys
  {
    hide ObserveBatch, GateOne, GateOf, Outcomes, RecordBlocksIn, AllObservations, CheckMap, Parse, DocumentVersions;
  }

  lemma SimpleSteps(f: Foreign, faults: Faults, s: State, action: Action)
    requires action.Begin? || action.Clear? || action.RecordBlocked?
             || action.WriteRule? || action.AppendRow? || action.PruneTheLedger? || action.PruneTheLog?
    requires AllSound(s)
    ensures forall id :: Actor(action) == Some(id) && id in Next(f, faults, s, action).evaluations ==>
              Sound(Next(f, faults, s, action).evaluations[id])
  {
    hide RecordBlocksIn, Vetted, Parse, DocumentVersions;
  }

  /**
   Under every interleaving and every pattern of storage failures, each version an answer serves
   had an Unseen or Match check from a batch that succeeded and a rule lookup that succeeded.
   */
  lemma {:induction false} AnswersAreVetted(f: Foreign, faults: Faults, db: Db, actions: seq<Action>)
    ensures AllSound(Run(f, faults, Start(db), actions))
    ensures forall id, v :: id in Run(f, faults, Start(db), actions).evaluations ==>
      var e := Run(f, faults, Start(db), actions).evaluations[id];
      e.phase.Finished? && e.phase.answer.Ok? && v in DocumentVersions(e.phase.answer.value.packument) ==>
        Vetted(e.trace, v)
  {
    if actions != [] {
      hide Next;
      AnswersAreVetted(f, faults, db, actions[..|actions| - 1]);
      NextSound(f, faults, Run(f, faults, Start(db), actions[..|actions| - 1]), actions[|actions| - 1]);
    }
  }

  // -- when a failure is reported ----------------------------------------------------------------------

  /** The slot as its history says: the first failure noted since the last reset by anyone. */
  function SlotOf(history: seq<SlotEvent>): Option<string> {
    if history == [] then None
    else
      var last := history[|history| - 1];
      var before := SlotOf(history[..|history| - 1]);
      if last.Reset? then None else if before.Some? then before else Some(last.error)
  }

  lemma {:induction false} SlotHeldExactly(history: seq<SlotEvent>)
    ensures SlotOf(history).Some? <==>
              exists i :: 0 <= i < |history| && history[i].Noted?
                          && forall k :: i < k < |history| ==> !history[k].Reset?
  {
    if history != [] {
      var n := |history| - 1;
      var front := history[..n];
      SlotHeldExactly(front);
      if SlotOf(front).Some? && history[n].Noted? {
        var i :| 0 <= i < |front| && front[i].Noted? && forall k :: i < k < |front| ==> !front[k].Reset?;
        assert history[i].Noted?;
      }
    }
  }

  lemma SlotFollowsHistory(f: Foreign, faults: Faults, s: State, action: Action)
    requires s.w.failure == SlotOf(s.history)
    ensures Next(f, faults, s, action).w.failure == SlotOf(Next(f, faults, s, action).history)
  {
    hide BatchStep, LookupStep, Outcomes, RecordBlocks, StoreRule, PruneSeen, PruneAudit, SlotOf;
    SlotGrows(s.history);
    if action.Batch? && action.id in s.evaluations {
      var error := BatchNotes(faults, s, action.id, s.evaluations[action.id]);
      assert s.history + [] == s.history;
    }
    if action.LookupNext? && Next(f, faults, s, action) != s {
      var error := LookupNotes(f, faults, s, action.id, s.evaluations[action.id]);
      assert s.history + [] == s.history;
    }
  }

  /** What one more event makes of the slot. */
  lemma SlotGrows(history: seq<SlotEvent>)
    ensures forall owner :: SlotOf(history + [Reset(owner)]) == None
    ensures forall owner, error ::
              SlotOf(history + [Noted(owner, error)]) == if SlotOf(history).Some? then SlotOf(history) else Some(error)
  {
    assert forall event: SlotEvent :: (history + [event])[..|history|] == history;
  }

  /** At most one failure was noted, and the slot kept the first. */
  ghost predicate Notes(s: State, after: State, id: nat, error: Option<string>) {
    && after.history == s.history + (if error.Some? then [Noted(id, error.value)] else [])
    && after.w.failure == if s.w.failure.Some? then s.w.failure else error
  }

  lemma BatchNotes(faults: Faults, s: State, id: nat, e: Evaluation) returns (error: Option<string>)
    ensures Notes(s, BatchStep(faults, s, id, e), id, error)
  {
    hide CheckMap, Parse, ObserveAll, CheckAll, SortedKeys, AllObservations;
    error := if AllObservations(DocumentVersions(e.request.document)) == [] then None else faults(s.w.clock);
  }

  lemma LookupNotes(f: Foreign, faults: Faults, s: State, id: nat, e: Evaluation) returns (error: Option<string>)
    requires e.phase.Deciding? && e.phase.todo != [] && e.phase.todo[0] in e.trace.checks
    ensures Notes(s, LookupStep(f, faults, s, id, e), id, error)
  {
    hide GateOf;
    error := if e.trace.checks[e.phase.todo[0]].Changed? then None else faults(s.w.clock);
  }

  lemma {:induction false} SlotFollowsHistoryInRuns(f: Foreign, faults: Faults, db: Db, actions: seq<Action>)
    ensures var s := Run(f, faults, Start(db), actions);
      s.w.failure == SlotOf(s.history)
  {
    if actions != [] {
      hide Next, SlotOf;
      SlotFollowsHistoryInRuns(f, faults, db, actions[..|actions| - 1]);
      SlotFollowsHistory(f, faults, Run(f, faults, Start(db), actions[..|actions| - 1]), actions[|actions| - 1]);
    }
  }

  predicate ReadyToTake(s: State, id: nat) {
    && id in s.evaluations && s.evaluations[id].phase.Deciding? && s.evaluations[id].phase.todo == []
    && s.evaluations[id].phase.decided.Keys == s.evaluations[id].phase.d.versions.Keys
  }

  /**
   Exactly when an evaluation reports a storage failure: some evaluation, not necessarily this
   one, noted a failure and no evaluation has cleared or taken the shared slot since.
   */
  lemma FailureReportedExactlyWhen(f: Foreign, faults: Faults, db: Db, actions: seq<Action>, id: nat)
    requires ReadyToTake(Run(f, faults, Start(db), actions), id)
    ensures var s := Run(f, faults, Start(db), actions);
      var phase := Next(f, faults, s, Take(id)).evaluations[id].phase;
      && (phase.Finished? <==> exists i :: 0 <= i < |s.history| && s.history[i].Noted?
                                           && forall k :: i < k < |s.history| ==> !s.history[k].Reset?)
      && (phase.Finished? ==> phase.answer == Err(StoreUnavailable(SlotOf(s.history).value)))
      && (!phase.Finished? ==> phase.Recording?)
  {
    hide Run, Outcomes, SlotOf;
    SlotFollowsHistoryInRuns(f, faults, db, actions);
    SlotHeldExactly(Run(f, faults, Start(db), actions).history);
  }

  // -- one evaluation in flight ------------------------------------------------------------------------

  /** The action leaves the slot alone, unless this evaluation performs it. */
  predicate OnlyMine(action: Action, id: nat) {
    match action
    case Clear(other) => other == id
    case Batch(other) => other == id
    case LookupNext(other) => other == id
    case Take(other) => other == id
    case _ => true
  }

  /** A version whose rule had to be read, and was not. */
  ghost predicate MissedRule(trace: Trace, v: string) {
    v in trace.checks && !trace.checks[v].Changed? && v !in trace.lookedUp
  }

  /** An operation of this evaluation failed: its batch, or a lookup among the decided versions. */
  ghost predicate SomethingFailed(trace: Trace, decided: set<string>) {
    (trace.checks != map[] && !trace.batchSucceeded) || exists v :: v in decided && MissedRule(trace, v)
  }

  /** While it has the slot to itself, the slot tells whether one of its operations failed. */
  ghost predicate Solo(s: State, id: nat) {
    id in s.evaluations &&
    var e := s.evaluations[id];
    match e.phase
    case Waiting => false
    case Cleared => s.w.failure.None?
    case Deciding(d, todo, decided) =>
      && ToldApart(e.trace, todo, decided.Keys)
      && (s.w.failure.Some? <==> SomethingFailed(e.trace, decided.Keys))
    case Recording(_) => true
    case Finished(_) => true
  }

  /** Every checked version is either decided or still to do, once, and only decided ones were looked up. */
  ghost predicate ToldApart(trace: Trace, todo: seq<string>, decided: set<string>) {
    && Distinct(todo) && (forall v :: v in todo ==> v !in decided && v !in trace.lookedUp)
    && (forall v :: v in todo || v in decided <==> v in trace.checks)
  }

  lemma BatchFails(faults: Faults, s: State, id: nat, e: Evaluation)
    ensures var after := BatchStep(faults, s, id, e);
      var trace, phase := after.evaluations[id].trace, after.evaluations[id].phase;
      && (after.w.failure.Some? <==> s.w.failure.Some? || (trace.checks != map[] && !trace.batchSucceeded))
      && (phase.Deciding? ==> ToldApart(trace, phase.todo, {}) && phase.decided == map[])
      && (phase.Deciding? || phase.Finished?)
  {
    hide Parse, DocumentVersions, CheckAll, ObserveAll, SortedKeys, CheckMap;
    var q := e.request;
    var versions := DocumentVersions(q.document);
    var obs := AllObservations(versions);
    BatchVerdictsSound(faults, s.w, q.package, SortedKeys(versions.Keys), obs, q.now, !q.cached);
    var trace := BatchStep(faults, s, id, e).evaluations[id].trace;
    assert trace.checks.Keys == versions.Keys;
    assert trace.checks == map[] <==> trace.checks.Keys == {};
    assert obs == [] <==> versions.Keys == {};
  }

  lemma SoloBatch(f: Foreign, faults: Faults, s: State, id: nat)
    requires Solo(s, id) && s.evaluations[id].phase.Cleared?
    ensures Solo(Next(f, faults, s, Batch(id)), id)
  {
    hide BatchStep, Next, ToldApart, MissedRule;
    BatchFails(faults, s, id, s.evaluations[id]);
    BatchIsStep(f, faults, s, id);
    var trace := Next(f, faults, s, Batch(id)).evaluations[id].trace;
    var none: map<string, Decision> := map[];
    assert none.Keys == {};
    assert SomethingFailed(trace, {}) <==> trace.checks != map[] && !trace.batchSucceeded;
  }

  lemma BatchIsStep(f: Foreign, faults: Faults, s: State, id: nat)
    requires id in s.evaluations && s.evaluations[id].phase.Cleared?
    ensures Next(f, faults, s, Batch(id)) == BatchStep(faults, s, id, s.evaluations[id])
    ensures id in Next(f, faults, s, Batch(id)).evaluations
  {
    hide ObserveBatch, Parse, DocumentVersions, CheckMap, SortedKeys, AllObservations;
  }

  lemma LookupFails(f: Foreign, faults: Faults, s: State, id: nat, e: Evaluation)
    requires e.phase.Deciding? && e.phase.todo != [] && e.phase.todo[0] in e.trace.checks
    ensures var after, v := LookupStep(f, faults, s, id, e), e.phase.todo[0];
      var failed := !e.trace.checks[v].Changed? && faults(s.w.clock).Some?;
      && (after.w.failure.Some? <==> s.w.failure.Some? || failed)
      && after.evaluations[id].phase.Deciding? && after.evaluations[id].phase.todo == e.phase.todo[1..]
      && after.evaluations[id].phase.decided.Keys == e.phase.decided.Keys + {v}
      && after.evaluations[id].trace == e.trace.(
           lookedUp := e.trace.lookedUp + if !e.trace.checks[v].Changed? && !failed then {v} else {})
  {
    hide GateOf;
  }

  lemma SoloLookup(f: Foreign, faults: Faults, s: State, id: nat)
    requires Solo(s, id)
    requires s.evaluations[id].phase.Deciding? && s.evaluations[id].phase.todo != []
    ensures Solo(Next(f, faults, s, LookupNext(id)), id)
  {
    hide LookupStep, Next, ToldApart;
    var e := s.evaluations[id];
    var todo, decided, v := e.phase.todo, e.phase.decided.Keys, e.phase.todo[0];
    StillApart(e.trace, todo, decided);
    LookupFails(f, faults, s, id, e);
    var after := LookupStep(f, faults, s, id, e);
    LookupIsStep(f, faults, s, id);
    var trace := after.evaluations[id].trace;
    assert forall u :: u in decided ==> (MissedRule(trace, u) <==> MissedRule(e.trace, u));
    assert MissedRule(trace, v) <==> !e.trace.checks[v].Changed? && faults(s.w.clock).Some?;
    hide MissedRule;
    OneMoreFailure(e.trace, trace, decided, v);
    hide SomethingFailed;
  }

  lemma LookupIsStep(f: Foreign, faults: Faults, s: State, id: nat)
    requires id in s.evaluations && s.evaluations[id].phase.Deciding? && s.evaluations[id].phase.todo != []
    requires s.evaluations[id].phase.todo[0] in s.evaluations[id].trace.checks
    ensures Next(f, faults, s, LookupNext(id)) == LookupStep(f, faults, s, id, s.evaluations[id])
    ensures id in Next(f, faults, s, LookupNext(id)).evaluations
  {
    hide GateOne, GateOf;
  }

  lemma StillApart(trace: Trace, todo: seq<string>, decided: set<string>)
    requires ToldApart(trace, todo, decided) && todo != []
    ensures var v := todo[0];
      && v in trace.checks && v !in decided && v !in trace.lookedUp
      && ToldApart(trace, todo[1..], decided + {v})
      && ToldApart(trace.(lookedUp := trace.lookedUp + {v}), todo[1..], decided + {v})
      && trace.(lookedUp := trace.lookedUp + {}) == trace
  {
    var v := todo[0];
    assert todo == [v] + todo[1..] && v in todo && v !in todo[1..];
  }

  lemma OneMoreFailure(before: Trace, after: Trace, decided: set<string>, v: string)
    requires before.checks == after.checks && before.batchSucceeded == after.batchSucceeded
    requires forall u :: u in decided ==> (MissedRule(after, u) <==> MissedRule(before, u))
    ensures SomethingFailed(after, decided + {v}) <==> SomethingFailed(before, decided) || MissedRule(after, v)
  {
    hide MissedRule;
    if MissedRule(after, v) {
      assert v in decided + {v};
    }
  }

  lemma SoloStep(f: Foreign, faults: Faults, s: State, id: nat, action: Action)
    requires Solo(s, id) && OnlyMine(action, id)
    ensures Solo(Next(f, faults, s, action), id)
  {
    hide BatchStep, LookupStep, SomethingFailed, RecordBlocksIn, Outcomes, StoreRule, PruneLedger, PruneLog;
    if action == Batch(id) && s.evaluations[id].phase.Cleared? {
      SoloBatch(f, faults, s, id);
    } else if action == LookupNext(id) && s.evaluations[id].phase.Deciding? && s.evaluations[id].phase.todo != [] {
      SoloLookup(f, faults, s, id);
    } else {
      SlotStays(f, faults, s, id, action);
    }
  }

  lemma SlotStays(f: Foreign, faults: Faults, s: State, id: nat, action: Action)
    requires Solo(s, id) && OnlyMine(action, id)
    requires action == Batch(id) ==> !s.evaluations[id].phase.Cleared?
    requires action == LookupNext(id) ==> !(s.evaluations[id].phase.Deciding? && s.evaluations[id].phase.todo != [])
    ensures Solo(Next(f, faults, s, action), id)
  {
    hide BatchStep, LookupStep, SomethingFailed, Outcomes, StoreRule, RecordBlocks, PruneSeen, PruneAudit;
  }

  lemma {:induction false} SoloRun(f: Foreign, faults: Faults, s: State, id: nat, actions: seq<Action>)
    requires Solo(s, id) && forall action :: action in actions ==> OnlyMine(action, id)
    ensures Solo(Run(f, faults, s, actions), id)
  {
    if actions != [] {
      hide Next, Solo, OnlyMine;
      SoloRun(f, faults, s, id, actions[..|actions| - 1]);
      SoloStep(f, faults, Run(f, faults, s, actions[..|actions| - 1]), id, actions[|actions| - 1]);
    }
  }

  /**
   One evaluation in flight reports exactly its own failures. If between clearing the slot and
   taking it no other evaluation clears, observes, looks up or takes, whatever rules, rows and
   prunes are written meanwhile and however they fail, taking the slot answers StoreUnavailable if
   and only if the batch over a non-empty document failed or the rule of some version the ledger
   did not object to could not be read.
   */
  lemma SoloReportsItsFailures(f: Foreign, faults: Faults, s: State, id: nat, actions: seq<Action>)
    requires id in s.evaluations && s.evaluations[id].phase.Waiting?
    requires forall action :: action in actions ==> OnlyMine(action, id)
    requires ReadyToTake(Run(f, faults, Next(f, faults, s, Clear(id)), actions), id)
    ensures var last := Run(f, faults, Next(f, faults, s, Clear(id)), actions);
      var trace, phase := last.evaluations[id].trace, Next(f, faults, last, Take(id)).evaluations[id].phase;
      && (phase.Finished? <==> (trace.checks != map[] && !trace.batchSucceeded) || exists v :: MissedRule(trace, v))
      && (phase.Finished? ==> phase.answer.Err? && phase.answer.error.StoreUnavailable?)
  {
    var cleared := Next(f, faults, s, Clear(id));
    assert Solo(cleared, id);
    hide Run, Outcomes;
    SoloRun(f, faults, cleared, id, actions);
    var trace := Run(f, faults, cleared, actions).evaluations[id].trace;
    assert forall v :: MissedRule(trace, v) ==> v in trace.checks;
  }

  // -- an evaluation nobody interrupts --------------------------------------------------------------------

  lemma {:induction false} RunConcat(f: Foreign, faults: Faults, s: State, a: seq<Action>, b: seq<Action>)
    ensures Run(f, faults, s, a + b) == Run(f, faults, Run(f, faults, s, a), b)
  {
    if b == [] {
      assert a + b == a;
    } else {
      RunConcat(f, faults, s, a, b[..|b| - 1]);
      assert (a + b)[..|a + b| - 1] == a + b[..|b| - 1];
    }
  }

  function Lookups(id: nat, n: nat): (r: seq<Action>)
    ensures |r| == n
  {
    seq(n, i => LookupNext(id))
  }

  /** The operations of an evaluation that has begun, up to taking the slot. */
  function Work(id: nat, q: Request): seq<Action> {
    [Clear(id), Batch(id)] + Lookups(id, |DocumentVersions(q.document)|) + [Take(id)]
  }

  function UntilTake(id: nat, q: Request): seq<Action> {
    [Begin(id, q)] + Work(id, q)
  }

  function Uninterrupted(id: nat, q: Request): seq<Action> {
    UntilTake(id, q) + [RecordBlocked(id)]
  }

  lemma RunOne(f: Foreign, faults: Faults, s: State, action: Action)
    ensures Run(f, faults, s, [action]) == Next(f, faults, s, action)
  {
    assert [action][..0] == [];
  }

  lemma RunTwo(f: Foreign, faults: Faults, s: State, a: Action, b: Action)
    ensures Run(f, faults, s, [a, b]) == Next(f, faults, Next(f, faults, s, a), b)
  {
    hide Next;
    RunOne(f, faults, s, a);
    assert [a, b][..1] == [a];
  }

  /** The evaluation has begun and done nothing yet. */
  predicate Waits(s: State, id: nat, q: Request) {
    id in s.evaluations && s.evaluations[id].phase.Waiting? && s.evaluations[id].request == q
  }

  /** Only this evaluation, the world and the slot's history differ. */
  ghost predicate OthersStay(s: State, t: State, id: nat) {
    id in t.evaluations && t.evaluations == s.evaluations[id := t.evaluations[id]]
  }

  /** An evaluation that has just observed its document, in a world where nothing else happened. */
  ghost predicate Observed(faults: Faults, s: State, t: State, id: nat, q: Request) {
    var versions := DocumentVersions(q.document);
    var obs := AllObservations(versions);
    var (observed, checks) := ObserveBatch(faults, ClearFailure(s.w), q.package, obs, q.now, !q.cached);
    && OthersStay(s, t, id) && t.w == observed
    && t.evaluations[id].request == q
    && t.evaluations[id].trace.checks == CheckMap(SortedKeys(versions.Keys), checks)
    && t.evaluations[id].phase ==
         if Parse(q.document).Err? then Finished(Err(Malformed(Parse(q.document).error)))
         else Deciding(Parse(q.document).value, SortedKeys(versions.Keys), map[])
  }

  lemma ClearedAndObserved(f: Foreign, faults: Faults, s: State, id: nat, q: Request)
    requires Waits(s, id, q)
    ensures Observed(faults, s, Run(f, faults, s, [Clear(id), Batch(id)]), id, q)
  {
    hide Run, Parse, DocumentVersions, ObserveBatch, CheckMap, SortedKeys, AllObservations;
    RunTwo(f, faults, s, Clear(id), Batch(id));
  }

  lemma {:induction false} LookupsIdle(f: Foreign, faults: Faults, s: State, id: nat, n: nat)
    requires id in s.evaluations && s.evaluations[id].phase.Finished?
    ensures Run(f, faults, s, Lookups(id, n)) == s
  {
    if n > 0 {
      LookupsIdle(f, faults, s, id, n - 1);
      assert Lookups(id, n)[..n - 1] == Lookups(id, n - 1);
    }
  }

  /** The lookups of one evaluation, one after the other, are the gates of a request. */
  lemma {:induction false} LookupsAreGates(f: Foreign, faults: Faults, s: State, id: nat, d: Document,
                                           keys: seq<string>, k: nat)
    requires id in s.evaluations && s.evaluations[id].phase == Deciding(d, keys, map[])
    requires k <= |keys| && forall v :: v in keys ==> v in s.evaluations[id].trace.checks
    ensures var t, e := Run(f, faults, s, Lookups(id, k)), s.evaluations[id];
      var gate := GateOf(f, e.request.cfg, e.request.now, d);
      var (after, decided) := Gates(gate, faults, d.name, e.trace.checks, s.w, keys[..k]);
      && OthersStay(s, t, id) && t.w == after
      && t.evaluations[id].request == e.request && t.evaluations[id].trace.checks == e.trace.checks
      && t.evaluations[id].phase == Deciding(d, keys[k..], decided)
  {
    hide GateOf, GateOne;
    if k == 0 {
      assert keys[0..] == keys && s.evaluations == s.evaluations[id := s.evaluations[id]];
    } else {
      LookupsAreGates(f, faults, s, id, d, keys, k - 1);
      assert Lookups(id, k)[..k - 1] == Lookups(id, k - 1);
      assert keys[..k][..k - 1] == keys[..k - 1];
      assert keys[k - 1..][0] == keys[k - 1] && keys[k - 1..][1..] == keys[k..];
    }
  }

  /** What an evaluation without interruption has reached when it has taken the slot. */
  ghost predicate Taken(f: Foreign, faults: Faults, s: State, t: State, id: nat, q: Request) {
    && OthersStay(s, t, id) && t.evaluations[id].request == q
    && (Parse(q.document).Err? ==>
          && t.evaluations[id].phase == Finished(Err(Malformed(Parse(q.document).error)))
          && t.w == ObserveBatch(faults, ClearFailure(s.w), q.package, AllObservations(DocumentVersions(q.document)),
                                 q.now, !q.cached).0)
    && (Parse(q.document).Ok? ==>
          var d := Parse(q.document).value;
          var gated := Gated(f, faults, s.w, q, d);
          && t.w == ClearFailure(gated.0)
          && t.evaluations[id].phase ==
               if gated.0.failure.Some? then Finished(Err(StoreUnavailable(gated.0.failure.value)))
               else Recording(Outcomes(f, q.cfg, d, gated.1)))
  }

  lemma WorkMeans(f: Foreign, faults: Faults, s: State, id: nat, q: Request)
    requires Waits(s, id, q)
    ensures Taken(f, faults, s, Run(f, faults, s, Work(id, q)), id, q)
  {
    hide Run, Next, Observed, Taken, DocumentVersions;
    var begun, lookups := [Clear(id), Batch(id)], Lookups(id, |DocumentVersions(q.document)|);
    ClearedAndObserved(f, faults, s, id, q);
    RunConcat(f, faults, s, begun, lookups);
    RunConcat(f, faults, s, begun + lookups, [Take(id)]);
    RunOne(f, faults, Run(f, faults, s, begun + lookups), Take(id));
    DecidedAndTaken(f, faults, s, Run(f, faults, s, begun), id, q);
  }

  lemma UntilTakeMeans(f: Foreign, faults: Faults, s: State, id: nat, q: Request)
    requires id !in s.evaluations
    ensures Taken(f, faults, s, Run(f, faults, s, UntilTake(id, q)), id, q)
  {
    hide Run, Work, Parse, Gated, Outcomes, ObserveBatch;
    var begun := Next(f, faults, s, Begin(id, q));
    RunConcat(f, faults, s, [Begin(id, q)], Work(id, q));
    RunOne(f, faults, s, Begin(id, q));
    assert Waits(begun, id, q) && begun.w == s.w && OthersStay(s, begun, id);
    hide Next;
    WorkMeans(f, faults, begun, id, q);
  }

  lemma DecidedAndTaken(f: Foreign, faults: Faults, s: State, observed: State, id: nat, q: Request)
    requires Observed(faults, s, observed, id, q)
    ensures var lookups := Lookups(id, |DocumentVersions(q.document)|);
      Taken(f, faults, s, Next(f, faults, Run(f, faults, observed, lookups), Take(id)), id, q)
  {
    hide Run, Parse, DocumentVersions, ObserveBatch, Gates, Outcomes, GateOf, Next, CheckMap, SortedKeys;
    if Parse(q.document).Err? {
      LookupsIdle(f, faults, observed, id, |DocumentVersions(q.document)|);
      TakeIdle(f, faults, observed, id);
    } else {
      var d := Parse(q.document).value;
      ParsedVersions(q.document, d);
      GatedAndTaken(f, faults, s, observed, id, q, d);
    }
  }

  lemma GatedAndTaken(f: Foreign, faults: Faults, s: State, observed: State, id: nat, q: Request, d: Document)
    requires Observed(faults, s, observed, id, q)
    requires Parse(q.document) == Ok(d) && DocumentVersions(q.document) == d.versions
    ensures var t := Next(f, faults, Run(f, faults, observed, Lookups(id, |d.versions.Keys|)), Take(id));
      var gated := Gated(f, faults, s.w, q, d);
      && OthersStay(s, t, id) && t.evaluations[id].request == q
      && t.w == ClearFailure(gated.0)
      && t.evaluations[id].phase ==
           if gated.0.failure.Some? then Finished(Err(StoreUnavailable(gated.0.failure.value)))
           else Recording(Outcomes(f, q.cfg, d, gated.1))
  {
    hide Run, Observed, Gated, Outcomes, Next, ClearFailure, DocumentVersions, Parse;
    LookupsGate(f, faults, s, observed, id, q, d);
    TakeMeans(f, faults, Run(f, faults, observed, Lookups(id, |d.versions.Keys|)), id);
  }

  lemma LookupsGate(f: Foreign, faults: Faults, s: State, observed: State, id: nat, q: Request, d: Document)
    requires Observed(faults, s, observed, id, q)
    requires Parse(q.document) == Ok(d) && DocumentVersions(q.document) == d.versions
    ensures var decided, gated := Run(f, faults, observed, Lookups(id, |d.versions.Keys|)), Gated(f, faults, s.w, q, d);
      && OthersStay(s, decided, id) && decided.w == gated.0
      && decided.evaluations[id].request == q && decided.evaluations[id].phase == Deciding(d, [], gated.1)
  {
    hide Run, Parse, DocumentVersions, ObserveBatch, Gates, GateOf, CheckMap, SortedKeys, ClearFailure;
    var keys := SortedKeys(d.versions.Keys);
    LookupsAreGates(f, faults, observed, id, d, keys, |keys|);
    assert keys[..|keys|] == keys && keys[|keys|..] == [];
  }

  lemma TakeIdle(f: Foreign, faults: Faults, s: State, id: nat)
    requires id in s.evaluations && s.evaluations[id].phase.Finished?
    ensures Next(f, faults, s, Take(id)) == s && Next(f, faults, s, RecordBlocked(id)) == s
  {
  }

  lemma TakeMeans(f: Foreign, faults: Faults, s: State, id: nat)
    requires ReadyToTake(s, id)
    ensures var t, e := Next(f, faults, s, Take(id)), s.evaluations[id];
      && OthersStay(s, t, id) && t.w == ClearFailure(s.w) && t.evaluations[id].request == e.request
      && t.evaluations[id].phase ==
           if s.w.failure.Some? then Finished(Err(StoreUnavailable(s.w.failure.value)))
           else Recording(Outcomes(f, e.request.cfg, e.phase.d, e.phase.decided))
  {
    hide Outcomes;
  }

  /**
   An evaluation nobody interrupts is a request: from any state, with any failures, its operations
   one after the other leave the world and give the answer of the request path.
   */
  lemma UninterruptedIsARequest(f: Foreign, faults: Faults, s: State, id: nat, q: Request)
    requires id !in s.evaluations
    ensures var t := Run(f, faults, s, Uninterrupted(id, q));
      && OthersStay(s, t, id)
      && t.w == Evaluated(f, faults, s.w, q).0
      && t.evaluations[id].phase == Finished(Evaluated(f, faults, s.w, q).1)
  {
    hide Run, Parse, DocumentVersions, ObserveBatch, Gated, Outcomes, Next, RecordBlocksIn;
    var taken := Run(f, faults, s, UntilTake(id, q));
    UntilTakeMeans(f, faults, s, id, q);
    RunConcat(f, faults, s, UntilTake(id, q), [RecordBlocked(id)]);
    RunOne(f, faults, taken, RecordBlocked(id));
    if taken.evaluations[id].phase.Finished? {
      TakeIdle(f, faults, taken, id);
    } else {
      RecordMeans(f, faults, taken, id);
    }
  }

  lemma RecordMeans(f: Foreign, faults: Faults, s: State, id: nat)
    requires id in s.evaluations && s.evaluations[id].phase.Recording?
    ensures var t, e := Next(f, faults, s, RecordBlocked(id)), s.evaluations[id];
      && OthersStay(s, t, id)
      && t.w == RecordBlocksIn(f, faults, s.w, e.request.package, e.phase.outcome.blocked, e.request.now).0
      && t.evaluations[id].phase == Finished(Ok(e.phase.outcome))
  {
    hide RecordBlocksIn;
  }

  /**
   With two evaluations in flight a swallowed failure can go unreported: the batch of evaluation 0
   fails, evaluation 1 clears the shared slot, and evaluation 0 then answers a document with every
   version withheld instead of a storage error.
   */
  lemma AnotherEvaluationCanClearTheFailure(f: Foreign, db: Db, q: Request, d: Document, v: string, error: string)
    requires Parse(q.document) == Ok(d) && d.versions.Keys == {v}
    ensures var faults: Faults := n => if n == 0 then Some(error) else None;
      var actions := [Begin(0, q), Clear(0), Batch(0), Begin(1, q), Clear(1), LookupNext(0), Take(0)];
      var s := Run(f, faults, Start(db), actions);
      && Noted(0, error) in s.history
      && 0 in s.evaluations && s.evaluations[0].phase.Recording?
      && DocumentVersions(s.evaluations[0].phase.outcome.packument) == map[]
  {
    var faults: Faults := n => if n == 0 then Some(error) else None;
    var s0 := Start(db);
    var s1 := Next(f, faults, s0, Begin(0, q));
    var s2 := Next(f, faults, s1, Clear(0));
    FirstEvaluationClears(f, faults, s0, q);
    hide Next, Run, Parse, DocumentVersions, ReadyToTake;
    var s3 := Next(f, faults, s2, Batch(0));
    FailedBatch(f, faults, s2, q, d, v, error);
    var s4 := Next(f, faults, s3, Begin(1, q));
    var s5 := Next(f, faults, s4, Clear(1));
    SecondEvaluationClears(f, faults, s3, q);
    var s6 := Next(f, faults, s5, LookupNext(0));
    LookupAfterFailedBatch(f, faults, s5, q, d, v);
    var s7 := Next(f, faults, s6, Take(0));
    TakeAfterReset(f, faults, s6, q, d, v);
    Unroll7(f, faults, s0, Begin(0, q), Clear(0), Batch(0), Begin(1, q), Clear(1), LookupNext(0), Take(0));
    assert s3.history[|s3.history| - 1] == Noted(0, error);
    assert s7.history[|s3.history| - 1] == Noted(0, error);
  }

  lemma FirstEvaluationClears(f: Foreign, faults: Faults, s: State, q: Request)
    requires s.evaluations == map[]
    ensures var after := Next(f, faults, Next(f, faults, s, Begin(0, q)), Clear(0));
      && after.w == ClearFailure(s.w) && after.evaluations.Keys == {0}
      && after.evaluations[0].phase.Cleared? && after.evaluations[0].request == q
  {
  }

  lemma SecondEvaluationClears(f: Foreign, faults: Faults, s: State, q: Request)
    requires 0 in s.evaluations && 1 !in s.evaluations
    ensures var after := Next(f, faults, Next(f, faults, s, Begin(1, q)), Clear(1));
      && after.w == ClearFailure(s.w) && after.history == s.history + [Reset(1)]
      && 0 in after.evaluations && after.evaluations[0] == s.evaluations[0]
  {
  }

  lemma FailedBatch(f: Foreign, faults: Faults, s: State, q: Request, d: Document, v: string, error: string)
    requires Parse(q.document) == Ok(d) && d.versions.Keys == {v}
    requires s.w.failure.None? && faults(s.w.clock) == Some(error)
    requires 0 in s.evaluations && s.evaluations[0].phase.Cleared? && s.evaluations[0].request == q
    ensures var after := Next(f, faults, s, Batch(0));
      && after.history == s.history + [Noted(0, error)]
      && var trace := Trace(false, map[v := Changed(None)], {});
         after.evaluations == s.evaluations[0 := Evaluation(q, Deciding(d, [v], map[]), trace)]
  {
    hide ObserveAll, CheckAll;
    ParsedVersions(q.document, d);
    hide Parse, DocumentVersions;
    var keys := SortedKeys({v});
    assert keys == [v] by {
      assert keys[0] in keys;
    }
    var obs := AllObservations(d.versions);
    var found := ObserveBatch(faults, s.w, q.package, obs, q.now, !q.cached).1;
    assert found == [Changed(None)];
    assert keys[..0] == [];
  }

  lemma LookupAfterFailedBatch(f: Foreign, faults: Faults, s: State, q: Request, d: Document, v: string)
    requires 0 in s.evaluations
    requires s.evaluations[0] == Evaluation(q, Deciding(d, [v], map[]), Trace(false, map[v := Changed(None)], {}))
    requires d.versions.Keys == {v}
    ensures var after := Next(f, faults, s, LookupNext(0));
      && after.w == s.w && after.history == s.history
      && ReadyToTake(after, 0)
      && after.evaluations[0].request == q && after.evaluations[0].phase.d == d
      && after.evaluations[0].phase.decided[v].Block?
  {
    hide GateOf;
    EngineFailsClosed(f, q.cfg, q.now, d);
  }

  lemma TakeAfterReset(f: Foreign, faults: Faults, s: State, q: Request, d: Document, v: string)
    requires Parse(q.document) == Ok(d) && d.versions.Keys == {v}
    requires s.w.failure.None? && ReadyToTake(s, 0)
    requires s.evaluations[0].request == q && s.evaluations[0].phase.d == d
    requires s.evaluations[0].phase.decided[v].Block?
    ensures var after := Next(f, faults, s, Take(0));
      && after.history == s.history + [Reset(0)]
      && after.evaluations[0].phase.Recording?
      && DocumentVersions(after.evaluations[0].phase.outcome.packument) == map[]
  {
    hide Outcomes, Parse;
    ParsedVersions(q.document, d);
    var decided := s.evaluations[0].phase.decided;
    OutcomeParts(f, q.cfg, d, decided);
    var packument := Outcomes(f, q.cfg, d, decided).packument;
    ParsedVersions(packument, Parse(packument).value);
    assert Surviving(decided) == {};
  }

  lemma Unroll7(f: Foreign, faults: Faults, s: State, a: Action, b: Action, c: Action, d: Action, e: Action,
                g: Action, h: Action)
    ensures Run(f, faults, s, [a, b, c, d, e, g, h]) ==
              Next(f, faults, Next(f, faults, Next(f, faults, Next(f, faults, Next(f, faults, Next(f, faults,
                Next(f, faults, s, a), b), c), d), e), g), h)
  {
    hide Next;
    var actions := [a, b, c, d, e, g, h];
    assert actions[..1] == [a] && [a][..0] == [];
    assert actions[..2][..1] == actions[..1] && actions[..3][..2] == actions[..2] && actions[..4][..3] == actions[..3];
    assert actions[..5][..4] == actions[..4] && actions[..6][..5] == actions[..5];
    assert Run(f, faults, s, actions[..1]) == Next(f, faults, s, a);
    assert Run(f, faults, s, actions[..2]) == Next(f, faults, Run(f, faults, s, actions[..1]), b);
    assert Run(f, faults, s, actions[..3]) == Next(f, faults, Run(f, faults, s, actions[..2]), c);
    assert Run(f, faults, s, actions[..4]) == Next(f, faults, Run(f, faults, s, actions[..3]), d);
    assert Run(f, faults, s, actions[..5]) == Next(f, faults, Run(f, faults, s, actions[..4]), e);
    assert Run(f, faults, s, actions[..6]) == Next(f, faults, Run(f, faults, s, actions[..5]), g);
  }
}
