/**
 The control socket's accept loop: eight permits, a deadline on the request frame, one on the
 whole connection, and refusal, never queueing, above the ceiling.

 Time is in nanoseconds. A timer may fire and a spawned task may first run up to `lag` late; with
 `lag` 0 the scheduler is ideal.
 */
module ControlServer {
  import opened Basics

  const SECOND: nat := 1_000_000_000
  const MAX_CONCURRENT_CONNECTIONS: nat := 8
  const REQUEST_TIMEOUT: nat := 5 * SECOND
  const CONNECTION_TIMEOUT: nat := 300 * SECOND
  const REFUSAL_TIMEOUT: nat := SECOND

  datatype Phase = Reading | Working | Answering

  /** A spawned task. Timers start when it first runs. */
  datatype Task =
    | Queued(spawned: nat)
    | Serving(spawned: nat, started: nat, phase: Phase)
    | RefusalQueued(spawned: nat)
    | Refusing(spawned: nat, started: nat)

  predicate HoldsPermit(t: Task) {
    t.Queued? || t.Serving?
  }

  /** When the innermost running timer fires; a task that has not run yet is due at once. */
  function Deadline(t: Task): nat {
    match t
    case Queued(spawned) => spawned
    case Serving(_, started, phase) => started + if phase.Reading? then REQUEST_TIMEOUT else CONNECTION_TIMEOUT
    case RefusalQueued(spawned) => spawned
    case Refusing(_, started) => started + REFUSAL_TIMEOUT
  }

  datatype State = State(now: nat, free: nat, next: nat, tasks: map<nat, Task>)

  const START: State := State(0, MAX_CONCURRENT_CONNECTIONS, 0, map[])

  datatype Event =
    | Accept
    | Elapse(time: nat)
    | FirstRun(id: nat, credentials: bool)
    | FrameRead(id: nat, valid: bool)
    | FrameRefused(id: nat)
    | FrameTimedOut(id: nat)
    | Dispatched(id: nat)
    | Written(id: nat)
    | WriteFailed(id: nat)
    | ConnectionTimedOut(id: nat)
    | RefusalTimedOut(id: nat)

  /** What the event makes of its task: it goes on, it ends, or the event cannot happen to it. */
  datatype Outcome = GoesOn(task: Task) | Ends | Impossible

  function Outcomes(now: nat, t: Task, e: Event): Outcome
    requires !e.Accept? && !e.Elapse?
  {
    match e
    case FirstRun(_, credentials) =>
      if t.Queued? then GoesOn(Serving(t.spawned, now, if credentials then Reading else Answering))
      else if t.RefusalQueued? then GoesOn(Refusing(t.spawned, now))
      else Impossible
    case FrameRead(_, valid) =>
      if t.Serving? && t.phase.Reading? then GoesOn(t.(phase := if valid then Working else Answering)) else Impossible
    case FrameRefused(_) =>
      if t.Serving? && t.phase.Reading? then GoesOn(t.(phase := Answering)) else Impossible
    case FrameTimedOut(_) =>
      if t.Serving? && t.phase.Reading? && now >= t.started + REQUEST_TIMEOUT then GoesOn(t.(phase := Answering))
      else Impossible
    case Dispatched(_) =>
      if t.Serving? && t.phase.Working? then GoesOn(t.(phase := Answering)) else Impossible
    case Written(_) =>
      if t.Refusing? || (t.Serving? && t.phase.Answering?) then Ends else Impossible
    case WriteFailed(_) =>
      if t.Refusing? || (t.Serving? && t.phase.Answering?) then Ends else Impossible
    case ConnectionTimedOut(_) =>
      if t.Serving? && now >= t.started + CONNECTION_TIMEOUT then Ends else Impossible
    case RefusalTimedOut(_) =>
      if t.Refusing? && now >= t.started + REFUSAL_TIMEOUT then Ends else Impossible
  }

  /** No task is due before this time, give or take the lag. */
  /**
   A timer can fire from its deadline on and not a moment earlier: the request timer while a frame is
   awaited, the connection timer in every phase, the refusal timer while refusing. And a peer that
   fails to take the answer ends its connection like one that takes it.
   */
  lemma TimersFireOnTime(now: nat, t: Task, id: nat)
    ensures Outcomes(now, t, FrameTimedOut(id)) != Impossible <==>
              t.Serving? && t.phase.Reading? && Deadline(t) <= now
    ensures Outcomes(now, t, ConnectionTimedOut(id)) == Ends <==>
              t.Serving? && t.started + CONNECTION_TIMEOUT <= now
    ensures Outcomes(now, t, RefusalTimedOut(id)) == Ends <==> t.Refusing? && Deadline(t) <= now
    ensures Outcomes(now, t, WriteFailed(id)) == Outcomes(now, t, Written(id))
    ensures Outcomes(now, t, Written(id)) == Ends <==> t.Refusing? || (t.Serving? && t.phase.Answering?)
  {
  }

  predicate MayElapse(s: State, until: nat, lag: nat) {
    forall id :: id in s.tasks ==> until <= Deadline(s.tasks[id]) + lag
  }

  function Step(s: State, e: Event, lag: nat): Option<State> {
    match e
    case Accept =>
      if s.free > 0 then Some(State(s.now, s.free - 1, s.next + 1, s.tasks[s.next := Queued(s.now)]))
      else Some(State(s.now, s.free, s.next + 1, s.tasks[s.next := RefusalQueued(s.now)]))
    case Elapse(time) =>
      if MayElapse(s, s.now + time, lag) then Some(s.(now := s.now + time)) else None
    case _ =>
      if e.id !in s.tasks then None
      else
        match Outcomes(s.now, s.tasks[e.id], e)
        case GoesOn(task) => Some(s.(tasks := s.tasks[e.id := task]))
        case Ends =>
          Some(s.(tasks := s.tasks - {e.id}, free := s.free + if HoldsPermit(s.tasks[e.id]) then 1 else 0))
        case Impossible => None
  }

  function Run(s: State, events: seq<Event>, lag: nat): Option<State>
    decreases |events|
  {
    if events == [] then Some(s)
    else
      var next := Step(s, events[0], lag);
      if next.None? then None else Run(next.value, events[1..], lag)
  }

  // -- the loop over a schedule ------------------------------------------------------------------

  class Server {
    const lag: nat
    var now: nat
    var free: nat
    var next: nat
    var tasks: map<nat, Task>

    function Current(): State
      reads this
    {
      State(now, free, next, tasks)
    }

    constructor (lag: nat)
      ensures Current() == START && this.lag == lag
    {
      this.lag := lag;
      now, free, next, tasks := 0, MAX_CONCURRENT_CONNECTIONS, 0, map[];
    }

    /** The semaphore's `try_acquire_owned`. */
    method TryAcquire() returns (ok: bool)
      modifies this`free
      ensures ok == (old(free) > 0)
      ensures free == if ok then old(free) - 1 else old(free)
    {
      ok := free > 0;
      if ok {
        free := free - 1;
      }
    }

    /** One turn of the accept loop: a permit and a serving task, or a refusing task. */
    method AcceptOne()
      modifies this
      ensures Some(Current()) == Step(old(Current()), Accept, lag)
    {
      var permit := TryAcquire();
      tasks := tasks[next := if permit then Queued(now) else RefusalQueued(now)];
      next := next + 1;
    }

    /** A task reacts; when it ends, the permit it owns is dropped with it. */
    method Wake(e: Event) returns (possible: bool)
      requires !e.Accept? && !e.Elapse?
      modifies this
      ensures Step(old(Current()), e, lag) == if possible then Some(Current()) else None
      ensures !possible ==> Current() == old(Current())
    {
      if e.id !in tasks {
        return false;
      }
      var task := tasks[e.id];
      match Outcomes(now, task, e)
      case GoesOn(next) =>
        tasks := tasks[e.id := next];
        return true;
      case Ends =>
        tasks := tasks - {e.id};
        if HoldsPermit(task) {
          free := free + 1;
        }
        return true;
      case Impossible =>
        return false;
    }

    /** The server through a schedule, up to its first impossible event. */
    method Serve(events: seq<Event>) returns (whole: bool)
      modifies this
      ensures Run(old(Current()), events, lag) == if whole then Some(Current()) else None
    {
      ghost var first := Current();
      assert events[0..] == events;
      for i := 0 to |events|
        invariant Run(Current(), events[i..], lag) == Run(first, events, lag)
      {
        assert events[i..][1..] == events[i + 1..];
        var e := events[i];
        if e.Accept? {
          AcceptOne();
        } else if e.Elapse? {
          if !MayElapse(State(now, free, next, tasks), now + e.time, lag) {
            return false;
          }
          now := now + e.time;
        } else {
          var possible := Wake(e);
          if !possible {
            return false;
          }
        }
      }
      return true;
    }
  }

  // -- what every reachable state keeps ------------------------------------------------------------

  ghost function Holders(s: State): set<nat> {
    set id | id in s.tasks && HoldsPermit(s.tasks[id])
  }

  /** Times of one task: run soon after it was spawned, and not past its deadline. */
  predicate OnTime(now: nat, t: Task, lag: nat) {
    && t.spawned <= now <= Deadline(t) + lag
    && (t.Serving? || t.Refusing? ==> t.spawned <= t.started <= now && t.started <= t.spawned + lag)
  }

  ghost predicate Sound(s: State, lag: nat) {
    && s.free + |Holders(s)| == MAX_CONCURRENT_CONNECTIONS
    && forall id :: id in s.tasks ==> id < s.next && OnTime(s.now, s.tasks[id], lag)
  }

  lemma StepKeepsPermits(s: State, e: Event, lag: nat)
    requires Sound(s, lag) && Step(s, e, lag).Some?
    ensures var t := Step(s, e, lag).value; t.free + |Holders(t)| == MAX_CONCURRENT_CONNECTIONS
  {
    var t := Step(s, e, lag).value;
    if e.Accept? {
      assert Holders(t) == if s.free > 0 then Holders(s) + {s.next} else Holders(s);
    } else if e.Elapse? {
      assert Holders(t) == Holders(s);
    } else {
      TaskStepKeepsPermits(s, e, lag);
    }
  }

  lemma TaskStepKeepsPermits(s: State, e: Event, lag: nat)
    requires Sound(s, lag) && Step(s, e, lag).Some? && !e.Accept? && !e.Elapse?
    ensures var t := Step(s, e, lag).value; t.free + |Holders(t)| == MAX_CONCURRENT_CONNECTIONS
  {
    var t := Step(s, e, lag).value;
    var outcome := Outcomes(s.now, s.tasks[e.id], e);
    if outcome.GoesOn? {
      assert HoldsPermit(outcome.task) <==> HoldsPermit(s.tasks[e.id]);
      assert t.tasks == s.tasks[e.id := outcome.task];
      hide OnTime, Outcomes, HoldsPermit, Step;
      assert Holders(t) == Holders(s);
    } else {
      assert t.tasks == s.tasks - {e.id};
      hide OnTime, Outcomes, HoldsPermit;
      assert Holders(t) == Holders(s) - {e.id};
    }
  }

  lemma StepKeepsTimes(s: State, e: Event, lag: nat)
    requires Sound(s, lag) && Step(s, e, lag).Some?
    ensures var t := Step(s, e, lag).value;
      forall id :: id in t.tasks ==> id < t.next && OnTime(t.now, t.tasks[id], lag)
  {
    hide Holders;
  }

  lemma StepKeepsSound(s: State, e: Event, lag: nat)
    requires Sound(s, lag) && Step(s, e, lag).Some?
    ensures Sound(Step(s, e, lag).value, lag)
  {
    StepKeepsPermits(s, e, lag);
    StepKeepsTimes(s, e, lag);
    hide Step, Holders, OnTime;
  }

  lemma {:induction false} RunKeepsSound(s: State, events: seq<Event>, lag: nat)
    requires Sound(s, lag) && Run(s, events, lag).Some?
    ensures Sound(Run(s, events, lag).value, lag)
    decreases |events|
  {
    if events != [] {
      hide Sound, Step;
      StepKeepsSound(s, events[0], lag);
      RunKeepsSound(Step(s, events[0], lag).value, events[1..], lag);
    }
  }

  lemma StartIsSound(lag: nat)
    ensures Sound(START, lag)
  {
    assert Holders(START) == {};
  }

  /** In every reachable state the free permits and the served connections make up the eight. */
  lemma PermitsConserved(events: seq<Event>, lag: nat)
    requires Run(START, events, lag).Some?
    ensures var s := Run(START, events, lag).value;
      s.free + |Holders(s)| == MAX_CONCURRENT_CONNECTIONS
  {
    StartIsSound(lag);
    RunKeepsSound(START, events, lag);
  }

  /** An accepted connection gets a permit at once, or is refused at once, exactly when eight are being served. */
  lemma AcceptedOrRefused(events: seq<Event>, lag: nat)
    requires Run(START, events, lag).Some?
    ensures var s := Run(START, events, lag).value; var t := Step(s, Accept, lag);
      && t.Some? && s.next !in s.tasks && s.next in t.value.tasks
      && (HoldsPermit(t.value.tasks[s.next]) <==> |Holders(s)| < MAX_CONCURRENT_CONNECTIONS)
      && (!HoldsPermit(t.value.tasks[s.next]) ==> Holders(t.value) == Holders(s))
  {
    StartIsSound(lag);
    RunKeepsSound(START, events, lag);
  }

  /** How long connections last, in every reachable state. */
  lemma NobodyOutlivesItsTimeout(events: seq<Event>, lag: nat, id: nat)
    requires Run(START, events, lag).Some? && id in Run(START, events, lag).value.tasks
    ensures var s := Run(START, events, lag).value; var t := s.tasks[id];
      && (t.Serving? && t.phase.Reading? ==> s.now - t.started <= REQUEST_TIMEOUT + lag)
      && (t.Serving? ==> s.now - t.started <= CONNECTION_TIMEOUT + lag)
      && (HoldsPermit(t) ==> s.now - t.spawned <= CONNECTION_TIMEOUT + 2 * lag)
      && (!HoldsPermit(t) ==> s.now - t.spawned <= REFUSAL_TIMEOUT + 2 * lag)
  {
    StartIsSound(lag);
    RunKeepsSound(START, events, lag);
  }

  // -- over a stretch of a run ---------------------------------------------------------------------

  /** A task that is still there was spawned then, and holds a permit now if it did then. */
  ghost predicate SameTasks(s: State, t: State) {
    && s.now <= t.now && s.next <= t.next
    && forall id :: id in s.tasks && id in t.tasks ==>
         t.tasks[id].spawned == s.tasks[id].spawned && (HoldsPermit(t.tasks[id]) <==> HoldsPermit(s.tasks[id]))
  }

  ghost predicate Gone(s: State, id: nat) {
    id < s.next && id !in s.tasks
  }

  lemma StepKeepsTasks(s: State, e: Event, lag: nat)
    requires Sound(s, lag) && Step(s, e, lag).Some?
    ensures SameTasks(s, Step(s, e, lag).value)
    ensures forall id :: Gone(s, id) ==> Gone(Step(s, e, lag).value, id)
  {
    hide Holders, OnTime;
  }

  lemma {:induction false} RunKeepsTasks(s: State, events: seq<Event>, lag: nat)
    requires Sound(s, lag) && Run(s, events, lag).Some?
    ensures SameTasks(s, Run(s, events, lag).value)
    ensures forall id :: Gone(s, id) ==> Gone(Run(s, events, lag).value, id)
    decreases |events|
  {
    if events != [] {
      var t := Step(s, events[0], lag).value;
      StepKeepsTasks(s, events[0], lag);
      StepKeepsSound(s, events[0], lag);
      hide Step, Sound, HoldsPermit;
      RunKeepsTasks(t, events[1..], lag);
      var u := Run(t, events[1..], lag).value;
      forall id | id in s.tasks && id in u.tasks
        ensures id in t.tasks
      {
        assert id !in t.tasks ==> Gone(t, id);
      }
    }
  }

  /** Whoever holds a slot now has given it up when the connection timeout has passed, whatever happens. */
  lemma EverySlotIsGivenUp(events: seq<Event>, later: seq<Event>, lag: nat, id: nat)
    requires Run(START, events, lag).Some?
    requires var s := Run(START, events, lag).value;
      && Run(s, later, lag).Some? && id in Holders(s)
      && Run(s, later, lag).value.now > s.now + CONNECTION_TIMEOUT + 2 * lag
    ensures id !in Run(Run(START, events, lag).value, later, lag).value.tasks
  {
    StartIsSound(lag);
    RunKeepsSound(START, events, lag);
    var s := Run(START, events, lag).value;
    RunKeepsSound(s, later, lag);
    RunKeepsTasks(s, later, lag);
  }

  /** The events that end a task: its answer is written or cannot be written, or its deadline expires. */
  ghost predicate EndsTask(e: Event, id: nat) {
    e in {Written(id), WriteFailed(id), ConnectionTimedOut(id), RefusalTimedOut(id)}
  }

  /**
   Nobody is cut short: only an answer, written or failed to be, or an expired deadline ends a task
   or gives up on its frame.
   */
  lemma NobodyIsCutShort(events: seq<Event>, e: Event, lag: nat, id: nat)
    requires Run(START, events, lag).Some? && id in Run(START, events, lag).value.tasks
    requires Step(Run(START, events, lag).value, e, lag).Some?
    ensures var s := Run(START, events, lag).value; var t := s.tasks[id];
      var after := Step(s, e, lag).value;
      && (id !in after.tasks <==> EndsTask(e, id))
      && (e in {Written(id), WriteFailed(id)} ==> t.Refusing? || (t.Serving? && t.phase.Answering?))
      && (e == ConnectionTimedOut(id) ==> HoldsPermit(t) && s.now - t.spawned >= CONNECTION_TIMEOUT)
      && (e == RefusalTimedOut(id) ==> !HoldsPermit(t) && s.now - t.spawned >= REFUSAL_TIMEOUT)
      && (e == FrameTimedOut(id) ==> HoldsPermit(t) && s.now - t.spawned >= REQUEST_TIMEOUT)
  {
    StartIsSound(lag);
    RunKeepsSound(START, events, lag);
    hide Holders;
  }

  function Dispatches(events: seq<Event>, id: nat): nat
    decreases |events|
  {
    if events == [] then 0 else (if events[0] == Dispatched(id) then 1 else 0) + Dispatches(events[1..], id)
  }

  /** How many requests of a connection can still be carried out. */
  function RequestsLeft(s: State, id: nat): nat {
    if id in s.tasks then
      if s.tasks[id].Queued? || (s.tasks[id].Serving? && !s.tasks[id].phase.Answering?) then 1 else 0
    else if id < s.next then 0
    else 1
  }

  lemma StepUsesUpRequests(s: State, e: Event, lag: nat, id: nat)
    requires Sound(s, lag) && Step(s, e, lag).Some?
    ensures RequestsLeft(Step(s, e, lag).value, id) + (if e == Dispatched(id) then 1 else 0) <= RequestsLeft(s, id)
  {
    hide Holders, OnTime;
  }

  lemma {:induction false} RunUsesUpRequests(s: State, events: seq<Event>, lag: nat, id: nat)
    requires Sound(s, lag) && Run(s, events, lag).Some?
    ensures Dispatches(events, id) + RequestsLeft(Run(s, events, lag).value, id) <= RequestsLeft(s, id)
    decreases |events|
  {
    if events != [] {
      hide Step, Sound, RequestsLeft;
      StepUsesUpRequests(s, events[0], lag, id);
      StepKeepsSound(s, events[0], lag);
      RunUsesUpRequests(Step(s, events[0], lag).value, events[1..], lag, id);
    }
  }

  /** However the schedule goes, one connection has at most one request carried out. */
  lemma OneRequestEach(events: seq<Event>, lag: nat, id: nat)
    requires Run(START, events, lag).Some?
    ensures Dispatches(events, id) <= 1
  {
    StartIsSound(lag);
    RunUsesUpRequests(START, events, lag, id);
  }

  // -- which requests are carried out -------------------------------------------------------------------

  /** What has to have happened for a task to be where it is. */
  ghost predicate Earned(s: State, events: seq<Event>, id: nat) {
    && (id in s.tasks && s.tasks[id].Serving? && !s.tasks[id].phase.Answering? ==> FirstRun(id, true) in events)
    && (id in s.tasks && s.tasks[id].Serving? && s.tasks[id].phase.Working? ==>
          FrameRead(id, true) in events && FrameRead(id, false) !in events)
    && (id in s.tasks && (!s.tasks[id].Serving? || s.tasks[id].phase.Reading?) ==> FrameRead(id, false) !in events)
    && (Dispatched(id) in events ==> FirstRun(id, true) in events && FrameRead(id, true) in events)
    && (Dispatched(id) in events ==> FrameRead(id, false) !in events)
    && (id !in s.tasks && id >= s.next ==> FrameRead(id, false) !in events)
    && (Dispatched(id) in events && id in s.tasks ==> s.tasks[id].Serving? && s.tasks[id].phase.Answering?)
    && (Dispatched(id) in events ==> id < s.next)
  }

  lemma StepEarns(s: State, e: Event, lag: nat, events: seq<Event>, id: nat)
    requires Sound(s, lag) && Step(s, e, lag).Some? && Earned(s, events, id)
    ensures Earned(Step(s, e, lag).value, events + [e], id)
  {
    assert forall x :: x in events + [e] <==> x in events || x == e;
    hide Holders, OnTime;
  }

  lemma {:induction false} RunEarns(s: State, past: seq<Event>, events: seq<Event>, lag: nat, id: nat)
    requires Sound(s, lag) && Run(s, events, lag).Some? && Earned(s, past, id)
    ensures Earned(Run(s, events, lag).value, past + events, id)
    decreases |events|
  {
    if events != [] {
      StepEarns(s, events[0], lag, past, id);
      StepKeepsSound(s, events[0], lag);
      hide Step, Sound, Earned;
      RunEarns(Step(s, events[0], lag).value, past + [events[0]], events[1..], lag, id);
      assert past + [events[0]] + events[1..] == past + events;
    } else {
      assert past + events == past;
    }
  }

  /**
   In every run a request is carried out only for a connection with readable peer credentials that
   sent one valid frame, never for one whose frame was invalid.
   */
  lemma OnlyValidRequestsAreCarriedOut(events: seq<Event>, lag: nat, id: nat)
    requires Run(START, events, lag).Some? && Dispatched(id) in events
    ensures FirstRun(id, true) in events && FrameRead(id, true) in events && FrameRead(id, false) !in events
  {
    StartIsSound(lag);
    assert Earned(START, [], id);
    RunEarns(START, [], events, lag, id);
    assert [] + events == events;
  }

  /** And a connection that waits for its request has a valid one carried out next, and answered. */
  lemma ValidRequestIsCarriedOut(s: State, lag: nat, id: nat)
    requires id in s.tasks && s.tasks[id].Serving? && s.tasks[id].phase.Reading?
    ensures var t := s.tasks[id];
      && Step(s, FrameRead(id, true), lag) == Some(s.(tasks := s.tasks[id := t.(phase := Working)]))
      && Step(s.(tasks := s.tasks[id := t.(phase := Working)]), Dispatched(id), lag) ==
           Some(s.(tasks := s.tasks[id := t.(phase := Answering)]))
      && Step(s, FrameRead(id, false), lag) == Some(s.(tasks := s.tasks[id := t.(phase := Answering)]))
      && Step(s, Dispatched(id), lag) == None
  {
    var t := s.tasks[id];
    assert s.tasks[id := t.(phase := Working)][id := t.(phase := Answering)] == s.tasks[id := t.(phase := Answering)];
  }

  // -- peers that never speak --------------------------------------------------------------------------

  ghost predicate Silent(events: seq<Event>, id: nat) {
    forall e :: e in events ==> !(e.FrameRead? && e.id == id) && e != FrameRefused(id)
  }

  ghost predicate NeverEnds(events: seq<Event>, id: nat) {
    forall e :: e in events ==> !EndsTask(e, id)
  }

  /** A served connection that has sent nothing: not yet run, reading, or being told so. */
  predicate Unheard(t: Task) {
    t.Queued? || (t.Serving? && !t.phase.Working?)
  }

  lemma StepKeepsUnheard(s: State, e: Event, lag: nat, id: nat)
    requires Sound(s, lag) && Step(s, e, lag).Some? && Silent([e], id)
    requires id in s.tasks && Unheard(s.tasks[id])
    ensures var t := Step(s, e, lag).value;
      && (id in t.tasks <==> !EndsTask(e, id))
      && (id in t.tasks ==> Unheard(t.tasks[id]) && t.tasks[id].spawned == s.tasks[id].spawned)
  {
    assert e in [e];
    hide Holders, OnTime;
  }

  lemma {:induction false} RunKeepsUnheard(s: State, events: seq<Event>, lag: nat, id: nat)
    requires Sound(s, lag) && Run(s, events, lag).Some? && Silent(events, id)
    requires id in s.tasks && Unheard(s.tasks[id])
    ensures var t := Run(s, events, lag).value;
      && (id in t.tasks <==> NeverEnds(events, id))
      && (id in t.tasks ==> Unheard(t.tasks[id]) && t.tasks[id].spawned == s.tasks[id].spawned)
    decreases |events|
  {
    if events != [] {
      var e, rest := events[0], events[1..];
      var t := Step(s, e, lag).value;
      assert events == [e] + rest;
      StepKeepsSound(s, e, lag);
      StepKeepsUnheard(s, e, lag, id);
      hide Step, Sound, Unheard, EndsTask;
      if id in t.tasks {
        RunKeepsUnheard(t, rest, lag, id);
      } else {
        StaysGone(s, e, rest, lag, id);
      }
      assert NeverEnds(events, id) <==> !EndsTask(e, id) && NeverEnds(rest, id);
    }
  }

  lemma StaysGone(s: State, e: Event, rest: seq<Event>, lag: nat, id: nat)
    requires Sound(s, lag) && Step(s, e, lag).Some? && id in s.tasks && id !in Step(s, e, lag).value.tasks
    requires Run(Step(s, e, lag).value, rest, lag).Some?
    ensures id !in Run(Step(s, e, lag).value, rest, lag).value.tasks
  {
    var t := Step(s, e, lag).value;
    StepKeepsSound(s, e, lag);
    StepKeepsTasks(s, e, lag);
    assert Gone(t, id);
    RunKeepsTasks(t, rest, lag);
  }

  /**
   Exactly when a peer that never speaks keeps its slot. In every run, once the frame deadline has
   passed the connection is past reading: it still holds its slot if and only if its answer has
   neither been written nor failed to be and the connection timeout has not fired, and then it is
   only being answered.
   */
  lemma SilentPeerKeepsItsSlotExactlyWhen(events: seq<Event>, later: seq<Event>, lag: nat, id: nat)
    requires Run(START, events, lag).Some?
    requires var s := Run(START, events, lag).value;
      && id in s.tasks && (s.tasks[id].Queued? || (s.tasks[id].Serving? && s.tasks[id].phase.Reading?))
      && Silent(later, id) && Run(s, later, lag).Some?
      && Run(s, later, lag).value.now > s.tasks[id].spawned + REQUEST_TIMEOUT + 2 * lag
    ensures var t := Run(Run(START, events, lag).value, later, lag).value;
      && (id in t.tasks <==> Written(id) !in later && WriteFailed(id) !in later && ConnectionTimedOut(id) !in later)
      && (id in t.tasks ==> HoldsPermit(t.tasks[id]) && t.tasks[id].Serving? && t.tasks[id].phase.Answering?)
  {
    StartIsSound(lag);
    RunKeepsSound(START, events, lag);
    var s := Run(START, events, lag).value;
    RunKeepsSound(s, later, lag);
    RunKeepsUnheard(s, later, lag, id);
    NoRefusal(s, later, lag, id);
    hide Run, Holders;
    assert NeverEnds(later, id) <==>
        Written(id) !in later && WriteFailed(id) !in later && ConnectionTimedOut(id) !in later;
  }

  /** A connection with a permit is never ended as a refusal. */
  lemma {:induction false} NoRefusal(s: State, events: seq<Event>, lag: nat, id: nat)
    requires Sound(s, lag) && Run(s, events, lag).Some?
    requires Gone(s, id) || (id in s.tasks && HoldsPermit(s.tasks[id]))
    ensures RefusalTimedOut(id) !in events
    decreases |events|
  {
    if events != [] {
      StepKeepsSound(s, events[0], lag);
      StepKeepsTasks(s, events[0], lag);
      var t := Step(s, events[0], lag).value;
      assert Gone(t, id) || (id in t.tasks && HoldsPermit(t.tasks[id])) by {
        hide Holders, OnTime;
      }
      assert events[0] != RefusalTimedOut(id);
      hide Step, Sound, Gone;
      NoRefusal(t, events[1..], lag, id);
    }
  }

  /**
   Such a run: a peer that never speaks, and on whose connection the write of the short timeout answer
   stalls, keeps its slot until the connection timeout.
   */
  lemma SilentPeerCanKeepItsSlot()
    ensures var events := [Accept, FirstRun(0, true), Elapse(REQUEST_TIMEOUT), FrameTimedOut(0),
                           Elapse(CONNECTION_TIMEOUT - REQUEST_TIMEOUT)];
      && Run(START, events, 0).Some?
      && Run(START, events, 0).value.now == CONNECTION_TIMEOUT
      && Holders(Run(START, events, 0).value) == {0}
  {
    var a := Step(START, Accept, 0).value;
    var b := Step(a, FirstRun(0, true), 0).value;
    var c := Step(b, Elapse(REQUEST_TIMEOUT), 0).value;
    var d := Step(c, FrameTimedOut(0), 0).value;
    var e := Step(d, Elapse(CONNECTION_TIMEOUT - REQUEST_TIMEOUT), 0).value;
    var events := [Accept, FirstRun(0, true), Elapse(REQUEST_TIMEOUT), FrameTimedOut(0),
                   Elapse(CONNECTION_TIMEOUT - REQUEST_TIMEOUT)];
    assert events[1..][1..][1..][1..][1..] == [];
    assert Run(e, [], 0) == Some(e);
    assert Run(d, events[1..][1..][1..][1..], 0) == Some(e);
    assert Run(c, events[1..][1..][1..], 0) == Some(e);
    assert Run(b, events[1..][1..], 0) == Some(e);
    assert Run(a, events[1..], 0) == Some(e);
  }

  /** With the answer taken at once, a peer that never speaks costs a slot for the frame deadline only. */
  lemma SilentPeerIsDropped(events: seq<Event>, lag: nat, id: nat)
    requires Run(START, events, lag).Some?
    requires var s := Run(START, events, lag).value; id in s.tasks && HoldsPermit(s.tasks[id])
    requires var t := Run(START, events, lag).value.tasks[id]; t.Serving? ==> t.phase.Reading?
    ensures var s := Run(START, events, lag).value;
      && s.now - s.tasks[id].spawned <= REQUEST_TIMEOUT + 2 * lag
      && (s.now > s.tasks[id].spawned + REQUEST_TIMEOUT + lag ==>
            Run(s, [FrameTimedOut(id), Written(id)], lag) == Some(s.(free := s.free + 1, tasks := s.tasks - {id})))
  {
    StartIsSound(lag);
    RunKeepsSound(START, events, lag);
    var s := Run(START, events, lag).value;
    if s.now > s.tasks[id].spawned + REQUEST_TIMEOUT + lag {
      var t := Step(s, FrameTimedOut(id), lag).value;
      var u := Step(t, Written(id), lag).value;
      assert [FrameTimedOut(id), Written(id)][1..] == [Written(id)] && [Written(id)][1..] == [];
      assert u.tasks == s.tasks - {id};
      assert Run(t, [Written(id)], lag) == Some(u);
    }
  }
}
