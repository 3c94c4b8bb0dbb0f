/**
 * The single-slot processing gate of the API server
 * (apps/api/src/controllers/image-processing-queue.ts).
 *
 * `ProcessingQueue` keeps a `processing` flag and the duration of the last
 * finished job. `enqueue` answers 429 with that duration while a job runs;
 * otherwise it raises the flag, reads the clock and hands the job a
 * completion callback, which records `now - start` and lowers the flag.
 * The clock is a parameter: `Enqueue(now)` and `Complete(start, now, ...)`
 * receive the `Date.now()` readings the source takes.
 */
module ImageProcessingQueue {
  import opened Wrappers

  const BusyStatus: int := 429
  const BusyMessage: string := "El servicio está ocupado. Por favor, espere a que termine el procesamiento actual."

  /** The JSON body of the 429 answer. */
  datatype BusyBody = BusyBody(status: int, message: string, lastProcessingTime: Option<int>)

  /** What `enqueue` did with one request. */
  datatype EnqueueResult =
    | Admitted(start: int)   // the job was started and given its callback; `start` is the clock reading
    | Rejected(body: BusyBody)

  /** The two fields of the queue, as a value. */
  datatype GateState = GateState(processing: bool, lastProcessingTime: Option<int>)

  /** Both fields as the class initialises them. */
  const Initial: GateState := GateState(false, None)

  /** `enqueue` on the fields `s` with the clock reading `now`: the new fields and the answer. */
  function TryEnqueue(s: GateState, now: int): (r: (GateState, EnqueueResult))
    ensures r.0.processing && r.0.lastProcessingTime == s.lastProcessingTime
    ensures r.1.Admitted? <==> !s.processing
    ensures r.1.Admitted? ==> r.1.start == now
    ensures r.1.Rejected? ==> r.0 == s && r.1.body == BusyBody(429, BusyMessage, s.lastProcessingTime)
  {
    if s.processing then (s, Rejected(BusyBody(BusyStatus, BusyMessage, s.lastProcessingTime)))
    else (s.(processing := true), Admitted(now))
  }

  /**
   * The completion callback of the job admitted at `start`, called when the
   * clock reads `now`: it frees the gate and records the elapsed time
   * whatever state it finds, without checking that its job holds the gate.
   */
  function AfterCompletion(s: GateState, start: int, now: int): (g: GateState)
    ensures !g.processing && g.lastProcessingTime == Some(now - start)
  {
    GateState(false, Some(now - start))
  }

  /** A busy gate rejects, reports its last duration and keeps both fields. */
  lemma BusyRejects(s: GateState, now: int)
    requires s.processing
    ensures TryEnqueue(s, now).0 == s
    ensures TryEnqueue(s, now).1 == Rejected(BusyBody(429, BusyMessage, s.lastProcessingTime))
  {
  }

  /** An idle gate admits, raises the flag before the job runs and keeps the last duration. */
  lemma IdleAdmits(s: GateState, now: int)
    requires !s.processing
    ensures TryEnqueue(s, now).1 == Admitted(now)
    ensures TryEnqueue(s, now).0.processing
    ensures TryEnqueue(s, now).0.lastProcessingTime == s.lastProcessingTime
  {
  }

  /** After a completion the gate is free, whatever it was before, and the next request is admitted. */
  lemma CompletionFrees(s: GateState, start: int, now: int, next: int)
    ensures !AfterCompletion(s, start, now).processing
    ensures AfterCompletion(s, start, now).lastProcessingTime == Some(now - start)
    ensures TryEnqueue(AfterCompletion(s, start, now), next).1 == Admitted(next)
  {
  }

  /** The in-memory queue; one instance serves the whole process. */
  class ProcessingQueue {
    var processing: bool
    var lastProcessingTime: Option<int>

    constructor ()
      ensures processing == false && lastProcessingTime == None
      ensures State() == Initial
    {
      processing := false;
      lastProcessingTime := None;
    }

    /** The two fields as a value. */
    function State(): (s: GateState)
      reads this
      ensures s.processing == processing && s.lastProcessingTime == lastProcessingTime
    {
      GateState(processing, lastProcessingTime)
    }

    /**
     * `enqueue(req, res)`: a busy queue answers 429 and changes nothing;
     * an idle one sets `processing` and starts the job at `now`.
     */
    method Enqueue(now: int) returns (r: EnqueueResult)
      modifies this
      ensures (State(), r) == TryEnqueue(old(State()), now)
      ensures old(processing) ==>
        (r.Rejected? && r.body.status == 429 && r.body.lastProcessingTime == old(lastProcessingTime) && unchanged(this))
      ensures !old(processing) ==>
        (r == Admitted(now) && processing && lastProcessingTime == old(lastProcessingTime))
    {
      if processing {
        r := Rejected(BusyBody(BusyStatus, BusyMessage, lastProcessingTime));
        return;
      }
      processing := true;
      r := Admitted(now);
    }

    /**
     * The callback handed to the job admitted at `start`, called at `now`.
     * The duration the job reports itself (`processingTime`) is ignored:
     * the queue measures the elapsed time on its own clock.
     */
    method Complete(start: int, now: int, processingTime: int)
      modifies this
      ensures State() == AfterCompletion(old(State()), start, now)
      ensures !processing && lastProcessingTime == Some(now - start)
    {
      lastProcessingTime := Some(now - start);
      processing := false;
    }
  }

  // ---------------------------------------------------------------------
  // Runs of the gate: requests and callbacks interleaved by the event loop.
  // ---------------------------------------------------------------------

  /**
   * One step the event loop can take: a new request reaches `enqueue`, or
   * the closure handed to the `job`-th admitted job (counting from 0) is
   * called. Both carry the clock reading. Nothing in the gate stops a job
   * from calling its closure twice, or late.
   */
  datatype Event = Request(now: int) | Callback(job: nat, now: int)

  /**
   * The gate, the start time each admitted job's closure captured, in
   * admission order, and the jobs whose closures have been called.
   */
  datatype System = System(gate: GateState, starts: seq<int>, called: set<nat>)

  const InitialSystem: System := System(Initial, [], {})

  /** What a step shows: an answer to a request, a completion with the duration it recorded, or a call of a closure no job was given. */
  datatype Observation =
    | Answered(result: EnqueueResult)
    | Completed(job: nat, at: int, duration: int)
    | NoSuchJob

  /**
   * The flag is raised exactly while the last admitted job has not called
   * back, and every earlier job has.
   */
  predicate Consistent(sys: System) {
    (forall j :: j in sys.called ==> j < |sys.starts|) &&
    (forall j :: 0 <= j < |sys.starts| - 1 ==> j in sys.called) &&
    (sys.gate.processing <==> |sys.starts| > 0 && |sys.starts| - 1 !in sys.called)
  }

  /** The start time of the job that holds the gate, if any. */
  function Pending(sys: System): Option<int> {
    if sys.gate.processing && |sys.starts| > 0 then Some(sys.starts[|sys.starts| - 1]) else None
  }

  /** A request runs `enqueue`; a callback runs its job's closure whatever the gate holds. */
  function Step(sys: System, e: Event): (System, Observation) {
    match e
    case Request(now) =>
      var (g, r) := TryEnqueue(sys.gate, now);
      (sys.(gate := g, starts := if r.Admitted? then sys.starts + [r.start] else sys.starts), Answered(r))
    case Callback(j, now) =>
      if j < |sys.starts| then
        var g := AfterCompletion(sys.gate, sys.starts[j], now);
        (System(g, sys.starts, sys.called + {j}), Completed(j, now, now - sys.starts[j]))
      else (sys, NoSuchJob)
  }

  /** The final state and the observations of a run of `events` from `sys`. */
  function Run(sys: System, events: seq<Event>): (System, seq<Observation>)
    decreases |events|
  {
    if events == [] then (sys, [])
    else
      var (s1, o) := Step(sys, events[0]);
      var (s2, log) := Run(s1, events[1..]);
      (s2, [o] + log)
  }

  /** A step that calls no closure a second time. */
  predicate CallsBackOnce(sys: System, e: Event) {
    e.Callback? ==> e.job !in sys.called
  }

  /** A run in which every job calls its closure at most once, as `_processImage` is expected to. */
  predicate Disciplined(sys: System, events: seq<Event>)
    decreases |events|
  {
    events == [] || (CallsBackOnce(sys, events[0]) && Disciplined(Step(sys, events[0]).0, events[1..]))
  }

  /**
   * The observations alternate admissions and completions, starting from
   * `pending` (the start time of the running job, if any): a request is
   * admitted only when no job runs and rejected only when one does, a
   * completion comes only from the running job and records the time since
   * it was admitted, and a call of a closure no job was given does nothing.
   */
  predicate WellPaired(log: seq<Observation>, pending: Option<int>)
    decreases |log|
  {
    if log == [] then true
    else match log[0]
      case Answered(Admitted(t)) => pending.None? && WellPaired(log[1..], Some(t))
      case Answered(Rejected(_)) => pending.Some? && WellPaired(log[1..], pending)
      case Completed(_, at, d) => pending.Some? && d == at - pending.value && WellPaired(log[1..], None)
      case NoSuchJob => WellPaired(log[1..], pending)
  }

  /** A step that calls no closure twice keeps the flag in step with the outstanding job. */
  lemma StepConsistent(sys: System, e: Event)
    requires Consistent(sys) && CallsBackOnce(sys, e)
    ensures Consistent(Step(sys, e).0)
    ensures var (s1, o) := Step(sys, e);
      match o
      case Answered(Admitted(t)) => Pending(sys).None? && Pending(s1) == Some(t)
      case Answered(Rejected(_)) => Pending(sys).Some? && Pending(s1) == Pending(sys)
      case Completed(_, at, d) => Pending(sys).Some? && d == at - Pending(sys).value && Pending(s1).None?
      case NoSuchJob => Pending(s1) == Pending(sys)
  {
    var n := |sys.starts|;
    match e
    case Request(now) =>
      if !sys.gate.processing {
        var s1 := Step(sys, e).0;
        assert s1.starts == sys.starts + [now] && s1.called == sys.called;
        assert forall j :: 0 <= j < n ==> j in sys.called;
        assert n !in sys.called;
      }
    case Callback(j, now) =>
      if j < n {
        assert j == n - 1;
        var s1 := Step(sys, e).0;
        assert s1.called == sys.called + {j};
      }
  }

  /** Every step of a run in which no closure is called twice keeps the flag in step with the outstanding job. */
  lemma {:induction false} RunConsistent(sys: System, events: seq<Event>)
    requires Consistent(sys) && Disciplined(sys, events)
    ensures Consistent(Run(sys, events).0)
    decreases |events|
  {
    if events != [] {
      StepConsistent(sys, events[0]);
      RunConsistent(Step(sys, events[0]).0, events[1..]);
    }
  }

  /**
   * Mutual exclusion, availability after completion and the recorded
   * duration, over every run in which no closure is called twice: the
   * observations are well paired.
   */
  lemma {:induction false} RunWellPaired(sys: System, events: seq<Event>)
    requires Consistent(sys) && Disciplined(sys, events)
    ensures WellPaired(Run(sys, events).1, Pending(sys))
    decreases |events|
  {
    if events != [] {
      var (s1, o) := Step(sys, events[0]);
      StepConsistent(sys, events[0]);
      RunWellPaired(s1, events[1..]);
      var log := Run(sys, events).1;
      assert log[0] == o && log[1..] == Run(s1, events[1..]).1;
    }
  }

  /** From a fresh queue every run in which each job calls back at most once is well paired. */
  lemma MutualExclusion(events: seq<Event>)
    requires Disciplined(InitialSystem, events)
    ensures WellPaired(Run(InitialSystem, events).1, None)
  {
    RunWellPaired(InitialSystem, events);
  }

  /**
   * The gate relies on that discipline: a first job that calls its closure
   * again while a second job runs lowers the flag, overwrites the duration
   * with its own, and lets a third job in beside the second: two admitted
   * jobs are then outstanding at once.
   */
  lemma RepeatedCallbackBreaksExclusion(t1: int, t2: int, t3: int, t4: int, t5: int)
    ensures var (final, log) := Run(InitialSystem, [Request(t1), Callback(0, t2), Request(t3), Callback(0, t4), Request(t5)]);
      log == [Answered(Admitted(t1)), Completed(0, t2, t2 - t1), Answered(Admitted(t3)),
              Completed(0, t4, t4 - t1), Answered(Admitted(t5))]
      && final == System(GateState(true, Some(t4 - t1)), [t1, t3, t5], {0})
      && !Consistent(final)
  {
    var s1 := System(GateState(true, None), [t1], {});
    var s2 := System(GateState(false, Some(t2 - t1)), [t1], {0});
    var s3 := System(GateState(true, Some(t2 - t1)), [t1, t3], {0});
    var s4 := System(GateState(false, Some(t4 - t1)), [t1, t3], {0});
    var s5 := System(GateState(true, Some(t4 - t1)), [t1, t3, t5], {0});
    assert [] + [t1] == [t1] && [t1] + [t3] == [t1, t3] && [t1, t3] + [t5] == [t1, t3, t5];
    var none: set<nat> := {};
    assert none + {0} == {0} && {0} + {0} == {0};
    assert Step(InitialSystem, Request(t1)) == (s1, Answered(Admitted(t1)));
    assert Step(s1, Callback(0, t2)) == (s2, Completed(0, t2, t2 - t1));
    assert Step(s2, Request(t3)) == (s3, Answered(Admitted(t3)));
    assert Step(s3, Callback(0, t4)) == (s4, Completed(0, t4, t4 - t1));
    assert Step(s4, Request(t5)) == (s5, Answered(Admitted(t5)));
    RunFive(InitialSystem, s1, s2, s3, s4, s5,
      [Request(t1), Callback(0, t2), Request(t3), Callback(0, t4), Request(t5)],
      [Answered(Admitted(t1)), Completed(0, t2, t2 - t1), Answered(Admitted(t3)),
       Completed(0, t4, t4 - t1), Answered(Admitted(t5))]);
    assert 1 !in s5.called;
  }

  /** A run of five events, one step at a time. */
  lemma RunFive(s0: System, s1: System, s2: System, s3: System, s4: System, s5: System,
                es: seq<Event>, os: seq<Observation>)
    requires |es| == 5 && |os| == 5
    requires Step(s0, es[0]) == (s1, os[0]) && Step(s1, es[1]) == (s2, os[1]) && Step(s2, es[2]) == (s3, os[2])
    requires Step(s3, es[3]) == (s4, os[3]) && Step(s4, es[4]) == (s5, os[4])
    ensures Run(s0, es) == (s5, os)
  {
    assert es[5..] == [] && os[5..] == [];
    RunCons(s4, es[4..], s5, os[4], s5, os[5..]);
    assert [os[4]] + os[5..] == os[4..];
    RunCons(s3, es[3..], s4, os[3], s5, os[4..]);
    assert [os[3]] + os[4..] == os[3..];
    RunCons(s2, es[2..], s3, os[2], s5, os[3..]);
    assert [os[2]] + os[3..] == os[2..];
    RunCons(s1, es[1..], s2, os[1], s5, os[2..]);
    assert [os[1]] + os[2..] == os[1..];
    RunCons(s0, es, s1, os[0], s5, os[1..]);
    assert [os[0]] + os[1..] == os;
  }

  /** A run is its first step followed by the run of the rest. */
  lemma RunCons(s0: System, es: seq<Event>, s1: System, o: Observation, s2: System, os: seq<Observation>)
    requires es != [] && Step(s0, es[0]) == (s1, o) && Run(s1, es[1..]) == (s2, os)
    ensures Run(s0, es) == (s2, [o] + os)
  {
  }

  /** Requests arriving at the given clock readings. */
  function Requests(times: seq<int>): (events: seq<Event>)
    ensures |events| == |times|
    ensures forall i :: 0 <= i < |times| ==> events[i] == Request(times[i])
    decreases |times|
  {
    if times == [] then [] else [Request(times[0])] + Requests(times[1..])
  }

  /**
   * While a job runs, every further request is rejected with the same last
   * duration and nothing changes: a job that never calls back keeps the
   * gate closed for good.
   */
  lemma {:induction false} RejectedWhileRunning(sys: System, times: seq<int>)
    requires Consistent(sys) && Pending(sys).Some?
    ensures Run(sys, Requests(times)).0 == sys
    ensures forall i :: 0 <= i < |Run(sys, Requests(times)).1| ==>
      Run(sys, Requests(times)).1[i] == Answered(Rejected(BusyBody(429, BusyMessage, sys.gate.lastProcessingTime)))
    decreases |times|
  {
    if times != [] {
      assert Requests(times)[1..] == Requests(times[1..]);
      RejectedWhileRunning(sys, times[1..]);
    }
  }

  /** The recorded duration of the last completion in a log, if any. */
  function LastDuration(log: seq<Observation>): (d: Option<int>)
    ensures d.Some? ==> exists i :: 0 <= i < |log| && log[i].Completed? && log[i].duration == d.value
    decreases |log|
  {
    if log == [] then None
    else if log[|log| - 1].Completed? then Some(log[|log| - 1].duration)
    else LastDuration(log[..|log| - 1])
  }

  /**
   * Each call of a closure overwrites `lastProcessingTime`, in every run:
   * afterwards it holds the last completion's duration.
   */
  lemma {:induction false} LastCompletionWins(sys: System, events: seq<Event>)
    ensures Run(sys, events).0.gate.lastProcessingTime ==
      (var d := LastDuration(Run(sys, events).1); if d.Some? then d else sys.gate.lastProcessingTime)
    decreases |events|
  {
    if events != [] {
      var (s1, o) := Step(sys, events[0]);
      StepRecords(sys, events[0]);
      LastCompletionWins(s1, events[1..]);
      var tail := Run(s1, events[1..]).1;
      assert Run(sys, events) == (Run(s1, events[1..]).0, [o] + tail);
      LastDurationCons(o, tail);
    }
  }

  /** A step changes the recorded duration exactly when it completes a job, to that completion's duration. */
  lemma StepRecords(sys: System, e: Event)
    ensures var (s1, o) := Step(sys, e);
      s1.gate.lastProcessingTime == if o.Completed? then Some(o.duration) else sys.gate.lastProcessingTime
  {
  }

  lemma {:induction false} LastDurationCons(o: Observation, log: seq<Observation>)
    ensures LastDuration([o] + log) == if LastDuration(log).Some? then LastDuration(log)
      else if o.Completed? then Some(o.duration) else None
    decreases |log|
  {
    if log != [] {
      assert ([o] + log)[..|[o] + log| - 1] == [o] + log[..|log| - 1];
      LastDurationCons(o, log[..|log| - 1]);
    }
  }

  /** The clock never goes backwards over the events. */
  predicate NonDecreasing(events: seq<Event>) {
    forall i, j :: 0 <= i < j < |events| ==> events[i].now <= events[j].now
  }

  predicate DurationNonNegative(g: GateState) {
    g.lastProcessingTime.Some? ==> g.lastProcessingTime.value >= 0
  }

  /** Every captured start time is at most `now`. */
  predicate StartedBy(sys: System, now: int) {
    forall j :: 0 <= j < |sys.starts| ==> sys.starts[j] <= now
  }

  /** With a clock that does not go backwards, no recorded duration is negative, in any run. */
  lemma {:induction false} DurationsNonNegative(sys: System, events: seq<Event>)
    requires NonDecreasing(events)
    requires DurationNonNegative(sys.gate)
    requires events != [] ==> StartedBy(sys, events[0].now)
    ensures DurationNonNegative(Run(sys, events).0.gate)
    ensures forall o :: o in Run(sys, events).1 && o.Completed? ==> o.duration >= 0
    decreases |events|
  {
    if events != [] {
      var (s1, o) := Step(sys, events[0]);
      assert o.Completed? ==> o.duration >= 0;
      assert StartedBy(s1, events[0].now);
      assert NonDecreasing(events[1..]) by {
        forall i, j | 0 <= i < j < |events[1..]| ensures events[1..][i].now <= events[1..][j].now {
          assert events[1..][i] == events[i + 1] && events[1..][j] == events[j + 1];
        }
      }
      assert |events| > 1 ==> StartedBy(s1, events[1].now);
      DurationsNonNegative(s1, events[1..]);
    }
  }

  /** The index of the first completion in a log, or its length if there is none. */
  function FirstCompletion(log: seq<Observation>): (k: nat)
    ensures k <= |log|
    ensures forall i :: 0 <= i < k ==> !log[i].Completed?
    ensures k < |log| ==> log[k].Completed?
    decreases |log|
  {
    if log == [] then 0
    else if log[0].Completed? then 0
    else 1 + FirstCompletion(log[1..])
  }

  /** Until the first job has completed, every rejection reports `lastProcessingTime` as null. */
  lemma {:induction false} NullBeforeFirstCompletion(sys: System, events: seq<Event>)
    requires sys.gate.lastProcessingTime == None
    ensures var log := Run(sys, events).1;
      forall i :: 0 <= i < FirstCompletion(log) && log[i].Answered? && log[i].result.Rejected? ==>
        log[i].result.body.lastProcessingTime == None
    decreases |events|
  {
    if events != [] {
      var (s1, o) := Step(sys, events[0]);
      var log := Run(sys, events).1;
      assert log == [o] + Run(s1, events[1..]).1;
      if !o.Completed? {
        assert s1.gate.lastProcessingTime == None;
        NullBeforeFirstCompletion(s1, events[1..]);
        assert log[1..] == Run(s1, events[1..]).1;
      }
    }
  }

  /**
   * A job J1 is admitted at t1; J2 arrives at t2 while J1 runs and is
   * rejected with a null last duration; J1 completes at t3; J3 is admitted at
   * t4 and completes at t5, and the gate then reports J3's duration, not J1's.
   */
  lemma ThreeJobScenario(t1: int, t2: int, t3: int, t4: int, t5: int)
    ensures var (final, log) := Run(InitialSystem, [Request(t1), Request(t2), Callback(0, t3), Request(t4), Callback(1, t5)]);
      log == [Answered(Admitted(t1)), Answered(Rejected(BusyBody(429, BusyMessage, None))),
              Completed(0, t3, t3 - t1), Answered(Admitted(t4)), Completed(1, t5, t5 - t4)]
      && final == System(GateState(false, Some(t5 - t4)), [t1, t4], {0, 1})
  {
    var s1 := System(GateState(true, None), [t1], {});
    var s3 := System(GateState(false, Some(t3 - t1)), [t1], {0});
    var s4 := System(GateState(true, Some(t3 - t1)), [t1, t4], {0});
    var s5 := System(GateState(false, Some(t5 - t4)), [t1, t4], {0, 1});
    assert [] + [t1] == [t1] && [t1] + [t4] == [t1, t4];
    var none: set<nat> := {};
    assert none + {0} == {0} && {0} + {1} == {0, 1};
    assert Step(InitialSystem, Request(t1)) == (s1, Answered(Admitted(t1)));
    assert Step(s1, Request(t2)) == (s1, Answered(Rejected(BusyBody(429, BusyMessage, None))));
    assert Step(s1, Callback(0, t3)) == (s3, Completed(0, t3, t3 - t1));
    assert Step(s3, Request(t4)) == (s4, Answered(Admitted(t4)));
    assert Step(s4, Callback(1, t5)) == (s5, Completed(1, t5, t5 - t4));
    RunFive(InitialSystem, s1, s1, s3, s4, s5,
      [Request(t1), Request(t2), Callback(0, t3), Request(t4), Callback(1, t5)],
      [Answered(Admitted(t1)), Answered(Rejected(BusyBody(429, BusyMessage, None))),
       Completed(0, t3, t3 - t1), Answered(Admitted(t4)), Completed(1, t5, t5 - t4)]);
  }
}
