/**
 * The status route of the API server
 * (apps/api/src/routes/processing-status.route.ts): `GET /` answers
 * `{processing: <flag>}` from the process-wide queue, reading it only.
 */
module ProcessingStatus {
  import opened ImageProcessingQueue

  /** The JSON body of the status answer. */
  datatype StatusBody = StatusBody(processing: bool)

  /** The body reported for the queue fields `g`. */
  function Status(g: GateState): (body: StatusBody)
    ensures body.processing <==> g.processing
  {
    StatusBody(g.processing)
  }

  /** The route handler: a read of the queue's flag, which changes neither field. */
  function GetStatus(q: ProcessingQueue): (body: StatusBody)
    reads q
    ensures body.processing == q.processing
  {
    Status(q.State())
  }

  /** The number of admissions in a log. */
  function Admissions(log: seq<Observation>): (n: nat)
    ensures n <= |log|
    decreases |log|
  {
    if log == [] then 0
    else (if log[0].Answered? && log[0].result.Admitted? then 1 else 0) + Admissions(log[1..])
  }

  /** The number of completions in a log. */
  function Completions(log: seq<Observation>): (n: nat)
    ensures n <= |log|
    decreases |log|
  {
    if log == [] then 0
    else (if log[0].Completed? then 1 else 0) + Completions(log[1..])
  }

  function Busy(g: GateState): nat {
    if g.processing then 1 else 0
  }

  /** Over any run in which no job calls back twice, admissions and completions balance, up to the job still running. */
  lemma {:induction false} RunBalance(sys: System, events: seq<Event>)
    requires Consistent(sys) && Disciplined(sys, events)
    ensures var (final, log) := Run(sys, events);
      Admissions(log) + Busy(sys.gate) == Completions(log) + Busy(final.gate)
    decreases |events|
  {
    if events != [] {
      var (s1, o) := Step(sys, events[0]);
      StepConsistent(sys, events[0]);
      RunBalance(s1, events[1..]);
      var log := Run(sys, events).1;
      assert log[1..] == Run(s1, events[1..]).1;
    }
  }

  /**
   * From a fresh queue, the status reports true exactly when one more job
   * has been admitted than has completed, and never more than one, as long
   * as no job calls back twice.
   */
  lemma StatusBetweenAdmissionAndCompletion(events: seq<Event>)
    requires Disciplined(InitialSystem, events)
    ensures var (final, log) := Run(InitialSystem, events);
      (Status(final.gate).processing <==> Admissions(log) == Completions(log) + 1)
      && (!Status(final.gate).processing <==> Admissions(log) == Completions(log))
  {
    RunBalance(InitialSystem, events);
  }

  /** A fresh queue reports that nothing is being processed. */
  lemma StatusInitiallyIdle(q: ProcessingQueue)
    requires q.State() == Initial
    ensures GetStatus(q) == StatusBody(false)
  {
  }
}
