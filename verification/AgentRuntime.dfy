/** The agent supervisor: one goroutine per instance, and exactly one result from each over
    a buffered channel (internal/agent/runtime.go:32-78). */
module AgentRuntime {
  import opened Identifiers

  /** How an instance's `Run` ends. */
  datatype Ending = Clean | Failure(code: nat) | Panic(value: nat)

  /** What `runInstance` sends: a recovered panic is an error with a stack. */
  datatype InstanceResult = InstanceResult(instance: nat, failed: bool, stack: bool)

  function ResultOf(instance: nat, ending: Ending): InstanceResult {
    match ending
    case Clean => InstanceResult(instance, false, false)
    case Failure(_) => InstanceResult(instance, true, false)
    case Panic(_) => InstanceResult(instance, true, true)
  }

  datatype Goroutine = Running | Sending(result: InstanceResult) | Sent

  datatype Exit = NoInstances | StoppedByContext | AllInstancesStopped

  datatype Supervisor = Looping(stopping: bool) | Exited(exit: Exit)

  datatype State = State(
    goroutines: seq<Goroutine>,
    results: seq<InstanceResult>,    // the channel, of capacity |goroutines|
    remaining: nat,
    received: seq<InstanceResult>,
    cancelled: bool,                 // the context
    supervisor: Supervisor
  )

  function Init(n: nat): State {
    State(seq(n, _ => Running), [], n, [], false, if n == 0 then Exited(NoInstances) else Looping(false))
  }

  datatype Step =
    | CancelContext
    | EndInstance(i: nat, ending: Ending)   // returns or panics; the deferred function runs
    | SendResult(i: nat)
    | SeeCancel                             // the select takes ctx.Done()
    | ReceiveResult
    | LeaveLoop                             // remaining == 0

  predicate Enabled(s: State, step: Step) {
    match step
    case CancelContext => !s.cancelled
    case EndInstance(i, _) => i < |s.goroutines| && s.goroutines[i].Running?
    case SendResult(i) => i < |s.goroutines| && s.goroutines[i].Sending? && |s.results| < |s.goroutines|
    case SeeCancel => s.supervisor == Looping(false) && s.remaining > 0 && s.cancelled
    case ReceiveResult => s.supervisor.Looping? && s.remaining > 0 && s.results != []
    case LeaveLoop => s.supervisor.Looping? && s.remaining == 0
  }

  function Apply(s: State, step: Step): State
    requires Enabled(s, step)
  {
    match step
    case CancelContext => s.(cancelled := true)
    case EndInstance(i, ending) => s.(goroutines := s.goroutines[i := Sending(ResultOf(i, ending))])
    case SendResult(i) =>
      s.(results := s.results + [s.goroutines[i].result], goroutines := s.goroutines[i := Sent])
    case SeeCancel => s.(supervisor := Looping(true))
    case ReceiveResult =>
      s.(remaining := s.remaining - 1, received := s.received + [s.results[0]], results := s.results[1..])
    case LeaveLoop =>
      s.(supervisor := Exited(if s.cancelled then StoppedByContext else AllInstancesStopped))
  }

  function Run(s: State, steps: seq<Step>): Option<State>
    decreases |steps|
  {
    if steps == [] then Some(s)
    else if Enabled(s, steps[0]) then Run(Apply(s, steps[0]), steps[1..])
    else None
  }

  // ---------------------------------------------------------------- invariant

  /** Every result ever sent, in order. */
  function AllSent(s: State): seq<InstanceResult> {
    s.received + s.results
  }

  /** Which instances have sent. */
  function SentSet(goroutines: seq<Goroutine>): set<nat> {
    set i: nat | i < |goroutines| && goroutines[i].Sent?
  }

  ghost predicate OneResultEach(s: State) {
    && (forall j :: 0 <= j < |AllSent(s)| ==>
          AllSent(s)[j].instance < |s.goroutines| && s.goroutines[AllSent(s)[j].instance].Sent?)
    && (forall j, k :: 0 <= j < k < |AllSent(s)| ==> AllSent(s)[j].instance != AllSent(s)[k].instance)
    && |AllSent(s)| == |SentSet(s.goroutines)|
  }

  ghost predicate Inv(s: State) {
    && OneResultEach(s)
    && s.remaining + |s.received| == |s.goroutines|
    && (forall i :: 0 <= i < |s.goroutines| && s.goroutines[i].Sending? ==> s.goroutines[i].result.instance == i)
    && (s.supervisor.Exited? ==> s.remaining == 0)
    && (s.supervisor == Looping(true) ==> s.cancelled)
    && (s.supervisor == Exited(StoppedByContext) ==> s.cancelled)
    && (s.supervisor == Exited(NoInstances) <==> |s.goroutines| == 0)
  }

  lemma SentSetBound(goroutines: seq<Goroutine>)
    ensures |SentSet(goroutines)| <= |goroutines|
    ensures (exists i :: 0 <= i < |goroutines| && !goroutines[i].Sent?) ==> |SentSet(goroutines)| < |goroutines|
    ensures |SentSet(goroutines)| == |goroutines| ==> forall i :: 0 <= i < |goroutines| ==> goroutines[i].Sent?
  {
    if goroutines != [] {
      var n := |goroutines| - 1;
      SentSetBound(goroutines[..n]);
      assert forall i: nat :: i < n ==> goroutines[..n][i] == goroutines[i];
      if goroutines[n].Sent? {
        assert SentSet(goroutines) == SentSet(goroutines[..n]) + {n};
      } else {
        assert SentSet(goroutines) == SentSet(goroutines[..n]);
      }
    } else {
      assert SentSet(goroutines) == {};
    }
  }

  lemma SendKeepsInv(s: State, i: nat)
    requires Inv(s) && Enabled(s, SendResult(i))
    ensures Inv(Apply(s, SendResult(i)))
  {
    var t := Apply(s, SendResult(i));
    assert AllSent(t) == AllSent(s) + [s.goroutines[i].result];
    assert SentSet(t.goroutines) == SentSet(s.goroutines) + {i};
  }

  lemma ReceiveKeepsInv(s: State)
    requires Inv(s) && Enabled(s, ReceiveResult)
    ensures Inv(Apply(s, ReceiveResult))
  {
    assert AllSent(Apply(s, ReceiveResult)) == AllSent(s);
  }

  lemma StepKeepsInv(s: State, step: Step)
    requires Inv(s) && Enabled(s, step)
    ensures Inv(Apply(s, step)) && |Apply(s, step).goroutines| == |s.goroutines|
  {
    match step
    case SendResult(i) => SendKeepsInv(s, i);
    case ReceiveResult => ReceiveKeepsInv(s);
    case EndInstance(i, ending) =>
      var t := Apply(s, step);
      assert SentSet(t.goroutines) == SentSet(s.goroutines);
      assert AllSent(t) == AllSent(s);
    case _ =>
      assert AllSent(Apply(s, step)) == AllSent(s);
  }

  lemma {:induction false} RunKeepsInv(s: State, steps: seq<Step>)
    requires Inv(s)
    ensures Run(s, steps).Some? ==> Inv(Run(s, steps).value) && |Run(s, steps).value.goroutines| == |s.goroutines|
    decreases |steps|
  {
    if steps != [] && Enabled(s, steps[0]) {
      StepKeepsInv(s, steps[0]);
      RunKeepsInv(Apply(s, steps[0]), steps[1..]);
    }
  }

  lemma InitInv(n: nat)
    ensures Inv(Init(n))
  {
    assert SentSet(Init(n).goroutines) == {};
  }

  // ---------------------------------------------------------------- theorems

  /** Conservation in every run: what remains plus what was received is always the
      number of instances; every result received or buffered is from an instance of
      its own, however that instance ended; and no send ever blocks. */
  lemma ResultsAreConserved(n: nat, steps: seq<Step>, i: nat)
    requires Run(Init(n), steps).Some?
    ensures var s := Run(Init(n), steps).value;
            && s.remaining + |s.received| == n == |s.goroutines|
            && OneResultEach(s)
            && (i < n && s.goroutines[i].Sending? ==> Enabled(s, SendResult(i)))
  {
    InitInv(n);
    RunKeepsInv(Init(n), steps);
    SentSetBound(Run(Init(n), steps).value.goroutines);
  }

  /** `Run` returns only when every instance has finished and its result has been
      received; it returns an error at once only when there is no instance. */
  lemma ReturnsOnlyWhenAllFinished(n: nat, steps: seq<Step>)
    requires Run(Init(n), steps).Some? && Run(Init(n), steps).value.supervisor.Exited?
    ensures var s := Run(Init(n), steps).value;
            && |s.received| == n && s.results == []
            && |s.goroutines| == n && (forall i :: 0 <= i < n ==> s.goroutines[i].Sent?)
            && (s.supervisor.exit == NoInstances <==> n == 0)
  {
    InitInv(n);
    RunKeepsInv(Init(n), steps);
    SentSetBound(Run(Init(n), steps).value.goroutines);
  }

  /** Once it has returned, `Run` has returned for good. */
  lemma {:induction false} ExitIsFinal(s: State, steps: seq<Step>)
    requires Run(s, steps).Some? && s.supervisor.Exited?
    ensures Run(s, steps).value.supervisor == s.supervisor
    decreases |steps|
  {
    if steps != [] {
      ExitIsFinal(Apply(s, steps[0]), steps[1..]);
    }
  }

  lemma {:induction false} ExitIsDecided(s: State, steps: seq<Step>) returns (k: nat)
    requires Run(s, steps).Some? && s.supervisor.Looping? && Run(s, steps).value.supervisor.Exited?
    ensures k < |steps| && steps[k] == LeaveLoop
    ensures Run(s, steps).value.supervisor
         == Exited(if s.cancelled || CancelContext in steps[..k] then StoppedByContext else AllInstancesStopped)
    decreases |steps|
  {
    var t := Apply(s, steps[0]);
    if steps[0] == LeaveLoop {
      k := 0;
      ExitIsFinal(t, steps[1..]);
    } else {
      var rest := ExitIsDecided(t, steps[1..]);
      k := rest + 1;
      assert steps[..k] == [steps[0]] + steps[1..][..rest];
    }
  }

  /** In every run that has returned, there is a step at which it left its loop, and it
      returned nil exactly when the context had been cancelled by then, whether or not
      the loop had noticed; otherwise the error is that all instances stopped. */
  lemma NilExactlyWhenCancelled(n: nat, steps: seq<Step>) returns (k: nat)
    requires n > 0 && Run(Init(n), steps).Some? && Run(Init(n), steps).value.supervisor.Exited?
    ensures k < |steps| && steps[k] == LeaveLoop
    ensures var exit := Run(Init(n), steps).value.supervisor.exit;
            && (exit == StoppedByContext <==> CancelContext in steps[..k])
            && (exit == AllInstancesStopped <==> CancelContext !in steps[..k])
  {
    k := ExitIsDecided(Init(n), steps);
  }

  /** The result is somewhere between its instance and the supervisor's log. */
  predicate Present(s: State, r: InstanceResult) {
    || r in s.received || r in s.results
    || exists i :: 0 <= i < |s.goroutines| && s.goroutines[i] == Sending(r)
  }

  lemma StepMakesResults(s: State, step: Step, r: InstanceResult)
    requires Enabled(s, step) && Present(Apply(s, step), r)
    ensures Present(s, r) || (step.EndInstance? && r == ResultOf(step.i, step.ending))
  {
    var t := Apply(s, step);
    assert step.SendResult? ==> s.goroutines[step.i] == Sending(s.goroutines[step.i].result);
    if r !in t.received && r !in t.results {
      var i :| 0 <= i < |t.goroutines| && t.goroutines[i] == Sending(r);
      assert s.goroutines[i] == t.goroutines[i] || (step.EndInstance? && step.i == i);
    }
  }

  lemma {:induction false} ResultsComeFromEndings(s: State, steps: seq<Step>, r: InstanceResult) returns (k: nat)
    requires Run(s, steps).Some? && Present(Run(s, steps).value, r) && !Present(s, r)
    ensures k < |steps| && steps[k].EndInstance? && r == ResultOf(steps[k].i, steps[k].ending)
    decreases |steps|
  {
    var t := Apply(s, steps[0]);
    if Present(t, r) {
      StepMakesResults(s, steps[0], r);
      k := 0;
    } else {
      var rest := ResultsComeFromEndings(t, steps[1..], r);
      k := rest + 1;
    }
  }

  /** Every result received says how its instance ended: it carries an error exactly
      when the instance did not return cleanly, and a stack exactly when it panicked. */
  lemma ResultsTellTheEnding(n: nat, steps: seq<Step>, r: InstanceResult) returns (k: nat)
    requires Run(Init(n), steps).Some? && r in Run(Init(n), steps).value.received
    ensures k < |steps| && steps[k].EndInstance? && steps[k].i == r.instance
    ensures r.failed <==> steps[k].ending != Clean
    ensures r.stack <==> steps[k].ending.Panic?
  {
    k := ResultsComeFromEndings(Init(n), steps, r);
  }

  /** What is left to do. */
  function Work(goroutines: seq<Goroutine>): nat {
    if goroutines == [] then 0
    else Work(goroutines[1..]) + match goroutines[0] case Running => 2 case Sending(_) => 1 case Sent => 0
  }

  function Measure(s: State): nat {
    Work(s.goroutines) + s.remaining +
    match s.supervisor case Looping(stopping) => (if stopping then 1 else 2) case Exited(_) => 0
  }

  lemma {:induction false} WorkUpdate(goroutines: seq<Goroutine>, i: nat, g: Goroutine)
    requires i < |goroutines|
    ensures Work(goroutines[i := g]) - Work([g]) == Work(goroutines) - Work([goroutines[i]])
  {
    if i == 0 {
      assert goroutines[0 := g][1..] == goroutines[1..];
    } else {
      WorkUpdate(goroutines[1..], i - 1, g);
      assert goroutines[i := g][1..] == goroutines[1..][i - 1 := g];
    }
  }

  /** Every step but the cancellation itself uses something up. */
  lemma StepsUseUpWork(s: State, step: Step)
    requires Enabled(s, step) && !step.CancelContext?
    ensures Measure(Apply(s, step)) < Measure(s)
  {
    match step
    case EndInstance(i, ending) => WorkUpdate(s.goroutines, i, Sending(ResultOf(i, ending)));
    case SendResult(i) => WorkUpdate(s.goroutines, i, Sent);
    case _ =>
  }

  lemma {:induction false} InitialWork(n: nat)
    ensures Work(seq(n, _ => Running)) == 2 * n
  {
    if n > 0 {
      InitialWork(n - 1);
      assert seq(n, _ => Running)[1..] == seq(n - 1, _ => Running);
    }
  }

  /** Every run ends: `n` instances allow at most 3n + 3 steps. */
  lemma RunsAreBounded(n: nat, steps: seq<Step>)
    requires Run(Init(n), steps).Some?
    ensures |steps| <= 3 * n + 3
  {
    InitialWork(n);
    BoundedByMeasure(Init(n), steps);
  }

  lemma {:induction false} BoundedByMeasure(s: State, steps: seq<Step>)
    requires Run(s, steps).Some?
    ensures |steps| <= Measure(s) + if s.cancelled then 0 else 1
    decreases |steps|
  {
    if steps != [] {
      if !steps[0].CancelContext? {
        StepsUseUpWork(s, steps[0]);
      }
      BoundedByMeasure(Apply(s, steps[0]), steps[1..]);
    }
  }

  /** Until it returns, something other than the context can always move: an
      instance still running can end, a finished one can send, or the supervisor
      can receive or leave. Until the last result is in, it can notice a cancellation.
      As runs are bounded, `Run` returns once every instance
      ends. */
  lemma NeverStuck(n: nat, steps: seq<Step>)
    requires Run(Init(n), steps).Some? && Run(Init(n), steps).value.supervisor.Looping?
    ensures var s := Run(Init(n), steps).value;
            || (exists i :: 0 <= i < |s.goroutines| && s.goroutines[i].Running?)
            || (exists i: nat :: i < |s.goroutines| && Enabled(s, SendResult(i)))
            || Enabled(s, ReceiveResult) || Enabled(s, LeaveLoop)
    ensures var s := Run(Init(n), steps).value;
            s.cancelled && s.supervisor == Looping(false) && |s.received| < n ==> Enabled(s, SeeCancel)
  {
    InitInv(n);
    RunKeepsInv(Init(n), steps);
    var s := Run(Init(n), steps).value;
    SentSetBound(s.goroutines);
    if forall i :: 0 <= i < n ==> s.goroutines[i].Sent? {
      AllSentCounts(s.goroutines);
    } else {
      var i: nat :| i < n && !s.goroutines[i].Sent?;
      assert s.goroutines[i].Running? || Enabled(s, SendResult(i));
    }
  }

  lemma {:induction false} AllSentCounts(goroutines: seq<Goroutine>)
    requires forall i :: 0 <= i < |goroutines| ==> goroutines[i].Sent?
    ensures |SentSet(goroutines)| == |goroutines|
  {
    if goroutines != [] {
      var n := |goroutines| - 1;
      AllSentCounts(goroutines[..n]);
      assert SentSet(goroutines) == SentSet(goroutines[..n]) + {n};
    } else {
      assert SentSet(goroutines) == {};
    }
  }

  // ---------------------------------------------------------------- the loop

  /** The loop of `Run` on the results in the order they arrive. Which of two ready
      cases a select takes is left open, so `noticed` is any moment or none. Every
      result is consumed, in order, before the loop ends. */
  method Collect(instances: nat, arrivals: seq<InstanceResult>, noticed: nat, cancelled: bool)
    returns (logged: seq<InstanceResult>, exit: Exit)
    requires |arrivals| == instances
    ensures logged == arrivals
    ensures exit.NoInstances? <==> instances == 0
    ensures instances > 0 ==> (exit.StoppedByContext? <==> cancelled)
  {
    logged := [];
    if instances == 0 {
      return logged, NoInstances;
    }
    var remaining: nat := instances;
    var stopping := false;
    while remaining > 0
      invariant remaining <= instances
      invariant logged == arrivals[..instances - remaining]
      decreases remaining, !stopping
    {
      if stopping {
        logged := logged + [arrivals[instances - remaining]];
        remaining := remaining - 1;
        continue;
      }
      if cancelled && remaining <= noticed {
        stopping := true;
      } else {
        logged := logged + [arrivals[instances - remaining]];
        remaining := remaining - 1;
      }
    }
    exit := if cancelled then StoppedByContext else AllInstancesStopped;
  }
}
