/** The lifecycle of a service (pkg/lifecycle/lifecycle.go): Start and Stop move a state by compare-and-swap
    around the service's hooks. The model interleaves any number of callers. */
module Lifecycle {
  datatype Phase = NotStarted | Starting | Started | Stopped {
    function Rank(): nat {
      match this case NotStarted => 0 case Starting => 1 case Started => 2 case Stopped => 3
    }
  }

  /** Where a caller is. Between calls it is ready, and it may call again. */
  datatype Caller = Ready | InStartHook | StartHookReturned | InStopHook

  /** `startRuns`, `startReturns` and `stopRuns` are history: how often the hooks were entered and left. */
  datatype State = State(phase: Phase, callers: seq<Caller>, startRuns: nat, startReturns: nat, stopRuns: nat)

  datatype Step =
    | SwapToStarting(i: nat)
    | ReturnFromStart(i: nat)
    | StoreStarted(i: nat)
    | SwapToStopped(i: nat)
    | ReturnFromStop(i: nat)

  predicate Enabled(s: State, step: Step) {
    && step.i < |s.callers|
    && match step
       case SwapToStarting(i) => s.callers[i].Ready?
       case ReturnFromStart(i) => s.callers[i].InStartHook?
       case StoreStarted(i) => s.callers[i].StartHookReturned?
       case SwapToStopped(i) => s.callers[i].Ready?
       case ReturnFromStop(i) => s.callers[i].InStopHook?
  }

  function Apply(s: State, step: Step): State
    requires Enabled(s, step)
  {
    match step
    case SwapToStarting(i) =>
      if s.phase.NotStarted? then
        s.(phase := Starting, callers := s.callers[i := InStartHook], startRuns := s.startRuns + 1)
      else s
    case ReturnFromStart(i) =>
      s.(callers := s.callers[i := StartHookReturned], startReturns := s.startReturns + 1)
    case StoreStarted(i) => s.(phase := Started, callers := s.callers[i := Ready])
    case SwapToStopped(i) =>
      if s.phase.Started? then
        s.(phase := Stopped, callers := s.callers[i := InStopHook], stopRuns := s.stopRuns + 1)
      else s
    case ReturnFromStop(i) => s.(callers := s.callers[i := Ready])
  }

  ghost predicate Runs(s: State, steps: seq<Step>)
    decreases |steps|
  {
    steps == [] || (Enabled(s, steps[0]) && Runs(Apply(s, steps[0]), steps[1..]))
  }

  ghost function Exec(s: State, steps: seq<Step>): State
    requires Runs(s, steps)
    decreases |steps|
  {
    if steps == [] then s else Exec(Apply(s, steps[0]), steps[1..])
  }

  ghost predicate Initial(s: State) {
    && s.phase.NotStarted? && s.startRuns == 0 && s.startReturns == 0 && s.stopRuns == 0
    && forall i :: 0 <= i < |s.callers| ==> s.callers[i].Ready?
  }

  predicate IsStarting(c: Caller) {
    c.InStartHook? || c.StartHookReturned?
  }

  /** At most one caller is in the start section, and only while the phase is Starting. */
  ghost predicate Inv(s: State) {
    && (forall i, j :: 0 <= i < j < |s.callers| ==> !(IsStarting(s.callers[i]) && IsStarting(s.callers[j])))
    && (forall i :: 0 <= i < |s.callers| && IsStarting(s.callers[i]) ==>
          s.phase.Starting? && s.startReturns == (if s.callers[i].InStartHook? then 0 else 1))
    && s.startRuns == (if s.phase.NotStarted? then 0 else 1)
    && (s.phase.NotStarted? ==> s.startReturns == 0)
    && (s.phase.Started? || s.phase.Stopped? ==> s.startReturns == 1)
    && s.stopRuns == (if s.phase.Stopped? then 1 else 0)
  }

  lemma InvStep(s: State, step: Step)
    requires Inv(s) && Enabled(s, step)
    ensures Inv(Apply(s, step)) && s.phase.Rank() <= Apply(s, step).phase.Rank()
  {
  }

  lemma {:induction false} InvRun(s: State, steps: seq<Step>)
    requires Inv(s) && Runs(s, steps)
    ensures Inv(Exec(s, steps)) && s.phase.Rank() <= Exec(s, steps).phase.Rank()
    decreases |steps|
  {
    if steps != [] {
      InvStep(s, steps[0]);
      InvRun(Apply(s, steps[0]), steps[1..]);
    }
  }

  /** Under every interleaving of Start and Stop each hook runs at most once, the stop hook only after the
      start hook has returned, and the state only moves forward. */
  lemma HooksRunOnce(s0: State, earlier: seq<Step>, later: seq<Step>)
    requires Initial(s0) && Runs(s0, earlier) && Runs(Exec(s0, earlier), later)
    ensures var s := Exec(s0, earlier);
            var t := Exec(s, later);
            && t.startRuns <= 1 && t.stopRuns <= 1
            && (t.stopRuns == 1 ==> t.startReturns == 1)
            && s.phase.Rank() <= t.phase.Rank()
  {
    InvRun(s0, earlier);
    InvRun(Exec(s0, earlier), later);
  }

  /** The object, for a caller that is not interleaved with others. */
  class Service {
    var state: Phase
    ghost var startRuns: nat
    ghost var stopRuns: nat

    constructor ()
      ensures state == NotStarted && startRuns == 0 && stopRuns == 0
    {
      state := NotStarted;
      startRuns, stopRuns := 0, 0;
    }

    /** The start hook runs only the first time, and the service is started afterwards. */
    method Start()
      modifies this
      ensures old(state).NotStarted? ==> state == Started && startRuns == old(startRuns) + 1
      ensures !old(state).NotStarted? ==> state == old(state) && startRuns == old(startRuns)
      ensures stopRuns == old(stopRuns)
    {
      if state != NotStarted {
        return;
      }
      state := Starting;
      startRuns := startRuns + 1;
      state := Started;
    }

    /** The stop hook runs only if the service is started, and never again. */
    method Stop()
      modifies this
      ensures old(state).Started? ==> state == Stopped && stopRuns == old(stopRuns) + 1
      ensures !old(state).Started? ==> state == old(state) && stopRuns == old(stopRuns)
      ensures startRuns == old(startRuns)
    {
      if state != Started {
        return;
      }
      state := Stopped;
      stopRuns := stopRuns + 1;
    }
  }

  /** The object's Start is the three steps of one caller with nothing in between. */
  lemma UninterruptedStart(s: State, i: nat)
    requires Inv(s) && i < |s.callers| && s.callers[i].Ready? && s.phase.NotStarted?
    ensures var steps := [SwapToStarting(i), ReturnFromStart(i), StoreStarted(i)];
            && Runs(s, steps)
            && Exec(s, steps) == s.(phase := Started, startRuns := 1, startReturns := 1)
  {
    var a := Apply(s, SwapToStarting(i));
    var b := Apply(a, ReturnFromStart(i));
    var c := Apply(b, StoreStarted(i));
    assert c.callers == s.callers;
    var steps := [SwapToStarting(i), ReturnFromStart(i), StoreStarted(i)];
    assert steps[1..] == [ReturnFromStart(i), StoreStarted(i)];
    assert steps[1..][1..] == [StoreStarted(i)];
    assert steps[1..][1..][1..] == [];
    assert Runs(c, []) && Exec(c, []) == c;
    assert Runs(b, [StoreStarted(i)]) && Exec(b, [StoreStarted(i)]) == c;
    assert Runs(a, steps[1..]) && Exec(a, steps[1..]) == c;
  }

  /** And its Stop: a started service is stopped with the hook run once; in any other state nothing happens. */
  lemma UninterruptedStop(s: State, i: nat)
    requires Inv(s) && i < |s.callers| && s.callers[i].Ready?
    ensures Enabled(s, SwapToStopped(i))
    ensures !s.phase.Started? ==> Apply(s, SwapToStopped(i)) == s
    ensures s.phase.Started? ==>
              var a := Apply(s, SwapToStopped(i));
              && Enabled(a, ReturnFromStop(i))
              && Apply(a, ReturnFromStop(i)) == s.(phase := Stopped, stopRuns := 1)
  {
    if s.phase.Started? {
      var b := Apply(Apply(s, SwapToStopped(i)), ReturnFromStop(i));
      assert b.callers == s.callers;
    }
  }
}
