/** The task manager's permit protocol (pkg/taskmgr/taskmgr.go).

    Every server instance checks a task periodically. It reads the task's permit from a shared store,
    decides from the permit's age whether to run the task, and if so overwrites the permit and starts the
    task in a goroutine, which writes the permit once more when the task has finished. There is no
    compare-and-swap. The model interleaves any number of instances; each access to the store, the clock
    or the `running` flag is one step. One task with one registration per instance is modelled. */
module TaskManager {
  import opened Common

  /** Durations and clock readings are in nanoseconds. */
  const SECOND: int := 1_000_000_000

  const DEFAULT_CHECK_INTERVAL: int := 10 * SECOND

  datatype Status = IdleStatus | RunningStatus

  datatype Permit = Permit(holder: nat, status: Status, updatedTime: int)

  /** The check interval passed to `New` and the interval the task was registered with. */
  datatype Config = Config(requested: int, taskInterval: int) {
    function CheckInterval(): (d: int)
      ensures d > 0
    {
      if requested <= 0 then DEFAULT_CHECK_INTERVAL else requested
    }
  }

  /** Go's Duration.Truncate: round toward zero to a multiple of `m`. */
  function Truncate(d: int, m: int): int
    requires m > 0
  {
    if d >= 0 then d - d % m else d + (-d) % m
  }

  /** time.Now().Unix() */
  function Unix(clock: nat): nat {
    clock / SECOND
  }

  /** time.Since(time.Unix(updatedTime, 0)).Truncate(time.Second) */
  function Age(clock: nat, p: Permit): int {
    Truncate(clock - p.updatedTime * SECOND, SECOND)
  }

  /** For a permit that is not from the future the age is the difference of whole-second stamps. */
  lemma AgeIsSecondDifference(clock: nat, p: Permit)
    requires p.updatedTime <= Unix(clock)
    ensures Age(clock, p) == (Unix(clock) - p.updatedTime) * SECOND
  {
    assert clock - p.updatedTime * SECOND >= 0;
  }

  /** `shouldRun` for the permit that was read. */
  predicate ShouldRun(cfg: Config, self: nat, permit: Option<Permit>, clock: nat) {
    match permit
    case None => true
    case Some(p) =>
      if p.holder == self then
        !(Age(clock, p) < cfg.taskInterval)
      else
        Age(clock, p) > cfg.CheckInterval() + cfg.taskInterval
  }

  // ---------------------------------------------------------------------------------------------
  // The cluster as a state machine

  /** Where an instance's check loop is. `launchesSeen` and `readAt` are history: the launches made before the
      read, and the second of the read. */
  datatype Check =
    | Idle
    | Refreshing                                              // the task runs: about to renew the permit
    | Reading
    | Deciding(snapshot: Option<Permit>, launchesSeen: nat, readAt: nat)
    | Granted(launchesSeen: nat)                              // about to take the permit and launch

  /** A goroutine started for the task, from before the flag's compare-and-swap to after the idle write. */
  datatype Task = Spawned | InHandle | HandleReturned | Unflagged | Exited

  datatype Instance = Instance(check: Check, running: bool, tasks: seq<Task>)

  /** A launch: who, how many launches preceded the read it rests on, and the stamp it wrote. */
  datatype Launch = Launch(instance: nat, launchesSeen: nat, stamp: nat)

  /** `launches` and `checkedAt` (the second of each instance's last completed check) are history. */
  datatype State = State(
    clock: nat,
    permit: Option<Permit>,
    instances: seq<Instance>,
    launches: seq<Launch>,
    checkedAt: seq<nat>
  )

  datatype Step =
    | Tick(delta: nat)
    | BeginCheck(i: nat)               // load the running flag
    | Refresh(i: nat)
    | Read(i: nat)
    | Decide(i: nat)
    | Grant(i: nat)                    // stamp, Put, start the goroutine
    | AbandonCheck(i: nat)             // a Get or Put failed
    | Swap(i: nat, k: nat)             // compare-and-swap the running flag
    | FinishHandle(i: nat, k: nat)
    | ClearFlag(i: nat, k: nat)
    | WriteIdle(i: nat, k: nat)
    | FailIdle(i: nat, k: nat)

  predicate IsTask(s: State, i: nat, k: nat, task: Task) {
    i < |s.instances| && k < |s.instances[i].tasks| && s.instances[i].tasks[k] == task
  }

  predicate Enabled(s: State, step: Step) {
    match step
    case Tick(_) => true
    case BeginCheck(i) => i < |s.instances| && s.instances[i].check.Idle?
    case Refresh(i) => i < |s.instances| && s.instances[i].check.Refreshing?
    case Read(i) => i < |s.instances| && s.instances[i].check.Reading?
    case Decide(i) => i < |s.instances| && s.instances[i].check.Deciding?
    case Grant(i) => i < |s.instances| && s.instances[i].check.Granted?
    case AbandonCheck(i) => i < |s.instances|
    case Swap(i, k) => IsTask(s, i, k, Spawned)
    case FinishHandle(i, k) => IsTask(s, i, k, InHandle)
    case ClearFlag(i, k) => IsTask(s, i, k, HandleReturned)
    case WriteIdle(i, k) => IsTask(s, i, k, Unflagged)
    case FailIdle(i, k) => IsTask(s, i, k, Unflagged)
  }

  function SetCheck(s: State, i: nat, check: Check): State
    requires i < |s.instances|
  {
    s.(instances := s.instances[i := s.instances[i].(check := check)])
  }

  /** The check of instance i is complete. */
  function Completed(s: State, i: nat): State
    requires i < |s.instances| == |s.checkedAt|
  {
    SetCheck(s, i, Idle).(checkedAt := s.checkedAt[i := Unix(s.clock)])
  }

  function SetTask(s: State, i: nat, k: nat, running: bool, task: Task): State
    requires i < |s.instances| && k < |s.instances[i].tasks|
  {
    var n := s.instances[i];
    s.(instances := s.instances[i := n.(running := running, tasks := n.tasks[k := task])])
  }

  /** `updatePermit` */
  function UpdatePermit(s: State, i: nat, status: Status): State {
    s.(permit := Some(Permit(i, status, Unix(s.clock))))
  }

  function Apply(cfg: Config, s: State, step: Step): State
    requires |s.instances| == |s.checkedAt| && Enabled(s, step)
  {
    match step
    case Tick(d) => s.(clock := s.clock + d)
    case BeginCheck(i) => SetCheck(s, i, if s.instances[i].running then Refreshing else Reading)
    case Refresh(i) => Completed(UpdatePermit(s, i, RunningStatus), i)
    case Read(i) => SetCheck(s, i, Deciding(s.permit, |s.launches|, Unix(s.clock)))
    case Decide(i) =>
      var check := s.instances[i].check;
      if ShouldRun(cfg, i, check.snapshot, s.clock) then
        SetCheck(s, i, Granted(check.launchesSeen))
      else
        Completed(s, i)
    case Grant(i) =>
      var n := s.instances[i];
      var t := Completed(UpdatePermit(s, i, RunningStatus), i);
      t.(launches := s.launches + [Launch(i, n.check.launchesSeen, Unix(s.clock))],
         instances := t.instances[i := t.instances[i].(tasks := n.tasks + [Spawned])])
    case AbandonCheck(i) => SetCheck(s, i, Idle)
    case Swap(i, k) =>
      if s.instances[i].running then
        SetTask(s, i, k, true, Unflagged)
      else
        SetTask(s, i, k, true, InHandle)
    case FinishHandle(i, k) => SetTask(s, i, k, s.instances[i].running, HandleReturned)
    case ClearFlag(i, k) => SetTask(s, i, k, false, Unflagged)
    case WriteIdle(i, k) =>
      UpdatePermit(SetTask(s, i, k, s.instances[i].running, Exited), i, IdleStatus)
    case FailIdle(i, k) => SetTask(s, i, k, s.instances[i].running, Exited)
  }

  ghost predicate Runs(cfg: Config, s: State, steps: seq<Step>)
    requires |s.instances| == |s.checkedAt|
    decreases |steps|
  {
    steps == [] || (Enabled(s, steps[0]) && Runs(cfg, Apply(cfg, s, steps[0]), steps[1..]))
  }

  ghost function Exec(cfg: Config, s: State, steps: seq<Step>): State
    requires |s.instances| == |s.checkedAt| && Runs(cfg, s, steps)
    decreases |steps|
  {
    if steps == [] then s else Exec(cfg, Apply(cfg, s, steps[0]), steps[1..])
  }

  /** A fresh cluster: nobody checks, no task was launched, and no permit was written. */
  ghost predicate Initial(s: State) {
    && |s.instances| == |s.checkedAt|
    && s.permit == None
    && s.launches == []
    && forall i :: 0 <= i < |s.instances| ==> s.instances[i] == Instance(Idle, false, [])
  }

  // ---------------------------------------------------------------------------------------------
  // Spacing

  /** Stamp `later` is at least the task interval after stamp `earlier`, in whole-second time. */
  predicate Spaced(cfg: Config, earlier: int, later: int) {
    (later - earlier) * SECOND >= cfg.taskInterval
  }

  /** A permit (or the lack of one) that was read after the first `n` launches. */
  ghost predicate Covers(s: State, permit: Option<Permit>, n: nat) {
    && n <= |s.launches|
    && (n > 0 ==> permit.Some?)
    && (permit.Some? ==>
          && permit.value.updatedTime <= Unix(s.clock)
          && StampedBy(s.launches, n, permit.value.updatedTime))
  }

  /** The first `n` launches are stamped `time` or earlier. */
  ghost predicate StampedBy(launches: seq<Launch>, n: nat, time: int)
    requires n <= |launches|
  {
    forall j :: 0 <= j < n ==> launches[j].stamp <= time
  }

  ghost predicate CheckInv(cfg: Config, s: State, check: Check) {
    match check
    case Deciding(snapshot, n, _) => Covers(s, snapshot, n)
    case Granted(n) =>
      n <= |s.launches| && forall j :: 0 <= j < n ==> Spaced(cfg, s.launches[j].stamp, Unix(s.clock))
    case _ => true
  }

  /** Launch k is spaced from every launch its read could see. */
  ghost predicate LaunchInv(cfg: Config, launches: seq<Launch>, k: nat)
    requires k < |launches|
  {
    && launches[k].launchesSeen <= k
    && forall j :: 0 <= j < launches[k].launchesSeen ==>
         Spaced(cfg, launches[j].stamp, launches[k].stamp)
  }

  ghost predicate SpacingInv(cfg: Config, s: State) {
    && |s.instances| == |s.checkedAt|
    && Covers(s, s.permit, |s.launches|)
    && (forall i :: 0 <= i < |s.instances| ==> CheckInv(cfg, s, s.instances[i].check))
    && forall k :: 0 <= k < |s.launches| ==> LaunchInv(cfg, s.launches, k)
  }

  /** Whoever decides to run sees an age of at least the task interval, holder or not. */
  lemma DecisionIsSpaced(cfg: Config, self: nat, p: Permit, clock: nat)
    requires p.updatedTime <= Unix(clock) && ShouldRun(cfg, self, Some(p), clock)
    ensures Spaced(cfg, p.updatedTime, Unix(clock))
  {
    AgeIsSecondDifference(clock, p);
  }

  lemma UnixIsMonotone(clock: nat, d: nat)
    ensures Unix(clock) <= Unix(clock + d)
  {
  }

  /** Time passes and launches are only added. */
  ghost predicate Grows(s: State, t: State) {
    && Unix(s.clock) <= Unix(t.clock)
    && |s.launches| <= |t.launches|
    && forall j :: 0 <= j < |s.launches| ==> t.launches[j] == s.launches[j]
  }

  lemma StepGrows(cfg: Config, s: State, step: Step)
    requires |s.instances| == |s.checkedAt| && Enabled(s, step)
    ensures Grows(s, Apply(cfg, s, step))
  {
    if step.Tick? {
      UnixIsMonotone(s.clock, step.delta);
    }
  }

  lemma CoversGrows(s: State, t: State, permit: Option<Permit>, n: nat)
    requires Grows(s, t) && Covers(s, permit, n)
    ensures Covers(t, permit, n)
  {
    if permit.Some? {
      forall j | 0 <= j < n ensures t.launches[j].stamp <= permit.value.updatedTime {
        assert t.launches[j] == s.launches[j];
      }
    }
  }

  lemma CheckInvGrows(cfg: Config, s: State, t: State, check: Check)
    requires Grows(s, t) && CheckInv(cfg, s, check)
    ensures CheckInv(cfg, t, check)
  {
    match check
    case Deciding(snapshot, n, _) => CoversGrows(s, t, snapshot, n);
    case Granted(n) =>
      forall j | 0 <= j < n ensures Spaced(cfg, t.launches[j].stamp, Unix(t.clock)) {
        assert Spaced(cfg, s.launches[j].stamp, Unix(s.clock));
      }
    case _ =>
  }

  lemma SpacingOfPermit(cfg: Config, s: State, step: Step)
    requires SpacingInv(cfg, s) && Enabled(s, step)
    ensures var t := Apply(cfg, s, step); Covers(t, t.permit, |t.launches|)
  {
    StepGrows(cfg, s, step);
    CoversGrows(s, Apply(cfg, s, step), s.permit, |s.launches|);
  }

  lemma DecideGrants(cfg: Config, s: State, i: nat)
    requires SpacingInv(cfg, s) && Enabled(s, Decide(i))
    requires ShouldRun(cfg, i, s.instances[i].check.snapshot, s.clock)
    ensures CheckInv(cfg, s, Granted(s.instances[i].check.launchesSeen))
  {
    var check := s.instances[i].check;
    assert CheckInv(cfg, s, check);
    if check.snapshot.Some? {
      DecisionIsSpaced(cfg, i, check.snapshot.value, s.clock);
    }
  }

  lemma SpacingOfCheck(cfg: Config, s: State, step: Step, i: nat)
    requires SpacingInv(cfg, s) && Enabled(s, step) && i < |s.instances|
    ensures var t := Apply(cfg, s, step); CheckInv(cfg, t, t.instances[i].check)
  {
    var t := Apply(cfg, s, step);
    assert CheckInv(cfg, s, s.instances[i].check);
    StepGrows(cfg, s, step);
    CheckInvGrows(cfg, s, t, s.instances[i].check);
    if step.Decide? && ShouldRun(cfg, step.i, s.instances[step.i].check.snapshot, s.clock) {
      DecideGrants(cfg, s, step.i);
    }
  }

  lemma SpacingOfLaunch(cfg: Config, s: State, step: Step, k: nat)
    requires SpacingInv(cfg, s) && Enabled(s, step) && k < |Apply(cfg, s, step).launches|
    ensures LaunchInv(cfg, Apply(cfg, s, step).launches, k)
  {
    StepGrows(cfg, s, step);
    if k < |s.launches| {
      assert LaunchInv(cfg, s.launches, k);
    } else {
      assert CheckInv(cfg, s, s.instances[step.i].check);
    }
  }

  lemma SpacingStep(cfg: Config, s: State, step: Step)
    requires SpacingInv(cfg, s) && Enabled(s, step)
    ensures SpacingInv(cfg, Apply(cfg, s, step))
  {
    var t := Apply(cfg, s, step);
    SpacingOfPermit(cfg, s, step);
    forall i | 0 <= i < |t.instances| ensures CheckInv(cfg, t, t.instances[i].check) {
      SpacingOfCheck(cfg, s, step, i);
    }
    forall k | 0 <= k < |t.launches| ensures LaunchInv(cfg, t.launches, k) {
      SpacingOfLaunch(cfg, s, step, k);
    }
  }

  lemma {:induction false} SpacingRun(cfg: Config, s: State, steps: seq<Step>)
    requires SpacingInv(cfg, s) && Runs(cfg, s, steps)
    ensures SpacingInv(cfg, Exec(cfg, s, steps))
    decreases |steps|
  {
    if steps != [] {
      SpacingStep(cfg, s, steps[0]);
      SpacingRun(cfg, Apply(cfg, s, steps[0]), steps[1..]);
    }
  }

  /** Cluster-wide spacing: in every run, on any instances, a launch that read the permit after an
      earlier launch had written it comes at least the task interval after that launch. */
  lemma LaunchesAreSpaced(cfg: Config, s0: State, steps: seq<Step>, j: nat, k: nat)
    requires Initial(s0) && Runs(cfg, s0, steps)
    requires k < |Exec(cfg, s0, steps).launches|
    requires j < Exec(cfg, s0, steps).launches[k].launchesSeen
    ensures var launches := Exec(cfg, s0, steps).launches;
            && j < k
            && Spaced(cfg, launches[j].stamp, launches[k].stamp)
  {
    SpacingRun(cfg, s0, steps);
    assert LaunchInv(cfg, Exec(cfg, s0, steps).launches, k);
  }

  /** No launch was made between a launch's permit read and its own permit write. */
  ghost predicate ChecksAreAtomic(launches: seq<Launch>) {
    forall k :: 0 <= k < |launches| ==> launches[k].launchesSeen == k
  }

  /** If checks are atomic, any two launches in the whole cluster are at least the task interval apart. */
  lemma AtomicLaunchesAreSpaced(cfg: Config, s0: State, steps: seq<Step>, j: nat, k: nat)
    requires Initial(s0) && Runs(cfg, s0, steps)
    requires ChecksAreAtomic(Exec(cfg, s0, steps).launches)
    requires j < k < |Exec(cfg, s0, steps).launches|
    ensures var launches := Exec(cfg, s0, steps).launches;
            Spaced(cfg, launches[j].stamp, launches[k].stamp)
  {
    LaunchesAreSpaced(cfg, s0, steps, j, k);
  }

  /** Without atomic checks two instances can launch at the same instant: both read before either writes. */
  lemma RacingLaunches(cfg: Config)
    ensures exists s0, steps ::
              && Initial(s0) && Runs(cfg, s0, steps)
              && Exec(cfg, s0, steps).launches == [Launch(0, 0, 0), Launch(1, 0, 0)]
  {
    var free := Instance(Idle, false, []);
    var s0 := State(0, None, [free, free], [], [0, 0]);
    var a := Apply(cfg, s0, BeginCheck(0));
    var b := Apply(cfg, a, BeginCheck(1));
    var c := Apply(cfg, b, Read(0));
    var d := Apply(cfg, c, Read(1));
    var e := Apply(cfg, d, Decide(0));
    var f := Apply(cfg, e, Decide(1));
    var g := Apply(cfg, f, Grant(0));
    assert g.instances[1].check == Granted(0);
    var steps := RunsCons(cfg, g, Grant(1), []);
    steps := RunsCons(cfg, f, Grant(0), steps);
    steps := RunsCons(cfg, e, Decide(1), steps);
    steps := RunsCons(cfg, d, Decide(0), steps);
    steps := RunsCons(cfg, c, Read(1), steps);
    steps := RunsCons(cfg, b, Read(0), steps);
    steps := RunsCons(cfg, a, BeginCheck(1), steps);
    steps := RunsCons(cfg, s0, BeginCheck(0), steps);
    assert Initial(s0);
  }

  lemma RunsCons(cfg: Config, s: State, step: Step, rest: seq<Step>) returns (steps: seq<Step>)
    requires |s.instances| == |s.checkedAt| && Enabled(s, step)
    requires Runs(cfg, Apply(cfg, s, step), rest)
    ensures steps == [step] + rest && Runs(cfg, s, steps)
    ensures Exec(cfg, s, steps) == Exec(cfg, Apply(cfg, s, step), rest)
  {
    steps := [step] + rest;
    assert steps[1..] == rest;
  }

  // ---------------------------------------------------------------------------------------------
  // Stable leadership

  /** The configuration in whole seconds. */
  ghost predicate WholeSeconds(cfg: Config, checkSeconds: int, taskSeconds: int) {
    cfg.CheckInterval() == checkSeconds * SECOND && cfg.taskInterval == taskSeconds * SECOND
  }

  /** The leader is on time: instance `a` completes a check, with the write that check calls for, at least
      every S + 1 seconds. */
  ghost predicate OnTime(checkSeconds: int, a: nat, s: State, step: Step)
    requires a < |s.checkedAt|
  {
    step.Tick? ==> Unix(s.clock + step.delta) - s.checkedAt[a] <= checkSeconds + 1
  }

  /** A follower is prompt if it reads the clock to decide at most `delay` seconds after its Get. */
  ghost predicate Prompt(delay: int, a: nat, s: State, step: Step)
    requires Enabled(s, step)
  {
    step.Decide? && step.i != a ==> Unix(s.clock) <= s.instances[step.i].check.readAt + delay
  }

  /** A follower is not overtaken if the permit was not overwritten between its Get and its decision. */
  ghost predicate NotOvertaken(a: nat, s: State, step: Step)
    requires Enabled(s, step)
  {
    step.Decide? && step.i != a ==> s.instances[step.i].check.snapshot == s.permit
  }

  ghost predicate AllOnTime(cfg: Config, checkSeconds: int, a: nat, s: State, steps: seq<Step>)
    requires |s.instances| == |s.checkedAt| && a < |s.checkedAt| && Runs(cfg, s, steps)
    decreases |steps|
  {
    steps == [] ||
    (OnTime(checkSeconds, a, s, steps[0]) &&
     AllOnTime(cfg, checkSeconds, a, Apply(cfg, s, steps[0]), steps[1..]))
  }

  ghost predicate AllPrompt(cfg: Config, delay: int, a: nat, s: State, steps: seq<Step>)
    requires |s.instances| == |s.checkedAt| && Runs(cfg, s, steps)
    decreases |steps|
  {
    steps == [] ||
    (Prompt(delay, a, s, steps[0]) && AllPrompt(cfg, delay, a, Apply(cfg, s, steps[0]), steps[1..]))
  }

  /** Every decision of a follower is made in the second of its Get, or on the permit that is still stored. */
  ghost predicate AllFresh(cfg: Config, a: nat, s: State, steps: seq<Step>)
    requires |s.instances| == |s.checkedAt| && Runs(cfg, s, steps)
    decreases |steps|
  {
    steps == [] ||
    ((Prompt(0, a, s, steps[0]) || NotOvertaken(a, s, steps[0])) &&
     AllFresh(cfg, a, Apply(cfg, s, steps[0]), steps[1..]))
  }

  /** Instance i is not between its permit read and its idle write. */
  ghost predicate Quiet(n: Instance) {
    && (n.check.Idle? || n.check.Reading?)
    && !n.running
    && forall k :: 0 <= k < |n.tasks| ==> n.tasks[k].Exited?
  }

  /** `a` has just written the permit and finished its check; every other instance is quiet. */
  ghost predicate Elected(checkSeconds: int, a: nat, s: State) {
    && |s.instances| == |s.checkedAt| && a < |s.instances|
    && s.permit.Some? && s.permit.value.holder == a && s.permit.value.updatedTime == Unix(s.clock)
    && s.instances[a].check.Idle?
    && s.checkedAt[a] <= Unix(s.clock) <= s.checkedAt[a] + checkSeconds + 1
    && forall i :: 0 <= i < |s.instances| && i != a ==> Quiet(s.instances[i])
  }

  /** What a follower can be doing: it holds no grant, and any permit it holds is the leader's and was young
      enough when it was read. */
  ghost predicate Follower(checkSeconds: int, taskSeconds: int, a: nat, n: Instance) {
    && !n.running
    && (forall k :: 0 <= k < |n.tasks| ==> n.tasks[k].Exited?)
    && (n.check.Idle? || n.check.Reading? ||
        (n.check.Deciding? && YoungWhenRead(checkSeconds, taskSeconds, a, n.check)))
  }

  ghost predicate YoungWhenRead(checkSeconds: int, taskSeconds: int, a: nat, check: Check)
    requires check.Deciding?
  {
    && check.snapshot.Some? && check.snapshot.value.holder == a
    && check.snapshot.value.updatedTime <= check.readAt
    && check.readAt - check.snapshot.value.updatedTime <= checkSeconds + taskSeconds
  }

  ghost predicate LeaderInv(checkSeconds: int, taskSeconds: int, a: nat, s: State) {
    && |s.instances| == |s.checkedAt| && a < |s.instances|
    && s.permit.Some? && s.permit.value.holder == a
    && var stamp, now, checked := s.permit.value.updatedTime, Unix(s.clock), s.checkedAt[a];
    && stamp <= now && checked <= now <= checked + checkSeconds + 1
    && checked < stamp + taskSeconds
    && (s.instances[a].check.Deciding? ==>
          var snapshot := s.instances[a].check.snapshot;
          snapshot.Some? && snapshot.value.holder == a && snapshot.value.updatedTime <= stamp)
    && (forall i :: 0 <= i < |s.instances| && i != a ==> Follower(checkSeconds, taskSeconds, a, s.instances[i]))
    && forall i :: 0 <= i < |s.instances| && s.instances[i].check.Deciding? ==> s.instances[i].check.readAt <= now
  }

  /** A permit that is at most S + T seconds old is left alone by a follower. */
  lemma YoungPermitIsLeftAlone(cfg: Config, checkSeconds: int, taskSeconds: int, i: nat, p: Permit, clock: nat)
    requires WholeSeconds(cfg, checkSeconds, taskSeconds) && p.holder != i
    requires p.updatedTime <= Unix(clock) <= p.updatedTime + checkSeconds + taskSeconds
    ensures !ShouldRun(cfg, i, Some(p), clock)
  {
    AgeIsSecondDifference(clock, p);
  }

  /** A follower that decides in the second of its Get, or on the permit that is still stored, stands back. */
  lemma FollowerStandsBack(cfg: Config, checkSeconds: int, taskSeconds: int, a: nat, i: nat, s: State)
    requires WholeSeconds(cfg, checkSeconds, taskSeconds) && LeaderInv(checkSeconds, taskSeconds, a, s)
    requires i < |s.instances| && i != a && s.instances[i].check.Deciding?
    requires Prompt(0, a, s, Decide(i)) || NotOvertaken(a, s, Decide(i))
    ensures !ShouldRun(cfg, i, s.instances[i].check.snapshot, s.clock)
  {
    assert Follower(checkSeconds, taskSeconds, a, s.instances[i]);
    YoungPermitIsLeftAlone(cfg, checkSeconds, taskSeconds, i, s.instances[i].check.snapshot.value, s.clock);
  }

  /** If the leader decides not to run, its permit is younger than the task interval. */
  lemma LeaderWaits(cfg: Config, checkSeconds: int, taskSeconds: int, a: nat, s: State)
    requires WholeSeconds(cfg, checkSeconds, taskSeconds)
    requires LeaderInv(checkSeconds, taskSeconds, a, s) && s.instances[a].check.Deciding?
    requires !ShouldRun(cfg, a, s.instances[a].check.snapshot, s.clock)
    ensures Unix(s.clock) < s.permit.value.updatedTime + taskSeconds
  {
    AgeIsSecondDifference(s.clock, s.instances[a].check.snapshot.value);
  }

  lemma FollowerStep(cfg: Config, checkSeconds: int, taskSeconds: int, a: nat, s: State, step: Step, i: nat)
    requires WholeSeconds(cfg, checkSeconds, taskSeconds)
    requires LeaderInv(checkSeconds, taskSeconds, a, s) && Enabled(s, step)
    requires Prompt(0, a, s, step) || NotOvertaken(a, s, step)
    requires i < |s.instances| && i != a
    ensures Follower(checkSeconds, taskSeconds, a, Apply(cfg, s, step).instances[i])
  {
    assert Follower(checkSeconds, taskSeconds, a, s.instances[i]);
    if step == Decide(i) {
      FollowerStandsBack(cfg, checkSeconds, taskSeconds, a, i, s);
    }
  }

  /** Every step keeps the leader's invariant, if the leader is on time and followers decide promptly or on
      the stored permit; and only the leader launches. */
  lemma LeaderStep(cfg: Config, checkSeconds: int, taskSeconds: int, a: nat, s: State, step: Step)
    requires WholeSeconds(cfg, checkSeconds, taskSeconds) && taskSeconds >= 1
    requires LeaderInv(checkSeconds, taskSeconds, a, s) && Enabled(s, step)
    requires OnTime(checkSeconds, a, s, step)
    requires Prompt(0, a, s, step) || NotOvertaken(a, s, step)
    ensures LeaderInv(checkSeconds, taskSeconds, a, Apply(cfg, s, step))
    ensures Apply(cfg, s, step).launches == s.launches || step == Grant(a)
  {
    var t := Apply(cfg, s, step);
    forall i | 0 <= i < |t.instances| && i != a
      ensures Follower(checkSeconds, taskSeconds, a, t.instances[i])
    {
      FollowerStep(cfg, checkSeconds, taskSeconds, a, s, step, i);
    }
    if !step.Tick? && step.i != a {
      assert Follower(checkSeconds, taskSeconds, a, s.instances[step.i]);
    }
    if step.Tick? {
      UnixIsMonotone(s.clock, step.delta);
    } else if step == Decide(a) && !ShouldRun(cfg, a, s.instances[a].check.snapshot, s.clock) {
      LeaderWaits(cfg, checkSeconds, taskSeconds, a, s);
    }
  }

  /** Every launch from index `from` on is by instance `a`. */
  ghost predicate LaunchedBy(a: nat, launches: seq<Launch>, from: nat) {
    forall k :: from <= k < |launches| ==> launches[k].instance == a
  }

  lemma {:induction false} LeaderRun(cfg: Config, checkSeconds: int, taskSeconds: int, a: nat,
                                     s: State, steps: seq<Step>, from: nat)
    requires WholeSeconds(cfg, checkSeconds, taskSeconds) && taskSeconds >= 1
    requires LeaderInv(checkSeconds, taskSeconds, a, s) && LaunchedBy(a, s.launches, from)
    requires Runs(cfg, s, steps)
    requires AllOnTime(cfg, checkSeconds, a, s, steps) && AllFresh(cfg, a, s, steps)
    ensures var t := Exec(cfg, s, steps);
            LeaderInv(checkSeconds, taskSeconds, a, t) && LaunchedBy(a, t.launches, from)
    decreases |steps|
  {
    if steps != [] {
      LeaderStep(cfg, checkSeconds, taskSeconds, a, s, steps[0]);
      LeaderRun(cfg, checkSeconds, taskSeconds, a, Apply(cfg, s, steps[0]), steps[1..], from);
    }
  }

  /** The permit names `a`, and every launch since the first `from` is by `a`. */
  ghost predicate LedBy(a: nat, s: State, from: nat) {
    s.permit.Some? && s.permit.value.holder == a && LaunchedBy(a, s.launches, from)
  }

  /** Stable leadership: once `a` is elected and stays on time, over every run in which each follower decides in
      the second of its Get or on the permit that is still stored, the permit always names `a` and every
      further launch is made by `a`. */
  lemma LeadershipIsStable(cfg: Config, checkSeconds: int, taskSeconds: int, a: nat,
                           s: State, steps: seq<Step>)
    requires WholeSeconds(cfg, checkSeconds, taskSeconds) && taskSeconds >= 1
    requires Elected(checkSeconds, a, s)
    requires Runs(cfg, s, steps)
    requires AllOnTime(cfg, checkSeconds, a, s, steps) && AllFresh(cfg, a, s, steps)
    ensures LedBy(a, Exec(cfg, s, steps), |s.launches|)
  {
    LeaderRun(cfg, checkSeconds, taskSeconds, a, s, steps, |s.launches|);
  }

  lemma {:induction false} PromptIsFresh(cfg: Config, a: nat, s: State, steps: seq<Step>)
    requires |s.instances| == |s.checkedAt| && Runs(cfg, s, steps) && AllPrompt(cfg, 0, a, s, steps)
    ensures AllFresh(cfg, a, s, steps)
    decreases |steps|
  {
    if steps != [] {
      PromptIsFresh(cfg, a, Apply(cfg, s, steps[0]), steps[1..]);
    }
  }

  // ---------------------------------------------------------------------------------------------
  // Exactly how prompt followers must be

  /** Every on-time run from an election, with followers at most `delay` seconds late, keeps the leader. */
  ghost predicate LeadershipHolds(cfg: Config, checkSeconds: int, delay: nat) {
    forall a, s, steps :: AdmissibleRun(cfg, checkSeconds, delay, a, s, steps) ==>
      LedBy(a, Exec(cfg, s, steps), |s.launches|)
  }

  ghost predicate AdmissibleRun(cfg: Config, checkSeconds: int, delay: nat, a: nat, s: State, steps: seq<Step>) {
    && Elected(checkSeconds, a, s) && Runs(cfg, s, steps)
    && AllOnTime(cfg, checkSeconds, a, s, steps) && AllPrompt(cfg, delay, a, s, steps)
  }

  /** The exact condition on the schedule: for every check interval and every task interval of whole seconds,
      leadership is stable in all on-time runs if and only if followers decide in the second of their Get. One
      second of delay is too much. */
  lemma LeadershipHoldsIffPrompt(cfg: Config, checkSeconds: int, taskSeconds: int, delay: nat)
    requires WholeSeconds(cfg, checkSeconds, taskSeconds) && taskSeconds >= 1
    ensures LeadershipHolds(cfg, checkSeconds, delay) <==> delay == 0
  {
    if delay == 0 {
      forall a, s, steps | AdmissibleRun(cfg, checkSeconds, delay, a, s, steps)
        ensures LedBy(a, Exec(cfg, s, steps), |s.launches|)
      {
        PromptIsFresh(cfg, a, s, steps);
        LeadershipIsStable(cfg, checkSeconds, taskSeconds, a, s, steps);
      }
    } else {
      var s, steps := LateFollowerTakesOver(cfg, checkSeconds, taskSeconds, delay);
      assert AdmissibleRun(cfg, checkSeconds, delay, 0, s, steps);
    }
  }

  /** A run from `s` with instance 0 on time and followers at most `delay` late that ends in `t`. */
  ghost predicate Leads(cfg: Config, checkSeconds: int, delay: nat, s: State, steps: seq<Step>, t: State) {
    && |s.instances| == |s.checkedAt| && 0 < |s.checkedAt|
    && Runs(cfg, s, steps) && AllOnTime(cfg, checkSeconds, 0, s, steps) && AllPrompt(cfg, delay, 0, s, steps)
    && Exec(cfg, s, steps) == t
  }

  lemma LeadsBy(cfg: Config, checkSeconds: int, delay: nat, s: State, step: Step, u: State, rest: seq<Step>, t: State)
    returns (steps: seq<Step>)
    requires |s.instances| == |s.checkedAt| && 0 < |s.checkedAt| && Enabled(s, step) && Apply(cfg, s, step) == u
    requires OnTime(checkSeconds, 0, s, step) && Prompt(delay, 0, s, step)
    requires Leads(cfg, checkSeconds, delay, u, rest, t)
    ensures Leads(cfg, checkSeconds, delay, s, steps, t)
  {
    steps := [step] + rest;
    assert steps[1..] == rest;
  }

  /** The leader's permit from second 0 is `age` seconds old; the leader, which last completed a check in second
      `checked`, and the follower are where `leader` and `follower` say. */
  function TwoInstances(age: nat, checked: nat, leader: Check, follower: Check): State {
    State(age * SECOND, Some(Permit(0, IdleStatus, 0)),
          [Instance(leader, false, []), Instance(follower, false, [])], [], [checked, 0])
  }

  /** The leader has just renewed its permit in second `now` and launched the task. */
  function Renewed(now: nat, clock: nat, follower: Check): State {
    State(clock, Some(Permit(0, RunningStatus, now)),
          [Instance(Idle, false, [Spawned]), Instance(follower, false, [])], [Launch(0, 0, now)], [now, 0])
  }

  /** For every S and T: the leader's permit is stamped 0 and the leader checks until second T - 1, too early to
      run. In second S + T the follower reads the permit, which is just young enough, and the leader, still on
      time, renews it. One second later the follower decides on what it has read, and takes the permit. */
  lemma LateFollowerTakesOver(cfg: Config, checkSeconds: int, taskSeconds: int, delay: nat)
    returns (s: State, steps: seq<Step>)
    requires WholeSeconds(cfg, checkSeconds, taskSeconds) && taskSeconds >= 1 && delay >= 1
    ensures AdmissibleRun(cfg, checkSeconds, delay, 0, s, steps)
    ensures var t := Exec(cfg, s, steps);
            && t.permit == Some(Permit(1, RunningStatus, checkSeconds + taskSeconds + 1))
            && !LedBy(0, t, |s.launches|)
  {
    s := TwoInstances(0, 0, Idle, Idle);
    var t;
    steps, t := AfterRenewal(cfg, checkSeconds, taskSeconds, delay);
    steps := Renewal(cfg, checkSeconds, taskSeconds, delay, steps, t);
    steps := FollowerReads(cfg, checkSeconds, taskSeconds, delay, steps, t);
    steps := EarlyChecks(cfg, checkSeconds, taskSeconds, delay, 0, steps, t);
    SecondsOf(0);
    assert Elected(checkSeconds, 0, s);
  }

  lemma SecondsOf(n: nat)
    ensures Unix(n * SECOND) == n
  {
  }

  /** How the two decide on the permit from second 0 when it is `age` seconds old. */
  lemma DecisionAt(cfg: Config, checkSeconds: int, taskSeconds: int, age: nat)
    requires WholeSeconds(cfg, checkSeconds, taskSeconds)
    ensures ShouldRun(cfg, 0, Some(Permit(0, IdleStatus, 0)), age * SECOND) <==> age >= taskSeconds
    ensures ShouldRun(cfg, 1, Some(Permit(0, IdleStatus, 0)), age * SECOND) <==> age > checkSeconds + taskSeconds
  {
    SecondsOf(age);
    AgeIsSecondDifference(age * SECOND, Permit(0, IdleStatus, 0));
  }

  /** What an instance holds that read the permit from second 0 in second `now`. */
  function HasRead(now: nat): Check {
    Deciding(Some(Permit(0, IdleStatus, 0)), 0, now)
  }

  /** One check of the leader in the next second, too early to run. */
  lemma EarlyCheck(cfg: Config, checkSeconds: int, taskSeconds: int, delay: nat, c: nat, rest: seq<Step>, t: State)
    returns (steps: seq<Step>)
    requires WholeSeconds(cfg, checkSeconds, taskSeconds) && c + 1 < taskSeconds
    requires Leads(cfg, checkSeconds, delay, TwoInstances(c + 1, c + 1, Idle, Idle), rest, t)
    ensures Leads(cfg, checkSeconds, delay, TwoInstances(c, c, Idle, Idle), steps, t)
  {
    SecondsOf(c);
    SecondsOf(c + 1);
    DecisionAt(cfg, checkSeconds, taskSeconds, c + 1);
    steps := LeadsBy(cfg, checkSeconds, delay, TwoInstances(c + 1, c, HasRead(c + 1), Idle), Decide(0),
                     TwoInstances(c + 1, c + 1, Idle, Idle), rest, t);
    steps := LeadsBy(cfg, checkSeconds, delay, TwoInstances(c + 1, c, Reading, Idle), Read(0),
                     TwoInstances(c + 1, c, HasRead(c + 1), Idle), steps, t);
    steps := LeadsBy(cfg, checkSeconds, delay, TwoInstances(c + 1, c, Idle, Idle), BeginCheck(0),
                     TwoInstances(c + 1, c, Reading, Idle), steps, t);
    steps := LeadsBy(cfg, checkSeconds, delay, TwoInstances(c, c, Idle, Idle), Tick(SECOND),
                     TwoInstances(c + 1, c, Idle, Idle), steps, t);
  }

  lemma {:induction false} EarlyChecks(cfg: Config, checkSeconds: int, taskSeconds: int, delay: nat, c: nat,
                                       rest: seq<Step>, t: State)
    returns (steps: seq<Step>)
    requires WholeSeconds(cfg, checkSeconds, taskSeconds) && c < taskSeconds
    requires Leads(cfg, checkSeconds, delay, TwoInstances(taskSeconds - 1, taskSeconds - 1, Idle, Idle), rest, t)
    ensures Leads(cfg, checkSeconds, delay, TwoInstances(c, c, Idle, Idle), steps, t)
    decreases taskSeconds - c
  {
    if c == taskSeconds - 1 {
      steps := rest;
    } else {
      steps := EarlyChecks(cfg, checkSeconds, taskSeconds, delay, c + 1, rest, t);
      steps := EarlyCheck(cfg, checkSeconds, taskSeconds, delay, c, steps, t);
    }
  }

  lemma FollowerReads(cfg: Config, checkSeconds: int, taskSeconds: int, delay: nat, rest: seq<Step>, t: State)
    returns (steps: seq<Step>)
    requires WholeSeconds(cfg, checkSeconds, taskSeconds) && taskSeconds >= 1
    requires var now := checkSeconds + taskSeconds;
             Leads(cfg, checkSeconds, delay, TwoInstances(now, taskSeconds - 1, Idle, HasRead(now)), rest, t)
    ensures Leads(cfg, checkSeconds, delay, TwoInstances(taskSeconds - 1, taskSeconds - 1, Idle, Idle), steps, t)
  {
    var now, c := checkSeconds + taskSeconds, taskSeconds - 1;
    SecondsOf(now);
    SecondsOf(c);
    steps := LeadsBy(cfg, checkSeconds, delay, TwoInstances(now, c, Idle, Reading), Read(1),
                     TwoInstances(now, c, Idle, HasRead(now)), rest, t);
    steps := LeadsBy(cfg, checkSeconds, delay, TwoInstances(now, c, Idle, Idle), BeginCheck(1),
                     TwoInstances(now, c, Idle, Reading), steps, t);
    steps := LeadsBy(cfg, checkSeconds, delay, TwoInstances(c, c, Idle, Idle), Tick((checkSeconds + 1) * SECOND),
                     TwoInstances(now, c, Idle, Idle), steps, t);
  }

  lemma Renewal(cfg: Config, checkSeconds: int, taskSeconds: int, delay: nat, rest: seq<Step>, t: State)
    returns (steps: seq<Step>)
    requires WholeSeconds(cfg, checkSeconds, taskSeconds) && taskSeconds >= 1
    requires var now := checkSeconds + taskSeconds;
             Leads(cfg, checkSeconds, delay, Renewed(now, now * SECOND, HasRead(now)), rest, t)
    ensures var now := checkSeconds + taskSeconds;
            Leads(cfg, checkSeconds, delay, TwoInstances(now, taskSeconds - 1, Idle, HasRead(now)), steps, t)
  {
    var now, c := checkSeconds + taskSeconds, taskSeconds - 1;
    var f := HasRead(now);
    SecondsOf(now);
    DecisionAt(cfg, checkSeconds, taskSeconds, now);
    LeaderGrant(cfg, now, c, f);
    steps := LeadsBy(cfg, checkSeconds, delay, TwoInstances(now, c, Granted(0), f), Grant(0),
                     Renewed(now, now * SECOND, f), rest, t);
    steps := LeadsBy(cfg, checkSeconds, delay, TwoInstances(now, c, HasRead(now), f), Decide(0),
                     TwoInstances(now, c, Granted(0), f), steps, t);
    steps := LeadsBy(cfg, checkSeconds, delay, TwoInstances(now, c, Reading, f), Read(0),
                     TwoInstances(now, c, HasRead(now), f), steps, t);
    steps := LeadsBy(cfg, checkSeconds, delay, TwoInstances(now, c, Idle, f), BeginCheck(0),
                     TwoInstances(now, c, Reading, f), steps, t);
  }

  lemma LeaderGrant(cfg: Config, now: nat, checked: nat, follower: Check)
    ensures Apply(cfg, TwoInstances(now, checked, Granted(0), follower), Grant(0))
            == Renewed(now, now * SECOND, follower)
  {
    SecondsOf(now);
    var t := Apply(cfg, TwoInstances(now, checked, Granted(0), follower), Grant(0));
    assert t.instances[0].tasks == [Spawned];
    assert t.instances == Renewed(now, now * SECOND, follower).instances;
    assert t.launches == [Launch(0, 0, now)];
    assert t.checkedAt == [now, 0];
  }

  lemma AfterRenewal(cfg: Config, checkSeconds: int, taskSeconds: int, delay: nat)
    returns (steps: seq<Step>, t: State)
    requires WholeSeconds(cfg, checkSeconds, taskSeconds) && taskSeconds >= 1 && delay >= 1
    ensures var now := checkSeconds + taskSeconds;
            && Leads(cfg, checkSeconds, delay, Renewed(now, now * SECOND, HasRead(now)), steps, t)
            && t.permit == Some(Permit(1, RunningStatus, now + 1))
  {
    var now := checkSeconds + taskSeconds;
    SecondsOf(now);
    SecondsOf(now + 1);
    DecisionAt(cfg, checkSeconds, taskSeconds, now + 1);
    var later := (now + 1) * SECOND;
    var granted := Renewed(now, later, Granted(0));
    t := Apply(cfg, granted, Grant(1));
    steps := [];
    assert Leads(cfg, checkSeconds, delay, t, steps, t);
    steps := LeadsBy(cfg, checkSeconds, delay, granted, Grant(1), t, steps, t);
    steps := LeadsBy(cfg, checkSeconds, delay, Renewed(now, later, HasRead(now)), Decide(1), granted, steps, t);
    steps := LeadsBy(cfg, checkSeconds, delay, Renewed(now, now * SECOND, HasRead(now)), Tick(SECOND),
                     Renewed(now, later, HasRead(now)), steps, t);
  }

  // ---------------------------------------------------------------------------------------------
  // One registration never overlaps itself

  predicate HoldsFlag(task: Task) {
    task.InHandle? || task.HandleReturned?
  }

  /** The running flag is set exactly while one goroutine is between its swap and its store. */
  ghost predicate FlagInv(n: Instance) {
    && (n.running <==> exists k :: 0 <= k < |n.tasks| && HoldsFlag(n.tasks[k]))
    && forall j, k :: 0 <= j < k < |n.tasks| ==> !(HoldsFlag(n.tasks[j]) && HoldsFlag(n.tasks[k]))
  }

  ghost predicate AllFlagInv(s: State) {
    forall i :: 0 <= i < |s.instances| ==> FlagInv(s.instances[i])
  }

  lemma FlagStep(cfg: Config, s: State, step: Step)
    requires |s.instances| == |s.checkedAt| && AllFlagInv(s) && Enabled(s, step)
    ensures AllFlagInv(Apply(cfg, s, step))
  {
    var t := Apply(cfg, s, step);
    forall i | 0 <= i < |t.instances|
      ensures FlagInv(t.instances[i])
    {
      FlagInvOf(cfg, s, step, i);
    }
  }

  lemma FlagAppend(n: Instance, check: Check)
    requires FlagInv(n)
    ensures FlagInv(Instance(check, n.running, n.tasks + [Spawned]))
  {
    if n.running {
      var k :| 0 <= k < |n.tasks| && HoldsFlag(n.tasks[k]);
      assert HoldsFlag((n.tasks + [Spawned])[k]);
    }
  }

  /** A goroutine may take a free flag, release the flag it holds, or leave the flag alone. */
  lemma FlagReplace(n: Instance, k: nat, running: bool, task: Task)
    requires FlagInv(n) && k < |n.tasks|
    requires || (running == n.running && HoldsFlag(task) == HoldsFlag(n.tasks[k]))
             || (!n.running && running && HoldsFlag(task))
             || (HoldsFlag(n.tasks[k]) && !running && !HoldsFlag(task))
    ensures FlagInv(n.(running := running, tasks := n.tasks[k := task]))
  {
    var tasks := n.tasks[k := task];
    if n.running {
      var h :| 0 <= h < |n.tasks| && HoldsFlag(n.tasks[h]);
      assert running ==> HoldsFlag(tasks[h]);
    } else if running {
      assert HoldsFlag(tasks[k]);
    }
  }

  lemma FlagInvOf(cfg: Config, s: State, step: Step, i: nat)
    requires |s.instances| == |s.checkedAt| && AllFlagInv(s) && Enabled(s, step)
    requires i < |s.instances|
    ensures FlagInv(Apply(cfg, s, step).instances[i])
  {
    var n := s.instances[i];
    assert FlagInv(n);
    if !step.Tick? && step.i == i {
      match step
      case Grant(_) => FlagAppend(n, Idle);
      case Swap(_, k) => FlagReplace(n, k, true, if n.running then Unflagged else InHandle);
      case FinishHandle(_, k) => FlagReplace(n, k, n.running, HandleReturned);
      case ClearFlag(_, k) => FlagReplace(n, k, false, Unflagged);
      case WriteIdle(_, k) => FlagReplace(n, k, n.running, Exited);
      case FailIdle(_, k) => FlagReplace(n, k, n.running, Exited);
      case _ =>
    }
  }

  lemma {:induction false} FlagRun(cfg: Config, s: State, steps: seq<Step>)
    requires |s.instances| == |s.checkedAt| && AllFlagInv(s) && Runs(cfg, s, steps)
    ensures AllFlagInv(Exec(cfg, s, steps))
    decreases |steps|
  {
    if steps != [] {
      FlagStep(cfg, s, steps[0]);
      FlagRun(cfg, Apply(cfg, s, steps[0]), steps[1..]);
    }
  }

  /** Whatever goroutines call it, the task's handle never runs twice at once on one instance, and while
      it runs the running flag is set. */
  lemma HandleNeverOverlaps(cfg: Config, s0: State, steps: seq<Step>, i: nat, j: nat, k: nat)
    requires Initial(s0) && Runs(cfg, s0, steps)
    requires i < |Exec(cfg, s0, steps).instances|
    requires var n := Exec(cfg, s0, steps).instances[i];
             j < |n.tasks| && k < |n.tasks| && n.tasks[j].InHandle? && n.tasks[k].InHandle?
    ensures j == k && Exec(cfg, s0, steps).instances[i].running
  {
    FlagRun(cfg, s0, steps);
    assert FlagInv(Exec(cfg, s0, steps).instances[i]);
  }
}
