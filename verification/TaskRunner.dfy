/** The task manager as an object (pkg/taskmgr/taskmgr.go): one instance's `run`, `shouldRun` and
    `updatePermit` over the coordination store, which holds one permit per task. */
module TaskRunner {
  import opened Common
  import opened TaskManager

  /** What the store holds under a permit key: a permit, or bytes that are not one. */
  datatype Stored = Encoded(permit: Permit) | Malformed

  datatype Error = GetFailed | BadPermit | PutFailed

  /** `getPermitKey` */
  function PermitKey(taskID: string): string {
    "task-permit" + "_" + taskID
  }

  lemma PermitKeysDiffer(a: string, b: string)
    requires PermitKey(a) == PermitKey(b)
    ensures a == b
  {
    assert PermitKey(a)[|"task-permit" + "_"|..] == a;
    assert PermitKey(b)[|"task-permit" + "_"|..] == b;
  }

  class CoordinationStore {
    var entries: map<string, Stored>

    constructor ()
      ensures entries == map[]
    {
      entries := map[];
    }
  }

  class Registration {
    const id: string
    const interval: int
    var running: bool

    constructor (id: string, interval: int)
      ensures this.id == id && this.interval == interval && !running
    {
      this.id := id;
      this.interval := interval;
      running := false;
    }

    /** `registration.run`: the handle runs only if the flag was free, and leaves it free. */
    method Run() returns (handled: bool)
      modifies this
      ensures handled == !old(running) && running == old(running)
    {
      if running {
        return false;
      }
      running := true;
      handled := true;
      running := false;
    }
  }

  /** What one check leaves under the task's key, and whether it launches the task or fails. */
  datatype Outcome = Outcome(stored: Option<Stored>, launched: bool, error: Option<Error>)

  /** The effect of an uninterrupted check on the stored permit. */
  function CheckOutcome(cfg: Config, self: nat, running: bool, stored: Option<Stored>, clock: nat,
                        getOk: bool, putOk: bool): (o: Outcome)
    // The task is launched only together with a permit that names this instance and carries this second.
    ensures o.launched ==> o.stored == Some(Encoded(Permit(self, RunningStatus, Unix(clock))))
    // A fresh permit is never disturbed by another instance.
    ensures !running && stored.Some? && stored.value.Encoded? && stored.value.permit.holder != self
            && Age(clock, stored.value.permit) <= cfg.CheckInterval() + cfg.taskInterval
            ==> !o.launched && o.stored == stored
    // A failing store never launches anything.
    ensures !putOk ==> !o.launched && o.stored == stored
  {
    var mine := Some(Encoded(Permit(self, RunningStatus, Unix(clock))));
    if running then
      Outcome(if putOk then mine else stored, false, None)
    else if !getOk then
      Outcome(stored, false, Some(GetFailed))
    else if stored == Some(Malformed) then
      Outcome(stored, false, Some(BadPermit))
    else if !ShouldRun(cfg, self, PermitIn(stored), clock) then
      Outcome(stored, false, None)
    else if putOk then
      Outcome(mine, true, None)
    else
      Outcome(stored, false, Some(PutFailed))
  }

  function PermitIn(stored: Option<Stored>): Option<Permit>
    requires stored != Some(Malformed)
  {
    if stored.Some? then Some(stored.value.permit) else None
  }

  /** Nobody has the permit; or it is this instance's own and the task's interval has passed since the second it
      was stamped; or it is another's and has not been renewed for the check interval as well. Durations are
      in nanoseconds. A permit from the future has no age worth speaking of. */
  predicate IsDue(cfg: Config, self: nat, permit: Option<Permit>, clock: nat) {
    match permit
    case None => true
    case Some(Permit(holder, _, stamp)) =>
      var age := if stamp <= Unix(clock) then (Unix(clock) - stamp) * 1_000_000_000 else FutureAge(clock, stamp);
      if holder == self then age >= cfg.taskInterval
      else age > (if cfg.requested <= 0 then 10_000_000_000 else cfg.requested) + cfg.taskInterval
  }

  /** Minus the whole seconds until the stamp. */
  function FutureAge(clock: nat, stamp: int): (age: int)
    requires stamp > Unix(clock)
    ensures age <= 0 && age > clock - stamp * 1_000_000_000 - 1
    ensures age < clock - stamp * 1_000_000_000 + 1_000_000_000
  {
    var left := stamp * 1_000_000_000 - clock;
    -(left / 1_000_000_000) * 1_000_000_000
  }

  lemma DueDecides(cfg: Config, self: nat, permit: Option<Permit>, clock: nat)
    ensures ShouldRun(cfg, self, permit, clock) <==> IsDue(cfg, self, permit, clock)
  {
    if permit.Some? {
      var p := permit.value;
      if p.updatedTime <= Unix(clock) {
        AgeIsSecondDifference(clock, p);
      } else {
        FutureAgeIsAge(clock, p);
      }
    }
  }

  lemma FutureAgeIsAge(clock: nat, p: Permit)
    requires p.updatedTime > Unix(clock)
    ensures Age(clock, p) == FutureAge(clock, p.updatedTime)
  {
    var left := p.updatedTime * SECOND - clock;
    assert left % SECOND == left - left / SECOND * SECOND;
  }

  /** An uninterrupted check launches the task exactly if it is not running, the store works, and the task is due; then
      the permit names this instance. If the task is running the permit is renewed. In particular a holder that has
      died in the middle of the task is replaced by the first other instance that checks later than both intervals
      after its last write. Otherwise the permit stays, and a failing store or a malformed permit is reported. */
  lemma CheckLaunchesIffDue(cfg: Config, self: nat, running: bool, stored: Option<Stored>, clock: nat,
                            getOk: bool, putOk: bool)
    ensures var o := CheckOutcome(cfg, self, running, stored, clock, getOk, putOk);
            var due := getOk && stored != Some(Malformed) && IsDue(cfg, self, PermitIn(stored), clock);
            && (o.launched <==> !running && due && putOk)
            && o.stored == (if putOk && (running || due) then Some(Encoded(Permit(self, RunningStatus, Unix(clock))))
                            else stored)
            && o.error == (if running then None else if !getOk then Some(GetFailed)
                           else if stored == Some(Malformed) then Some(BadPermit)
                           else if due && !putOk then Some(PutFailed) else None)
  {
    if stored != Some(Malformed) {
      DueDecides(cfg, self, PermitIn(stored), clock);
    }
  }

  function Lookup(entries: map<string, Stored>, key: string): Option<Stored> {
    if key in entries then Some(entries[key]) else None
  }

  class Manager {
    const instanceID: nat
    const interval: int
    const store: CoordinationStore

    /** `New`: a non-positive interval is replaced by the default. */
    constructor (instanceID: nat, interval: int, store: CoordinationStore)
      ensures this.instanceID == instanceID && this.store == store
      ensures this.interval == Config(interval, 0).CheckInterval()
    {
      this.instanceID := instanceID;
      this.interval := if interval <= 0 then DEFAULT_CHECK_INTERVAL else interval;
      this.store := store;
    }

    method UpdatePermit(taskID: string, status: Status, clock: nat, putOk: bool) returns (err: Option<Error>)
      modifies store
      ensures err == if putOk then None else Some(PutFailed)
      ensures store.entries ==
              if putOk then
                old(store.entries)[PermitKey(taskID) := Encoded(Permit(instanceID, status, Unix(clock)))]
              else old(store.entries)
    {
      if !putOk {
        return Some(PutFailed);
      }
      var p := Permit(instanceID, status, Unix(clock));
      store.entries := store.entries[PermitKey(taskID) := Encoded(p)];
      return None;
    }

    method DecideToRun(t: Registration, clock: nat, getOk: bool) returns (r: Result<bool, Error>)
      ensures var stored := Lookup(store.entries, PermitKey(t.id));
              if !getOk then r == Err(GetFailed)
              else if stored == Some(Malformed) then r == Err(BadPermit)
              else r == Ok(ShouldRun(Config(interval, t.interval), instanceID, PermitIn(stored), clock))
      // In whole seconds: the holder runs the task at its interval, anybody else takes over after the check
      // interval on top of that, whatever the status.
      ensures var stored := Lookup(store.entries, PermitKey(t.id));
              getOk && stored != Some(Malformed) ==>
                r.Ok? && (r.value <==> IsDue(Config(interval, t.interval), instanceID, PermitIn(stored), clock))
    {
      if getOk && Lookup(store.entries, PermitKey(t.id)) != Some(Malformed) {
        DueDecides(Config(interval, t.interval), instanceID, PermitIn(Lookup(store.entries, PermitKey(t.id))), clock);
      }
      if !getOk {
        return Err(GetFailed);
      }
      var key := PermitKey(t.id);
      if key !in store.entries {
        return Ok(true);
      }
      if store.entries[key].Malformed? {
        return Err(BadPermit);
      }
      var p := store.entries[key].permit;
      var timeSinceLastUpdate := Age(clock, p);
      if p.holder == instanceID {
        return Ok(!(timeSinceLastUpdate < t.interval));
      }
      var maxTime := Config(interval, t.interval).CheckInterval() + t.interval;
      return Ok(timeSinceLastUpdate > maxTime);
    }

    /** One check of one task. `launched` says that the task's goroutine was started. */
    method Run(t: Registration, clock: nat, getOk: bool, putOk: bool)
      returns (launched: bool, err: Option<Error>)
      modifies store
      ensures var key := PermitKey(t.id);
              Outcome(Lookup(store.entries, key), launched, err) ==
              CheckOutcome(Config(interval, t.interval), instanceID, t.running,
                           Lookup(old(store.entries), key), clock, getOk, putOk)
      // Permits of other tasks are untouched.
      ensures forall id :: id != t.id ==>
                Lookup(store.entries, PermitKey(id)) == Lookup(old(store.entries), PermitKey(id))
    {
      forall id | id != t.id ensures PermitKey(id) != PermitKey(t.id) {
        if PermitKey(id) == PermitKey(t.id) {
          PermitKeysDiffer(id, t.id);
        }
      }
      if t.running {
        var _ := UpdatePermit(t.id, RunningStatus, clock, putOk);
        return false, None;
      }
      var decision := DecideToRun(t, clock, getOk);
      if decision.Err? {
        return false, Some(decision.error);
      }
      if !decision.value {
        return false, None;
      }
      err := UpdatePermit(t.id, RunningStatus, clock, putOk);
      launched := err == None;
    }

    /** The goroutine that a launch starts: the task's handle runs unless it is already running, and when that is
        done the permit is written once more, as idle, in any case. `clock` is the time of that write. */
    method RunTask(t: Registration, clock: nat, putOk: bool) returns (handled: bool)
      modifies t, store
      ensures handled == !old(t.running)
      ensures t.running == old(t.running)
      ensures store.entries ==
              if putOk then
                old(store.entries)[PermitKey(t.id) := Encoded(Permit(instanceID, IdleStatus, Unix(clock)))]
              else old(store.entries)
    {
      handled := t.Run();
      var _ := UpdatePermit(t.id, IdleStatus, clock, putOk);
    }
  }

  /** The steps an instance takes when its check is not interrupted. */
  function CheckSteps(cfg: Config, s: State, i: nat): seq<Step>
    requires i < |s.instances|
  {
    if s.instances[i].running then [BeginCheck(i), Refresh(i)]
    else if ShouldRun(cfg, i, s.permit, s.clock) then [BeginCheck(i), Read(i), Decide(i), Grant(i)]
    else [BeginCheck(i), Read(i), Decide(i)]
  }

  function AsStored(permit: Option<Permit>): Option<Stored> {
    if permit.Some? then Some(Encoded(permit.value)) else None
  }

  /** The object and the state machine agree: the steps of an uninterrupted check leave exactly the permit
      that `Manager.Run` leaves, and add a launch exactly when `Manager.Run` launches. */
  lemma UninterruptedCheck(cfg: Config, s: State, i: nat)
    requires |s.instances| == |s.checkedAt| && i < |s.instances| && s.instances[i].check.Idle?
    ensures var o := CheckOutcome(cfg, i, s.instances[i].running, AsStored(s.permit), s.clock, true, true);
            var steps := CheckSteps(cfg, s, i);
            && Runs(cfg, s, steps)
            && var t := Exec(cfg, s, steps);
            && AsStored(t.permit) == o.stored
            && t.launches == s.launches +
                 (if o.launched then [Launch(i, |s.launches|, Unix(s.clock))] else [])
            && i < |t.instances| && t.instances[i].check.Idle?
            && t.instances[i].tasks == s.instances[i].tasks + (if o.launched then [Spawned] else [])
  {
    var b := Apply(cfg, s, BeginCheck(i));
    if s.instances[i].running {
      var steps := RunsCons(cfg, b, Refresh(i), []);
      assert steps == [Refresh(i)];
      steps := RunsCons(cfg, s, BeginCheck(i), steps);
      assert steps == CheckSteps(cfg, s, i);
    } else {
      var c := Apply(cfg, b, Read(i));
      var d := Apply(cfg, c, Decide(i));
      var rest: seq<Step> := [];
      if ShouldRun(cfg, i, s.permit, s.clock) {
        rest := RunsCons(cfg, d, Grant(i), []);
      }
      var steps := RunsCons(cfg, c, Decide(i), rest);
      steps := RunsCons(cfg, b, Read(i), steps);
      steps := RunsCons(cfg, s, BeginCheck(i), steps);
      assert steps == CheckSteps(cfg, s, i);
    }
  }

  /** A dead holder is replaced: whatever the permit's status, an instance that is idle and finds another's permit
      older than both intervals takes it and launches the task. */
  lemma DeadHolderIsReplaced(cfg: Config, s: State, i: nat, holder: nat, status: Status, stamp: nat)
    requires |s.instances| == |s.checkedAt| && i < |s.instances|
    requires s.instances[i].check.Idle? && !s.instances[i].running && i != holder
    requires s.permit == Some(Permit(holder, status, stamp)) && stamp <= Unix(s.clock)
    requires (Unix(s.clock) - stamp) * SECOND > cfg.CheckInterval() + cfg.taskInterval
    ensures var steps := [BeginCheck(i), Read(i), Decide(i), Grant(i)];
            && Runs(cfg, s, steps)
            && var t := Exec(cfg, s, steps);
            && t.permit == Some(Permit(i, RunningStatus, Unix(s.clock)))
            && t.launches == s.launches + [Launch(i, |s.launches|, Unix(s.clock))]
  {
    DueDecides(cfg, i, s.permit, s.clock);
    UninterruptedCheck(cfg, s, i);
    CheckLaunchesIffDue(cfg, i, false, AsStored(s.permit), s.clock, true, true);
  }

  /** The steps of a goroutine that nobody interrupts. */
  function TaskSteps(s: State, i: nat, k: nat): seq<Step>
    requires i < |s.instances|
  {
    if s.instances[i].running then [Swap(i, k), WriteIdle(i, k)]
    else [Swap(i, k), FinishHandle(i, k), ClearFlag(i, k), WriteIdle(i, k)]
  }

  /** The object and the state machine agree on the goroutine too: it leaves the flag as it was and an idle permit
      of this instance stamped with the current second. */
  lemma UninterruptedTask(cfg: Config, s: State, i: nat, k: nat)
    requires |s.instances| == |s.checkedAt| && i < |s.instances| && k < |s.instances[i].tasks|
    requires s.instances[i].tasks[k].Spawned?
    ensures var steps := TaskSteps(s, i, k);
            && Runs(cfg, s, steps)
            && Exec(cfg, s, steps) ==
               s.(permit := Some(Permit(i, IdleStatus, Unix(s.clock))),
                  instances := s.instances[i := s.instances[i].(tasks := s.instances[i].tasks[k := Exited])])
  {
    var n := s.instances[i];
    var a := Apply(cfg, s, Swap(i, k));
    if n.running {
      var b := Apply(cfg, a, WriteIdle(i, k));
      assert b.instances[i].tasks == n.tasks[k := Exited];
      assert b.instances == s.instances[i := n.(tasks := n.tasks[k := Exited])];
      var steps := RunsCons(cfg, a, WriteIdle(i, k), []);
      steps := RunsCons(cfg, s, Swap(i, k), steps);
      assert steps == TaskSteps(s, i, k);
    } else {
      var b := Apply(cfg, a, FinishHandle(i, k));
      var c := Apply(cfg, b, ClearFlag(i, k));
      var d := Apply(cfg, c, WriteIdle(i, k));
      assert d.instances[i].tasks == n.tasks[k := Exited];
      assert d.instances == s.instances[i := n.(tasks := n.tasks[k := Exited])];
      var steps := RunsCons(cfg, c, WriteIdle(i, k), []);
      steps := RunsCons(cfg, b, ClearFlag(i, k), steps);
      steps := RunsCons(cfg, a, FinishHandle(i, k), steps);
      steps := RunsCons(cfg, s, Swap(i, k), steps);
      assert steps == TaskSteps(s, i, k);
    }
  }
}
