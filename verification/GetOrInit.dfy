/** `getOrInit` (cmd/orb-server/startcmd/start.go): several server instances agree on one configuration
    value through a shared key/value store that offers only Get and Put.

    Every instance reads the key. If it is absent the instance initialises it with a value of its own and
    starts again; if it is present the instance sleeps for `timeout`, reads again, and returns only if the
    value did not change. The model interleaves any number of callers over a linearizable store and one
    monotone clock; each store access is one step. */
module GetOrInit {
  import opened Common

  /** The stored bytes (a marshalled configuration value). */
  type Value = string

  /** Where a caller is. `Waiting.putsSeen` is history: how many Puts had been made when `src` was read. */
  datatype Caller =
    | Entered
    | Initialising(readAt: nat)
    | Waiting(src: Value, readAt: nat, putsSeen: nat)
    | Returned(value: Value)
    | Failed

  /** The shared clock and store, and the callers. `rounds`, `putters` and `presentSince` are history:
      how often each caller entered the function, who has stored a value, and when the key appeared. */
  datatype State = State(
    clock: nat,
    store: Option<Value>,
    callers: seq<Caller>,
    rounds: seq<nat>,
    putters: set<nat>,
    presentSince: nat
  )

  datatype Step =
    | Tick(delta: nat)
    | Read(caller: nat)
    | Put(caller: nat, value: Value)
    | PutThenError(caller: nat, value: Value)  // the value was stored but the caller saw an error
    | Reread(caller: nat)
    | Fail(caller: nat)                        // any error return that stores nothing

  predicate Enabled(timeout: nat, s: State, step: Step) {
    match step
    case Tick(_) => true
    case Read(i) => i < |s.callers| && s.callers[i].Entered?
    case Put(i, _) => i < |s.callers| && s.callers[i].Initialising?
    case PutThenError(i, _) => i < |s.callers| && s.callers[i].Initialising?
    case Reread(i) =>
      i < |s.callers| && s.callers[i].Waiting? && s.callers[i].readAt + timeout <= s.clock
    case Fail(i) => i < |s.callers| && !s.callers[i].Returned?
  }

  /** The caller starts over: the tail call of the function to itself. */
  function Reenter(s: State, i: nat): State
    requires i < |s.callers| == |s.rounds|
  {
    s.(callers := s.callers[i := Entered], rounds := s.rounds[i := s.rounds[i] + 1])
  }

  function Stored(s: State, i: nat, v: Value): State {
    s.(store := Some(v), putters := s.putters + {i},
       presentSince := if s.store.None? then s.clock else s.presentSince)
  }

  function Apply(timeout: nat, s: State, step: Step): State
    requires |s.callers| == |s.rounds|
    requires Enabled(timeout, s, step)
  {
    match step
    case Tick(d) => s.(clock := s.clock + d)
    case Read(i) =>
      if s.store.Some? then
        s.(callers := s.callers[i := Waiting(s.store.value, s.clock, |s.putters|)])
      else
        s.(callers := s.callers[i := Initialising(s.clock)])
    case Put(i, v) => Reenter(Stored(s, i, v), i)
    case PutThenError(i, v) => Stored(s, i, v).(callers := s.callers[i := Failed])
    case Reread(i) =>
      if s.store == Some(s.callers[i].src) then
        s.(callers := s.callers[i := Returned(s.callers[i].src)])
      else
        Reenter(s, i)
    case Fail(i) => s.(callers := s.callers[i := Failed])
  }

  /** The timing assumption the code relies on: a Put lands less than `timeout` after the read that
      found the key missing. */
  predicate Timely(timeout: nat, s: State, step: Step)
    requires Enabled(timeout, s, step)
  {
    match step
    case Put(i, _) => s.clock < s.callers[i].readAt + timeout
    case PutThenError(i, _) => s.clock < s.callers[i].readAt + timeout
    case _ => true
  }

  ghost predicate Runs(timeout: nat, s: State, steps: seq<Step>)
    requires |s.callers| == |s.rounds|
    decreases |steps|
  {
    steps == [] ||
    (Enabled(timeout, s, steps[0]) && Runs(timeout, Apply(timeout, s, steps[0]), steps[1..]))
  }

  ghost function Exec(timeout: nat, s: State, steps: seq<Step>): State
    requires |s.callers| == |s.rounds| && Runs(timeout, s, steps)
    decreases |steps|
  {
    if steps == [] then s else Exec(timeout, Apply(timeout, s, steps[0]), steps[1..])
  }

  ghost predicate AllTimely(timeout: nat, s: State, steps: seq<Step>)
    requires |s.callers| == |s.rounds| && Runs(timeout, s, steps)
    decreases |steps|
  {
    steps == [] ||
    (Timely(timeout, s, steps[0]) && AllTimely(timeout, Apply(timeout, s, steps[0]), steps[1..]))
  }

  /** All callers are about to make their first read. The key may or may not be there already. */
  ghost predicate Initial(s: State) {
    && |s.callers| == |s.rounds|
    && (forall i :: 0 <= i < |s.callers| ==> s.callers[i] == Entered && s.rounds[i] == 1)
    && s.putters == {}
    && s.presentSince == s.clock
  }

  // ---------------------------------------------------------------------------------------------
  // Invariants

  /** What every interleaving keeps, with no timing assumption: a caller stores a value at most once,
      and each mismatch a caller sees is paid for by a Put made while it slept. */
  ghost predicate Inv(s: State) {
    && |s.callers| == |s.rounds|
    && (forall i :: i in s.putters ==> i < |s.callers|)
    && (s.store.None? ==> s.putters == {})
    && forall i :: 0 <= i < |s.callers| ==> CallerInv(s, i)
  }

  ghost predicate CallerInv(s: State, i: nat)
    requires i < |s.callers| == |s.rounds|
  {
    && (s.store.None? ==> s.rounds[i] == 1)
    && s.rounds[i] <= 1 + |s.putters|
    && match s.callers[i]
       case Initialising(at) => i !in s.putters && s.rounds[i] == 1 && at <= s.clock
       case Waiting(src, at, seen) =>
         && s.store.Some?
         && at <= s.clock
         && s.rounds[i] <= 1 + seen
         && seen <= |s.putters|
         && (seen == |s.putters| ==> s.store == Some(src))
       case Returned(_) => s.store.Some?
       case _ => true
  }

  /** What timely interleavings keep as well: the key settles `timeout` after it appeared, and nobody
      returns or enters a third round before that. */
  ghost predicate TimedInv(timeout: nat, s: State) {
    && Inv(s)
    && s.presentSince <= s.clock
    && forall i :: 0 <= i < |s.callers| ==> CallerTimedInv(timeout, s, i)
  }

  ghost predicate CallerTimedInv(timeout: nat, s: State, i: nat)
    requires i < |s.callers| == |s.rounds|
  {
    var settled := s.presentSince + timeout;
    && s.rounds[i] <= 3
    && (s.rounds[i] == 3 ==> settled <= s.clock)
    && match s.callers[i]
       case Initialising(at) => s.store.Some? ==> at <= s.presentSince
       case Waiting(src, at, _) =>
         && s.presentSince <= at
         && (settled <= at ==> s.store == Some(src))
         && (s.rounds[i] == 3 ==> settled <= at)
       case Returned(v) => settled <= s.clock && s.store == Some(v)
       case _ => true
  }

  lemma PutterIsNew(s: State, i: nat)
    requires Inv(s) && i < |s.callers| && s.callers[i].Initialising?
    ensures i !in s.putters && |s.putters + {i}| == |s.putters| + 1
  {
    assert CallerInv(s, i);
  }

  lemma InvStep(timeout: nat, s: State, step: Step)
    requires Inv(s) && Enabled(timeout, s, step)
    ensures Inv(Apply(timeout, s, step))
  {
    var t := Apply(timeout, s, step);
    if step.Put? || step.PutThenError? {
      PutterIsNew(s, step.caller);
    }
    forall i | 0 <= i < |t.callers|
      ensures CallerInv(t, i)
    {
      assert CallerInv(s, i);
    }
  }

  lemma TimedInvStep(timeout: nat, s: State, step: Step)
    requires TimedInv(timeout, s) && Enabled(timeout, s, step) && Timely(timeout, s, step)
    ensures TimedInv(timeout, Apply(timeout, s, step))
  {
    InvStep(timeout, s, step);
    var t := Apply(timeout, s, step);
    if step.Put? || step.PutThenError? {
      assert CallerInv(s, step.caller) && CallerTimedInv(timeout, s, step.caller);
    }
    forall i | 0 <= i < |t.callers|
      ensures CallerTimedInv(timeout, t, i)
    {
      assert CallerInv(s, i) && CallerTimedInv(timeout, s, i);
    }
  }

  lemma {:induction false} InvRun(timeout: nat, s: State, steps: seq<Step>)
    requires Inv(s) && Runs(timeout, s, steps)
    ensures Inv(Exec(timeout, s, steps))
    ensures |Exec(timeout, s, steps).callers| == |s.callers|
    decreases |steps|
  {
    if steps != [] {
      InvStep(timeout, s, steps[0]);
      InvRun(timeout, Apply(timeout, s, steps[0]), steps[1..]);
    }
  }

  lemma {:induction false} TimedInvRun(timeout: nat, s: State, steps: seq<Step>)
    requires TimedInv(timeout, s) && Runs(timeout, s, steps) && AllTimely(timeout, s, steps)
    ensures TimedInv(timeout, Exec(timeout, s, steps))
    ensures |Exec(timeout, s, steps).callers| == |s.callers|
    decreases |steps|
  {
    if steps != [] {
      TimedInvStep(timeout, s, steps[0]);
      TimedInvRun(timeout, Apply(timeout, s, steps[0]), steps[1..]);
    }
  }

  lemma {:induction false} ReturnedStays(timeout: nat, s: State, steps: seq<Step>, i: nat)
    requires |s.callers| == |s.rounds| && Runs(timeout, s, steps)
    requires i < |s.callers| && s.callers[i].Returned?
    ensures var t := Exec(timeout, s, steps);
            |t.callers| == |s.callers| && t.callers[i] == s.callers[i]
    decreases |steps|
  {
    if steps != [] {
      ReturnedStays(timeout, Apply(timeout, s, steps[0]), steps[1..], i);
    }
  }

  /** A caller returns only by finding, at least `timeout` after its read, the value it has read unchanged; anything
      else makes it start over. */
  lemma ReturnsOnlyTheUnchanged(timeout: nat, s: State, step: Step, i: nat)
    requires |s.callers| == |s.rounds| && Enabled(timeout, s, step) && i < |s.callers|
    ensures var c, d := s.callers[i], Apply(timeout, s, step).callers[i];
            && (d.Returned? && !c.Returned? ==>
                  c.Waiting? && s.store == Some(c.src) && d.value == c.src && c.readAt + timeout <= s.clock)
            && (step == Reread(i) && s.store != Some(c.src) ==> d.Entered?)
            && (step == Read(i) && s.store.Some? ==> d.Waiting? && d.src == s.store.value && d.readAt == s.clock)
  {
  }

  // ---------------------------------------------------------------------------------------------
  // Main results

  /** Agreement: in every timely run, all calls that succeed return the same bytes, and from the moment
      the first of them returns those bytes are the stored value for the rest of the run. */
  lemma Agreement(timeout: nat, s0: State, earlier: seq<Step>, later: seq<Step>, i: nat, j: nat)
    requires Initial(s0)
    requires Runs(timeout, s0, earlier) && AllTimely(timeout, s0, earlier)
    requires var s := Exec(timeout, s0, earlier);
             && |s.callers| == |s.rounds|
             && Runs(timeout, s, later) && AllTimely(timeout, s, later)
    requires i < |s0.callers| && j < |s0.callers|
    ensures var s := Exec(timeout, s0, earlier);
            var t := Exec(timeout, s, later);
            && |s.callers| == |t.callers| == |s0.callers|
            && (s.callers[i].Returned? ==> t.store == Some(s.callers[i].value))
            && (s.callers[i].Returned? && t.callers[j].Returned? ==>
                  s.callers[i].value == t.callers[j].value)
  {
    TimedInvRun(timeout, s0, earlier);
    var s := Exec(timeout, s0, earlier);
    TimedInvRun(timeout, s, later);
    var t := Exec(timeout, s, later);
    assert CallerTimedInv(timeout, t, j);
    if s.callers[i].Returned? {
      ReturnedStays(timeout, s, later, i);
      assert CallerTimedInv(timeout, t, i);
    }
  }

  /** No call ever needs more than n + 1 rounds when n callers compete, however slow they are. */
  lemma RoundsBounded(timeout: nat, s0: State, steps: seq<Step>, i: nat)
    requires Initial(s0) && Runs(timeout, s0, steps) && i < |s0.callers|
    ensures var t := Exec(timeout, s0, steps);
            && |t.rounds| == |s0.callers|
            && t.rounds[i] <= |s0.callers| + 1
            && |t.putters| <= |s0.callers|
  {
    InvRun(timeout, s0, steps);
    var t := Exec(timeout, s0, steps);
    assert CallerInv(t, i);
    AtMostN(t.putters, |t.callers|);
  }

  lemma {:induction false} AtMostN(indices: set<nat>, n: nat)
    requires forall i :: i in indices ==> i < n
    ensures |indices| <= n
  {
    if n == 0 {
      assert indices == {};
    } else {
      AtMostN(indices - {n - 1}, n - 1);
    }
  }

  /** Under the timing assumption three rounds are enough, whatever the number of callers. */
  lemma RoundsBoundedWhenTimely(timeout: nat, s0: State, steps: seq<Step>, i: nat)
    requires Initial(s0) && Runs(timeout, s0, steps) && AllTimely(timeout, s0, steps)
    requires i < |s0.callers|
    ensures var t := Exec(timeout, s0, steps);
            |t.rounds| == |s0.callers| && t.rounds[i] <= 3
  {
    TimedInvRun(timeout, s0, steps);
    assert CallerTimedInv(timeout, Exec(timeout, s0, steps), i);
  }

  /** The timing assumption is needed: for every timeout, one late Put makes two calls return different
      values. Caller 1 finds the key missing, caller 0 initialises it and returns, then caller 1 writes. */
  lemma LatePutBreaksAgreement(timeout: nat, v: Value, w: Value)
    requires v != w
    ensures exists s0, steps ::
              && Initial(s0) && |s0.callers| == 2 && Runs(timeout, s0, steps)
              && Exec(timeout, s0, steps).callers == [Returned(v), Returned(w)]
  {
    var rest := LatePut(timeout, v, w);
    var s0 := State(0, None, [Entered, Entered], [1, 1], {}, 0);
    var a := Apply(timeout, s0, Read(0));
    var b := Apply(timeout, a, Read(1));
    var c := Apply(timeout, b, Put(0, v));
    var d := Apply(timeout, c, Read(0));
    var e := Apply(timeout, d, Tick(timeout));
    assert Apply(timeout, e, Reread(0)) == FirstReturned(timeout, v);
    rest := RunsCons(timeout, e, Reread(0), rest);
    rest := RunsCons(timeout, d, Tick(timeout), rest);
    rest := RunsCons(timeout, c, Read(0), rest);
    rest := RunsCons(timeout, b, Put(0, v), rest);
    rest := RunsCons(timeout, a, Read(1), rest);
    rest := RunsCons(timeout, s0, Read(0), rest);
    assert Initial(s0);
  }

  /** Caller 0 has returned `v` while caller 1, which had found the key missing, has not written yet. */
  ghost function FirstReturned(timeout: nat, v: Value): State {
    State(timeout, Some(v), [Returned(v), Initialising(0)], [2, 1], {0}, 0)
  }

  lemma LatePut(timeout: nat, v: Value, w: Value) returns (steps: seq<Step>)
    ensures Runs(timeout, FirstReturned(timeout, v), steps)
    ensures Exec(timeout, FirstReturned(timeout, v), steps).callers == [Returned(v), Returned(w)]
  {
    var f := FirstReturned(timeout, v);
    var g := Apply(timeout, f, Put(1, w));
    var h := Apply(timeout, g, Read(1));
    var k := Apply(timeout, h, Tick(timeout));
    steps := RunsCons(timeout, k, Reread(1), []);
    steps := RunsCons(timeout, h, Tick(timeout), steps);
    steps := RunsCons(timeout, g, Read(1), steps);
    steps := RunsCons(timeout, f, Put(1, w), steps);
  }

  lemma RunsCons(timeout: nat, s: State, step: Step, rest: seq<Step>) returns (steps: seq<Step>)
    requires |s.callers| == |s.rounds| && Enabled(timeout, s, step)
    requires Runs(timeout, Apply(timeout, s, step), rest)
    ensures steps == [step] + rest && Runs(timeout, s, steps)
    ensures Exec(timeout, s, steps) == Exec(timeout, Apply(timeout, s, step), rest)
  {
    steps := [step] + rest;
    assert steps[1..] == rest;
  }
}
