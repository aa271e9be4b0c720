/** One call of `getOrInit` (cmd/orb-server/startcmd/start.go) over the configuration store, with whatever
    the other instances do to the store meanwhile. */
module GetOrInitCall {
  import opened Common
  import opened GetOrInit

  datatype Error = StoreFailed | InitFailed

  /** What happens between two accesses of this call to the store. */
  datatype Event = Undisturbed | OtherStores(value: Value) | AccessFails

  /** What happened at the store, in the order of time. */
  datatype Access = Saw(entry: Option<Value>) | Stored(value: Value) | Slept | OtherStored(value: Value) | Broke

  /** The store under one key, and the events to come, one for every access. `log` is history. */
  class ConfigStore {
    var entry: Option<Value>
    var events: seq<Event>
    ghost var log: seq<Access>

    constructor (entry: Option<Value>, events: seq<Event>)
      ensures this.entry == entry && this.events == events && log == []
    {
      this.entry := entry;
      this.events := events;
      log := [];
    }

    /** Time passes until the next access, which may turn out to fail. */
    method Advance() returns (ok: bool)
      modifies this
      ensures events == Rest(old(events)) && ok == !Fails(old(events))
      ensures entry == Arrived(old(entry), old(events)) && log == old(log) + Noted(old(events))
    {
      ok := true;
      log := log + Noted(events);
      if events != [] {
        match events[0] {
          case OtherStores(v) => entry := Some(v);
          case AccessFails => ok := false;
          case Undisturbed =>
        }
        events := events[1..];
      }
    }

    /** Get, for this key; None means that there is no value. */
    method Get() returns (r: Result<Option<Value>, Error>)
      modifies this
      ensures events == Rest(old(events)) && entry == Arrived(old(entry), old(events))
      ensures r == if Fails(old(events)) then Err(StoreFailed) else Ok(entry)
      ensures log == old(log) + Noted(old(events)) + if r.Ok? then [Saw(entry)] else []
    {
      var ok := Advance();
      if !ok {
        return Err(StoreFailed);
      }
      log := log + [Saw(entry)];
      return Ok(entry);
    }

    method Put(value: Value) returns (ok: bool)
      modifies this
      ensures events == Rest(old(events)) && ok == !Fails(old(events))
      ensures entry == if ok then Some(value) else old(entry)
      ensures log == old(log) + Noted(old(events)) + if ok then [Stored(value)] else []
    {
      ok := Advance();
      if ok {
        entry := Some(value);
        log := log + [Stored(value)];
      }
    }

    /** time.Sleep for the timeout. */
    method Sleep()
      modifies this`log
      ensures log == old(log) + [Slept]
    {
      log := log + [Slept];
    }
  }

  // ---------------------------------------------------------------------------------------------
  // Events

  /** What the next event leaves in the log, does to the entry and to the access, and the events after it. */
  function Noted(events: seq<Event>): seq<Access> {
    if events == [] || events[0].Undisturbed? then []
    else if events[0].OtherStores? then [OtherStored(events[0].value)]
    else [Broke]
  }

  function Arrived(entry: Option<Value>, events: seq<Event>): Option<Value> {
    if events != [] && events[0].OtherStores? then Some(events[0].value) else entry
  }

  predicate Fails(events: seq<Event>) {
    events != [] && events[0].AccessFails?
  }

  function Rest(events: seq<Event>): seq<Event> {
    if events == [] then [] else events[1..]
  }

  // ---------------------------------------------------------------------------------------------
  // The call

  /** What a call returns and leaves, and what it does at the store. */
  datatype Outcome = Outcome(result: Result<Value, Error>, entry: Option<Value>, events: seq<Event>, log: seq<Access>)

  function Then(log: seq<Access>, o: Outcome): Outcome {
    o.(log := log + o.log)
  }

  function CallOutcome(entry: Option<Value>, events: seq<Event>, init: Option<Value>): Outcome
    decreases |events|, if entry.None? then 1 else 0
  {
    var first, rest := Arrived(entry, events), Rest(events);
    if Fails(events) then Outcome(Err(StoreFailed), entry, rest, Noted(events))
    else if first.Some? then
      var log := Noted(events) + [Saw(first), Slept] + Noted(rest);
      var second := Arrived(first, rest);
      if Fails(rest) then Outcome(Err(StoreFailed), first, Rest(rest), log)
      else if second == first then Outcome(Ok(first.value), first, Rest(rest), log + [Saw(second)])
      else Then(log + [Saw(second)], CallOutcome(second, Rest(rest), init))
    else if init.None? then Outcome(Err(InitFailed), None, rest, Noted(events) + [Saw(None)])
    else
      var log := Noted(events) + [Saw(None)] + Noted(rest);
      if Fails(rest) then Outcome(Err(StoreFailed), None, Rest(rest), log)
      else Then(log + [Stored(init.value)], CallOutcome(init, Rest(rest), init))
  }

  /** `getOrInit`, which fills `v` with the result. */
  method Call(store: ConfigStore, init: Option<Value>) returns (r: Result<Value, Error>)
    modifies store
    ensures var o := CallOutcome(old(store.entry), old(store.events), init);
            r == o.result && store.entry == o.entry && store.events == o.events && store.log == old(store.log) + o.log
    decreases |store.events|, if store.entry.None? then 1 else 0
  {
    ghost var log, entry, events := store.log, store.entry, store.events;
    ghost var first, rest := Arrived(entry, events), Rest(events);
    var src := store.Get();
    if src.Err? {
      return Err(StoreFailed);
    }
    if src.value.Some? {
      store.Sleep();
      var src2 := store.Get();
      ghost var round := Noted(events) + [Saw(first), Slept] + Noted(rest);
      if src2.Err? {
        assert store.log == log + round;
        return Err(StoreFailed);
      }
      round := round + [Saw(store.entry)];
      assert store.log == log + round;
      if src2.value == src.value {
        return Ok(src.value.value);
      }
      Regroup(log, round, CallOutcome(store.entry, store.events, init).log);
      r := Call(store, init);
      return;
    }
    assert store.log == log + (Noted(events) + [Saw(None)]);
    if init.None? {
      return Err(InitFailed);
    }
    var ok := store.Put(init.value);
    ghost var round := Noted(events) + [Saw(None)] + Noted(rest);
    if !ok {
      assert store.log == log + round;
      return Err(StoreFailed);
    }
    round := round + [Stored(init.value)];
    assert store.log == log + round;
    Regroup(log, round, CallOutcome(store.entry, store.events, init).log);
    r := Call(store, init);
  }

  lemma Regroup(a: seq<Access>, b: seq<Access>, c: seq<Access>)
    ensures a + (b + c) == (a + b) + c
  {
  }

  // ---------------------------------------------------------------------------------------------
  // What a call returns

  /** The value was there, is the call's own, or was stored by another instance. */
  ghost predicate HasOrigin(value: Value, entry: Option<Value>, events: seq<Event>, init: Option<Value>) {
    Some(value) == entry || Some(value) == init || OtherStores(value) in events
  }

  lemma RestIsPart(events: seq<Event>)
    ensures forall e :: e in Rest(events) ==> e in events
  {
    if events != [] {
      assert events == [events[0]] + events[1..];
    }
  }

  /** The last accesses of the call are two Gets that saw the entry, with the sleep between them; meanwhile only
      another instance may have stored something. */
  ghost predicate EndsWithTheSame(log: seq<Access>, entry: Option<Value>) {
    exists k :: 0 <= k < |log| - 2 && EndsFrom(log, k, entry)
  }

  ghost predicate EndsFrom(log: seq<Access>, k: nat, entry: Option<Value>)
    requires k < |log| - 2
  {
    && log[k] == Saw(entry) && log[k + 1] == Slept && log[|log| - 1] == Saw(entry)
    && |log| <= k + 4 && (|log| == k + 4 ==> log[k + 2].OtherStored?)
  }

  lemma EndsAfterPrefix(prefix: seq<Access>, log: seq<Access>, entry: Option<Value>)
    requires EndsWithTheSame(log, entry)
    ensures EndsWithTheSame(prefix + log, entry)
  {
    var k :| 0 <= k < |log| - 2 && EndsFrom(log, k, entry);
    assert EndsFrom(prefix + log, |prefix| + k, entry);
  }

  lemma RoundEnds(before: seq<Access>, first: Option<Value>, between: seq<Access>)
    requires |between| <= 1 && (between != [] ==> between[0].OtherStored?)
    ensures EndsWithTheSame(before + [Saw(first), Slept] + between + [Saw(first)], first)
  {
    assert EndsFrom(before + [Saw(first), Slept] + between + [Saw(first)], |before|, first);
  }

  /** A successful call returns what the store holds at that moment, and a value that was not made up; the last
      thing it has done is to read that value, to sleep, and to read it again. An error has its cause, and leaves no value without an
      origin. */
  lemma {:induction false} CallReturnsTheStored(entry: Option<Value>, events: seq<Event>, init: Option<Value>)
    ensures var o := CallOutcome(entry, events, init);
            && (o.result.Ok? ==> o.entry == Some(o.result.value) && EndsWithTheSame(o.log, o.entry))
            && (o.entry.Some? ==> HasOrigin(o.entry.value, entry, events, init))
            && (entry.Some? ==> o.entry.Some?)
            && (o.result == Err(InitFailed) ==> init.None? && entry.None?)
            && (o.result == Err(StoreFailed) ==> AccessFails in events)
    decreases |events|, if entry.None? then 1 else 0
  {
    var first, rest := Arrived(entry, events), Rest(events);
    RestIsPart(events);
    RestIsPart(rest);
    if !Fails(events) && !Fails(rest) {
      var second := Arrived(first, rest);
      if first.Some? && second == first {
        RoundEnds(Noted(events), first, Noted(rest));
      } else if first.Some? {
        CallReturnsTheStored(second, Rest(rest), init);
        var o := CallOutcome(second, Rest(rest), init);
        if o.result.Ok? {
          EndsAfterPrefix(Noted(events) + [Saw(first), Slept] + Noted(rest) + [Saw(second)], o.log, o.entry);
        }
      } else if init.Some? {
        CallReturnsTheStored(init, Rest(rest), init);
        var o := CallOutcome(init, Rest(rest), init);
        if o.result.Ok? {
          EndsAfterPrefix(Noted(events) + [Saw(None)] + Noted(rest) + [Stored(init.value)], o.log, o.entry);
        }
      }
    }
  }

  /** Undisturbed, the call returns the value that is there, or else initialises it. */
  lemma UndisturbedCallReturns(entry: Option<Value>, init: Option<Value>)
    ensures var o := CallOutcome(entry, [], init);
            && o.result == (if entry.Some? then Ok(entry.value) else if init.Some? then Ok(init.value) else Err(InitFailed))
            && o.entry == (if o.result.Ok? then Some(o.result.value) else None)
  {
  }

  // ---------------------------------------------------------------------------------------------
  // Every call is a run of the state machine

  /** The state machine, in which this call is caller 0, with the first of the other callers that has found the
      key missing and not stored its value yet. */
  datatype Machine = Machine(state: State, next: nat) {
    predicate Ok() {
      |state.callers| == |state.rounds| > 0
    }
  }

  /** The access as a step: a Get is the first or the second read of a round and sees what is stored. */
  ghost function PlayOne(timeout: nat, m: Machine, a: Access): Option<Machine>
    requires m.Ok()
  {
    match a
    case Saw(entry) =>
      if m.state.store != entry then None
      else if m.state.callers[0].Entered? then Taken(timeout, m, Read(0))
      else Taken(timeout, m, Reread(0))
    case Stored(v) => Taken(timeout, m, Put(0, v))
    case Slept => Taken(timeout, m, Tick(timeout))
    case OtherStored(v) =>
      if m.next == 0 then None else Taken(timeout, m.(next := m.next + 1), Put(m.next, v))
    case Broke => Taken(timeout, m, Fail(0))
  }

  ghost function Taken(timeout: nat, m: Machine, step: Step): Option<Machine>
    requires m.Ok()
  {
    if Enabled(timeout, m.state, step) then Some(m.(state := Apply(timeout, m.state, step))) else None
  }

  ghost function Play(timeout: nat, m: Machine, log: seq<Access>): Option<Machine>
    requires m.Ok()
    decreases |log|
  {
    if log == [] then Some(m)
    else
      var n := PlayOne(timeout, m, log[0]);
      if n.None? then None else Play(timeout, n.value, log[1..])
  }

  lemma {:induction false} PlayConcat(timeout: nat, m: Machine, a: seq<Access>, b: seq<Access>, n: Machine)
    requires m.Ok() && Play(timeout, m, a) == Some(n)
    ensures n.Ok() && Play(timeout, m, a + b) == Play(timeout, n, b)
    decreases |a|
  {
    if a == [] {
      assert a + b == b;
    } else {
      assert (a + b)[1..] == a[1..] + b;
      PlayConcat(timeout, PlayOne(timeout, m, a[0]).value, a[1..], b, n);
    }
  }

  lemma PlaySnoc(timeout: nat, m: Machine, log: seq<Access>, n: Machine, a: Access)
    requires m.Ok() && Play(timeout, m, log) == Some(n)
    ensures n.Ok() && Play(timeout, m, log + [a]) == PlayOne(timeout, n, a)
  {
    PlayConcat(timeout, m, log, [a], n);
    assert [a][1..] == [];
  }

  /** There is another caller about to store a value for each of `n` events to come. */
  ghost predicate Others(m: Machine, n: nat) {
    && m.Ok() && 0 < m.next && m.next + n <= |m.state.callers|
    && forall j :: m.next <= j < |m.state.callers| ==> m.state.callers[j].Initialising?
  }

  lemma PlayOther(timeout: nat, m: Machine, v: Value, n: nat) returns (t: Machine)
    requires Others(m, n + 1)
    ensures PlayOne(timeout, m, OtherStored(v)) == Some(t) && Others(t, n)
    ensures t.state.store == Some(v) && t.state.clock == m.state.clock && t.state.callers[0] == m.state.callers[0]
  {
    t := PlayOne(timeout, m, OtherStored(v)).value;
  }

  /** An event, as the machine sees it. */
  lemma PlayEvent(timeout: nat, m: Machine, events: seq<Event>) returns (t: Machine)
    requires Others(m, |events|) && !m.state.callers[0].Returned?
    ensures Play(timeout, m, Noted(events)) == Some(t) && Others(t, |Rest(events)|)
    ensures t.state.store == Arrived(m.state.store, events) && t.state.clock == m.state.clock
    ensures t.state.callers[0] == if Fails(events) then Failed else m.state.callers[0]
  {
    if events == [] || events[0].Undisturbed? {
      t := m;
    } else if events[0].OtherStores? {
      t := PlayOther(timeout, m, events[0].value, |events| - 1);
      assert Noted(events)[1..] == [];
    } else {
      t := PlayOne(timeout, m, Broke).value;
      assert Noted(events)[1..] == [];
    }
  }

  /** The first read of a round. */
  lemma PlayRead(timeout: nat, m: Machine, n: nat) returns (t: Machine)
    requires Others(m, n) && m.state.callers[0].Entered?
    ensures PlayOne(timeout, m, Saw(m.state.store)) == Some(t) && Others(t, n)
    ensures t.state.store == m.state.store && t.state.clock == m.state.clock
    ensures if m.state.store.Some?
            then t.state.callers[0].Waiting? && t.state.callers[0].src == m.state.store.value
                 && t.state.callers[0].readAt == m.state.clock
            else t.state.callers[0].Initialising?
  {
    t := PlayOne(timeout, m, Saw(m.state.store)).value;
  }

  lemma PlaySleep(timeout: nat, m: Machine, n: nat) returns (t: Machine)
    requires Others(m, n)
    ensures PlayOne(timeout, m, Slept) == Some(t) && Others(t, n)
    ensures t == m.(state := m.state.(clock := m.state.clock + timeout))
  {
    t := PlayOne(timeout, m, Slept).value;
  }

  /** The second read of a round: the caller returns exactly what it has read before, or starts over. */
  lemma PlayReread(timeout: nat, m: Machine, n: nat) returns (t: Machine)
    requires Others(m, n) && m.state.callers[0].Waiting? && m.state.callers[0].readAt + timeout <= m.state.clock
    ensures PlayOne(timeout, m, Saw(m.state.store)) == Some(t) && Others(t, n) && t.state.store == m.state.store
    ensures t.state.callers[0] ==
            if m.state.store == Some(m.state.callers[0].src) then Returned(m.state.callers[0].src) else Entered
  {
    t := PlayOne(timeout, m, Saw(m.state.store)).value;
  }

  lemma PlayPut(timeout: nat, m: Machine, n: nat, v: Value) returns (t: Machine)
    requires Others(m, n) && m.state.callers[0].Initialising?
    ensures PlayOne(timeout, m, Stored(v)) == Some(t) && Others(t, n)
    ensures t.state.store == Some(v) && t.state.callers[0].Entered?
  {
    t := PlayOne(timeout, m, Stored(v)).value;
  }

  /** Where the machine's caller is when the call ends. */
  predicate EndsAs(c: Caller, r: Result<Value, Error>) {
    match r
    case Ok(v) => c == Returned(v)
    case Err(StoreFailed) => c == Failed
    case Err(InitFailed) => c.Initialising?
  }

  /** The machine has played `log` and stands at `t`. */
  ghost predicate Plays(timeout: nat, m: Machine, log: seq<Access>, t: Machine) {
    m.Ok() && Play(timeout, m, log) == Some(t)
  }

  lemma PlayedEvent(timeout: nat, m: Machine, log: seq<Access>, n: Machine, events: seq<Event>) returns (t: Machine)
    requires Plays(timeout, m, log, n) && Others(n, |events|) && !n.state.callers[0].Returned?
    ensures Plays(timeout, m, log + Noted(events), t) && Others(t, |Rest(events)|)
    ensures t.state.store == Arrived(n.state.store, events) && t.state.clock == n.state.clock
    ensures t.state.callers[0] == if Fails(events) then Failed else n.state.callers[0]
  {
    t := PlayEvent(timeout, n, events);
    PlayConcat(timeout, m, log, Noted(events), n);
  }

  /** The first half of a round that finds a value: read, sleep, and what happens meanwhile. */
  lemma PlayedHalfRound(timeout: nat, m: Machine, events: seq<Event>) returns (t: Machine)
    requires Others(m, |events|) && m.state.callers[0].Entered? && !Fails(events)
    requires Arrived(m.state.store, events).Some?
    ensures var first, rest := Arrived(m.state.store, events), Rest(events);
            && Plays(timeout, m, Noted(events) + [Saw(first), Slept] + Noted(rest), t) && Others(t, |Rest(rest)|)
            && t.state.store == Arrived(first, rest)
            && (Fails(rest) ==> t.state.callers[0] == Failed)
            && (!Fails(rest) ==> t.state.callers[0].Waiting? && t.state.callers[0].src == first.value
                                 && t.state.callers[0].readAt + timeout <= t.state.clock)
  {
    var first, rest := Arrived(m.state.store, events), Rest(events);
    var a := PlayEvent(timeout, m, events);
    var b := PlayRead(timeout, a, |rest|);
    PlaySnoc(timeout, m, Noted(events), a, Saw(first));
    var c := PlaySleep(timeout, b, |rest|);
    PlaySnoc(timeout, m, Noted(events) + [Saw(first)], b, Slept);
    assert Noted(events) + [Saw(first)] + [Slept] == Noted(events) + [Saw(first), Slept];
    t := PlayedEvent(timeout, m, Noted(events) + [Saw(first), Slept], c, rest);
  }

  /** A round that finds no value: read, and what happens before the Put. */
  lemma PlayedMissing(timeout: nat, m: Machine, events: seq<Event>) returns (n: Machine, t: Machine)
    requires Others(m, |events|) && m.state.callers[0].Entered? && !Fails(events)
    requires Arrived(m.state.store, events).None?
    ensures var rest := Rest(events);
            && Plays(timeout, m, Noted(events) + [Saw(None)], n) && Others(n, |rest|)
            && n.state.store == None && n.state.callers[0].Initialising?
            && Plays(timeout, m, Noted(events) + [Saw(None)] + Noted(rest), t) && Others(t, |Rest(rest)|)
            && (Fails(rest) ==> t.state.callers[0] == Failed && t.state.store == None)
            && (!Fails(rest) ==> t.state.callers[0].Initialising?)
  {
    var a := PlayEvent(timeout, m, events);
    n := PlayRead(timeout, a, |Rest(events)|);
    PlaySnoc(timeout, m, Noted(events), a, Saw(None));
    t := PlayedEvent(timeout, m, Noted(events) + [Saw(None)], n, Rest(events));
  }

  /** Every call is a run of the state machine: whatever the other instances store and wherever an access fails,
      what happens at the store is, access by access, a run in which this caller takes the steps of its rounds
      and others store their values, and which ends with the caller having returned the result. So all that is
      proved of runs holds of calls. */
  lemma {:induction false} CallIsARun(timeout: nat, m: Machine, entry: Option<Value>, events: seq<Event>,
                                      init: Option<Value>) returns (t: Machine)
    requires Others(m, |events|) && m.state.store == entry && m.state.callers[0].Entered?
    ensures var o := CallOutcome(entry, events, init);
            Plays(timeout, m, o.log, t) && t.Ok() && t.state.store == o.entry && EndsAs(t.state.callers[0], o.result)
    decreases |events|, if entry.None? then 1 else 0
  {
    var first, rest := Arrived(entry, events), Rest(events);
    if Fails(events) {
      t := PlayEvent(timeout, m, events);
    } else if first.Some? {
      var log := Noted(events) + [Saw(first), Slept] + Noted(rest);
      t := PlayedHalfRound(timeout, m, events);
      if !Fails(rest) {
        var second := t.state.store;
        var n := PlayReread(timeout, t, |Rest(rest)|);
        PlaySnoc(timeout, m, log, t, Saw(second));
        t := n;
        if second != first {
          t := CallIsARun(timeout, n, second, Rest(rest), init);
          PlayConcat(timeout, m, log + [Saw(second)], CallOutcome(second, Rest(rest), init).log, n);
        }
      }
    } else {
      var missing;
      missing, t := PlayedMissing(timeout, m, events);
      if init.None? {
        t := missing;
      } else if !Fails(rest) {
        var log := Noted(events) + [Saw(None)] + Noted(rest);
        var n := PlayPut(timeout, t, |Rest(rest)|, init.value);
        PlaySnoc(timeout, m, log, t, Stored(init.value));
        t := CallIsARun(timeout, n, init, Rest(rest), init);
        PlayConcat(timeout, m, log + [Stored(init.value)], CallOutcome(init, Rest(rest), init).log, n);
      }
    }
  }

  /** The steps of a caller that nobody disturbs. */
  function CallSteps(timeout: nat, store: Option<Value>, i: nat, v: Value): seq<Step> {
    (if store.Some? then [] else [Read(i), Put(i, v)]) + [Read(i), Tick(timeout), Reread(i)]
  }

  /** The call and the state machine agree: left alone, a caller that has entered returns the value that is
      there, or else its own, which is then the stored one. */
  lemma UndisturbedCall(timeout: nat, s: State, i: nat, v: Value)
    requires |s.callers| == |s.rounds| && i < |s.callers| && s.callers[i].Entered?
    ensures var steps := CallSteps(timeout, s.store, i, v);
            var value := if s.store.Some? then s.store.value else v;
            && Runs(timeout, s, steps)
            && var t := Exec(timeout, s, steps);
            && t.store == Some(value) && |t.callers| == |s.callers| && t.callers[i] == Returned(value)
            && forall j :: 0 <= j < |s.callers| && j != i ==> t.callers[j] == s.callers[j]
  {
    if s.store.Some? {
      SettledCall(timeout, s, i);
      assert CallSteps(timeout, s.store, i, v) == [Read(i), Tick(timeout), Reread(i)];
    } else {
      var a := Apply(timeout, s, Read(i));
      var b := Apply(timeout, a, Put(i, v));
      SettledCall(timeout, b, i);
      var steps := [Read(i), Tick(timeout), Reread(i)];
      steps := RunsCons(timeout, a, Put(i, v), steps);
      steps := RunsCons(timeout, s, Read(i), steps);
      assert steps == CallSteps(timeout, s.store, i, v);
    }
  }

  lemma SettledCall(timeout: nat, s: State, i: nat)
    requires |s.callers| == |s.rounds| && i < |s.callers| && s.callers[i].Entered? && s.store.Some?
    ensures var steps := [Read(i), Tick(timeout), Reread(i)];
            && Runs(timeout, s, steps)
            && Exec(timeout, s, steps) ==
               s.(clock := s.clock + timeout, callers := s.callers[i := Returned(s.store.value)])
  {
    var a := Apply(timeout, s, Read(i));
    var b := Apply(timeout, a, Tick(timeout));
    var steps := RunsCons(timeout, b, Reread(i), []);
    steps := RunsCons(timeout, a, Tick(timeout), steps);
    steps := RunsCons(timeout, s, Read(i), steps);
    assert steps == [Read(i), Tick(timeout), Reread(i)];
  }
}
