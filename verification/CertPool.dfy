/** The certificate pool (internal/pkg/tlsutil/certpool.go): certificates are queued by Add and moved into a
    new pool by the next Get, which learns of them from a dirty flag that is not protected by the lock. */
module CertPool {
  import opened Common

  /** A certificate; two are equal if their raw bytes are. */
  datatype Cert = Cert(subject: string, raw: string)

  /** A pointer to a certificate, as passed to Add. */
  datatype Pointer = Nil | Pointer(id: nat, cert: Cert)

  type Index = map<string, seq<nat>>

  // ---------------------------------------------------------------------------------------------
  // The queue and its index

  function ListOf(index: Index, subject: string): seq<nat> {
    if subject in index then index[subject] else []
  }

  /** The positions of the certificates with the given subject, in order. */
  function Positions(certs: seq<Cert>, subject: string): seq<nat> {
    if certs == [] then []
    else
      var last := |certs| - 1;
      Positions(certs[..last], subject) + (if certs[last].subject == subject then [last] else [])
  }

  /** The index lists, for every subject, exactly the positions of the certificates with that subject. */
  ghost predicate IndexIsExact(certs: seq<Cert>, index: Index) {
    forall subject :: ListOf(index, subject) == Positions(certs, subject)
  }

  /** The queue with one more certificate: the body of the loop of Add. */
  function Enqueue(index: Index, position: nat, cert: Cert): Index {
    index[cert.subject := ListOf(index, cert.subject) + [position]]
  }

  function EnqueueAll(certs: seq<Cert>, index: Index, added: seq<Cert>): Index
    decreases |added|
  {
    if added == [] then index
    else EnqueueAll(certs + [added[0]], Enqueue(index, |certs|, added[0]), added[1..])
  }

  lemma EnqueueAllCons(certs: seq<Cert>, index: Index, cert: Cert, rest: seq<Cert>)
    ensures EnqueueAll(certs, index, [cert] + rest) == EnqueueAll(certs + [cert], Enqueue(index, |certs|, cert), rest)
    ensures certs + ([cert] + rest) == certs + [cert] + rest
  {
    var added := [cert] + rest;
    assert added[0] == cert && added[1..] == rest;
  }

  lemma {:induction false} EnqueueAllSnoc(certs: seq<Cert>, index: Index, front: seq<Cert>, cert: Cert)
    ensures EnqueueAll(certs, index, front + [cert])
            == Enqueue(EnqueueAll(certs, index, front), |certs| + |front|, cert)
    decreases |front|
  {
    if front == [] {
      assert front + [cert] == [cert] + [];
      EnqueueAllCons(certs, index, cert, []);
    } else {
      var head, tail := front[0], front[1..];
      assert front == [head] + tail && front + [cert] == [head] + (tail + [cert]);
      EnqueueAllCons(certs, index, head, tail + [cert]);
      EnqueueAllCons(certs, index, head, tail);
      EnqueueAllSnoc(certs + [head], Enqueue(index, |certs|, head), tail, cert);
    }
  }

  lemma EnqueueAt(certs: seq<Cert>, index: Index, cert: Cert, subject: string)
    requires ListOf(index, subject) == Positions(certs, subject)
    ensures ListOf(Enqueue(index, |certs|, cert), subject) == Positions(certs + [cert], subject)
  {
    assert (certs + [cert])[..|certs|] == certs;
  }

  lemma {:induction false} EnqueueAllAt(certs: seq<Cert>, index: Index, added: seq<Cert>, subject: string)
    requires ListOf(index, subject) == Positions(certs, subject)
    ensures ListOf(EnqueueAll(certs, index, added), subject) == Positions(certs + added, subject)
    decreases |added|
  {
    if added == [] {
      assert certs + added == certs;
    } else {
      var head, tail := added[0], added[1..];
      assert added == [head] + tail;
      EnqueueAllCons(certs, index, head, tail);
      EnqueueAt(certs, index, head, subject);
      EnqueueAllAt(certs + [head], Enqueue(index, |certs|, head), tail, subject);
    }
  }

  lemma EnqueueAllKeepsIndex(certs: seq<Cert>, index: Index, added: seq<Cert>)
    requires IndexIsExact(certs, index)
    ensures IndexIsExact(certs + added, EnqueueAll(certs, index, added))
  {
    forall subject ensures ListOf(EnqueueAll(certs, index, added), subject) == Positions(certs + added, subject) {
      EnqueueAllAt(certs, index, added, subject);
    }
  }

  lemma {:induction false} PositionsAreExact(certs: seq<Cert>, subject: string, p: nat)
    ensures p in Positions(certs, subject) <==> p < |certs| && certs[p].subject == subject
    decreases |certs|
  {
    if certs != [] {
      PositionsAreExact(certs[..|certs| - 1], subject, p);
    }
  }

  // ---------------------------------------------------------------------------------------------
  // What Add adds

  /** The search of `filterCerts`: among the positions listed for the subject, one with the same bytes. */
  predicate Listed(certs: seq<Cert>, index: Index, cert: Cert) {
    exists i :: 0 <= i < |ListOf(index, cert.subject)| && HoldsAt(certs, ListOf(index, cert.subject)[i], cert)
  }

  predicate HoldsAt(certs: seq<Cert>, p: nat, cert: Cert) {
    p < |certs| && certs[p].raw == cert.raw
  }

  /** With an exact index, searching only the subject's own positions finds every queued certificate. */
  lemma ListedMeansQueued(certs: seq<Cert>, index: Index, cert: Cert)
    requires IndexIsExact(certs, index)
    ensures Listed(certs, index, cert) <==> cert in certs
  {
    var list := ListOf(index, cert.subject);
    if Listed(certs, index, cert) {
      var i :| 0 <= i < |list| && HoldsAt(certs, list[i], cert);
      assert list[i] in list;
      PositionsAreExact(certs, cert.subject, list[i]);
    }
    if cert in certs {
      var p :| 0 <= p < |certs| && certs[p] == cert;
      PositionsAreExact(certs, cert.subject, p);
      var i :| 0 <= i < |list| && list[i] == p;
      assert HoldsAt(certs, list[i], cert);
    }
  }

  /** The pointers that are not nil and whose certificate is not queued. */
  function Unqueued(certs: seq<Cert>, incoming: seq<Pointer>): seq<Pointer> {
    if incoming == [] then []
    else
      var last := incoming[|incoming| - 1];
      Unqueued(certs, incoming[..|incoming| - 1]) + (if last.Nil? || last.cert in certs then [] else [last])
  }

  /** Every pointer where it first occurs. */
  function Distinct(pointers: seq<Pointer>): seq<Pointer> {
    if pointers == [] then []
    else
      var front, last := pointers[..|pointers| - 1], pointers[|pointers| - 1];
      Distinct(front) + (if last in front then [] else [last])
  }

  /** What `filterCerts` returns. */
  function Fresh(certs: seq<Cert>, incoming: seq<Pointer>): seq<Pointer> {
    Distinct(Unqueued(certs, incoming))
  }

  lemma {:induction false} UnqueuedExactly(certs: seq<Cert>, incoming: seq<Pointer>, p: Pointer)
    ensures p in Unqueued(certs, incoming) <==> p in incoming && p.Pointer? && p.cert !in certs
    decreases |incoming|
  {
    if incoming != [] {
      var front := incoming[..|incoming| - 1];
      UnqueuedExactly(certs, front, p);
      assert incoming == front + [incoming[|incoming| - 1]];
    }
  }

  lemma {:induction false} DistinctExactly(pointers: seq<Pointer>)
    ensures forall p :: p in Distinct(pointers) <==> p in pointers
    ensures forall i, j :: 0 <= i < j < |Distinct(pointers)| ==> Distinct(pointers)[i] != Distinct(pointers)[j]
    decreases |pointers|
  {
    if pointers != [] {
      var front, last := pointers[..|pointers| - 1], pointers[|pointers| - 1];
      DistinctExactly(front);
      assert pointers == front + [last];
    }
  }

  /** Add queues exactly the incoming pointers that are not nil and not already queued, each once. */
  lemma FreshExactly(certs: seq<Cert>, incoming: seq<Pointer>)
    ensures forall p :: p in Fresh(certs, incoming) <==> p in incoming && p.Pointer? && p.cert !in certs
    ensures forall i, j :: 0 <= i < j < |Fresh(certs, incoming)| ==> Fresh(certs, incoming)[i] != Fresh(certs, incoming)[j]
  {
    forall p ensures p in Fresh(certs, incoming) <==> p in incoming && p.Pointer? && p.cert !in certs {
      UnqueuedExactly(certs, incoming, p);
      DistinctExactly(Unqueued(certs, incoming));
    }
    DistinctExactly(Unqueued(certs, incoming));
  }

  function CertsOf(pointers: seq<Pointer>): seq<Cert>
    requires forall i :: 0 <= i < |pointers| ==> pointers[i].Pointer?
  {
    seq(|pointers|, i requires 0 <= i < |pointers| => pointers[i].cert)
  }

  lemma FreshAreCertificates(certs: seq<Cert>, incoming: seq<Pointer>)
    ensures forall i :: 0 <= i < |Fresh(certs, incoming)| ==> Fresh(certs, incoming)[i].Pointer?
  {
    FreshExactly(certs, incoming);
    forall i | 0 <= i < |Fresh(certs, incoming)| ensures Fresh(certs, incoming)[i].Pointer? {
      assert Fresh(certs, incoming)[i] in Fresh(certs, incoming);
    }
  }

  function Added(certs: seq<Cert>, incoming: seq<Pointer>): seq<Cert> {
    FreshAreCertificates(certs, incoming);
    CertsOf(Fresh(certs, incoming))
  }

  /** After Add every certificate passed to it is queued, nothing else is new, and adding the same
      certificates once more queues nothing. */
  lemma AddedExactly(certs: seq<Cert>, incoming: seq<Pointer>, cert: Cert)
    ensures cert in certs + Added(certs, incoming)
            <==> cert in certs || exists p :: p in incoming && p.Pointer? && p.cert == cert
    ensures Added(certs + Added(certs, incoming), incoming) == []
  {
    FreshExactly(certs, incoming);
    FreshAreCertificates(certs, incoming);
    var chosen, added := Fresh(certs, incoming), Added(certs, incoming);
    forall p | p in chosen ensures p.cert in added {
      var i :| 0 <= i < |chosen| && chosen[i] == p;
      assert added[i] == p.cert;
    }
    if cert in added {
      var i :| 0 <= i < |added| && added[i] == cert;
      assert chosen[i] in chosen && chosen[i].cert == cert;
    }
    var again := Fresh(certs + added, incoming);
    assert again == [] || again[0] in again;
    FreshExactly(certs + added, incoming);
  }

  function AsSet(certs: seq<Cert>): set<Cert> {
    set c | c in certs
  }

  // ---------------------------------------------------------------------------------------------
  // Interleaved callers

  /** Where a caller is in Add or Get. `start` is history: how many certificates had been queued by calls of Add
      that had returned when this Get began. */
  datatype Caller =
    | Ready
    | Filtered(added: seq<Cert>)                // Add: chosen what to add, not holding the lock
    | Appended                                  // Add: queued, holding the lock, flag not yet set
    | Cleared(start: nat)                       // Get: has cleared the flag
    | Loaded(start: nat)                        // Get: has loaded the base pool
    | Returning(start: nat, refreshed: bool)    // Get: about to return the installed pool
    | Got(start: nat, pool: set<Cert>)          // Get: has returned this pool

  /** `complete`, `installed` and `failed` are history: how many certificates calls of Add that have returned
      have queued, how many the last swap installed, and how many a Get that failed to load had to install. */
  datatype State = State(
    base: set<Cert>,
    certs: seq<Cert>,
    index: Index,
    dirty: bool,
    pool: set<Cert>,
    lock: Option<nat>,
    callers: seq<Caller>,
    complete: nat,
    installed: nat,
    failed: nat
  )

  datatype Step =
    | Filter(i: nat, incoming: seq<Pointer>)
    | Append(i: nat)
    | SetDirty(i: nat)
    | TestDirty(i: nat)
    | Load(i: nat)
    | FailLoad(i: nat)
    | Swap(i: nat)
    | Return(i: nat)

  /** The caller is between calls. */
  predicate IsFree(c: Caller) {
    c.Ready? || c.Got?
  }

  predicate Enabled(s: State, step: Step) {
    && step.i < |s.callers|
    && match step
       case Filter(i, _) => IsFree(s.callers[i]) && s.lock.None?
       case Append(i) => s.callers[i].Filtered? && s.lock.None?
       case SetDirty(i) => s.callers[i].Appended?
       case TestDirty(i) => IsFree(s.callers[i])
       case Load(i) => s.callers[i].Cleared?
       case FailLoad(i) => s.callers[i].Cleared?
       case Swap(i) => s.callers[i].Loaded? && s.lock.None?
       case Return(i) => s.callers[i].Returning? && s.lock.None?
  }

  function Set(s: State, i: nat, c: Caller): State
    requires i < |s.callers|
  {
    s.(callers := s.callers[i := c])
  }

  function Max(a: nat, b: nat): nat {
    if a < b then b else a
  }

  function Apply(s: State, step: Step): State
    requires Enabled(s, step)
  {
    match step
    case Filter(i, incoming) =>
      var added := Added(s.certs, incoming);
      if added == [] then Set(s, i, Ready) else Set(s, i, Filtered(added))
    case Append(i) =>
      var added := s.callers[i].added;
      Set(s, i, Appended).(certs := s.certs + added, index := EnqueueAll(s.certs, s.index, added),
                           lock := Some(i))
    case SetDirty(i) => Set(s, i, Ready).(dirty := true, lock := None, complete := |s.certs|)
    case TestDirty(i) =>
      if s.dirty then Set(s, i, Cleared(s.complete)).(dirty := false)
      else Set(s, i, Returning(s.complete, false))
    case Load(i) => Set(s, i, Loaded(s.callers[i].start))
    case FailLoad(i) => Set(s, i, Ready).(failed := Max(s.failed, s.callers[i].start))
    case Swap(i) =>
      Set(s, i, Returning(s.callers[i].start, true)).(pool := s.base + AsSet(s.certs), installed := |s.certs|)
    case Return(i) => Set(s, i, Got(s.callers[i].start, s.pool))
  }

  ghost predicate Runs(s: State, steps: seq<Step>)
    decreases |steps|
  {
    steps == [] || (Enabled(s, steps[0]) && Runs(Apply(s, steps[0]), steps[1..]))
  }

  ghost function Exec(s: State, steps: seq<Step>): State
    requires Runs(s, steps)
    decreases |steps|
  {
    if steps == [] then s else Exec(Apply(s, steps[0]), steps[1..])
  }

  ghost predicate Initial(s: State) {
    && s.certs == [] && s.index == map[] && !s.dirty && s.pool == s.base && s.lock.None?
    && s.complete == 0 && s.installed == 0 && s.failed == 0
    && forall i :: 0 <= i < |s.callers| ==> s.callers[i].Ready?
  }

  predicate IsRefreshing(c: Caller) {
    c.Cleared? || c.Loaded?
  }

  /** The installed pool is the base pool with all queued certificates. */
  predicate PoolIsCurrent(s: State) {
    s.pool == s.base + AsSet(s.certs)
  }

  // ---------------------------------------------------------------------------------------------
  // What every interleaving keeps

  /** Certificate p waits for a Get that has cleared the flag after p was queued, and has not swapped yet. */
  ghost predicate Waits(s: State, p: nat) {
    exists i :: 0 <= i < |s.callers| && WaitsFor(s.callers[i], p)
  }

  predicate WaitsFor(c: Caller, p: nat) {
    IsRefreshing(c) && p < c.start
  }

  /** The Get that had cleared the flag for certificate p has installed it, has failed, or is still at it. */
  ghost predicate Taken(s: State, p: nat) {
    p < s.installed || p < s.failed || Waits(s, p)
  }

  ghost predicate CallerInv(s: State, i: nat)
    requires i < |s.callers|
  {
    match s.callers[i]
    case Appended => s.lock == Some(i)
    case Cleared(start) => start <= s.complete
    case Loaded(start) => start <= s.complete
    case Returning(start, refreshed) =>
      && start <= s.complete && (refreshed ==> start <= s.installed)
      && forall p :: 0 <= p < start ==> Taken(s, p)
    case _ => true
  }

  ghost predicate Inv(s: State) {
    && IndexIsExact(s.certs, s.index)
    && s.complete <= |s.certs| && (s.lock.None? ==> s.complete == |s.certs|)
    && s.installed <= |s.certs| && s.pool == s.base + AsSet(s.certs[..s.installed])
    && s.failed <= s.complete
    && (forall i :: 0 <= i < |s.callers| ==> CallerInv(s, i))
    && (s.dirty || forall p :: 0 <= p < s.complete ==> Taken(s, p))
  }

  /** What has been taken in hand stays so: by the swap it becomes installed, by the failure failed. */
  lemma TakenStays(s: State, step: Step, p: nat)
    requires Enabled(s, step) && p < |s.certs| && s.installed <= |s.certs| && Taken(s, p)
    ensures Taken(Apply(s, step), p)
  {
    var t := Apply(s, step);
    if p >= s.installed && p >= s.failed {
      var k :| 0 <= k < |s.callers| && WaitsFor(s.callers[k], p);
      if k != step.i || step.Load? {
        assert WaitsFor(t.callers[k], p);
      }
    }
  }

  lemma InstalledStays(s: State, step: Step)
    requires Enabled(s, step) && s.installed <= |s.certs| && s.pool == s.base + AsSet(s.certs[..s.installed])
    ensures var t := Apply(s, step);
            s.installed <= t.installed <= |t.certs| && t.pool == t.base + AsSet(t.certs[..t.installed])
  {
    var t := Apply(s, step);
    if step.Swap? {
      assert t.certs[..t.installed] == s.certs;
    } else {
      assert t.certs[..t.installed] == s.certs[..s.installed];
    }
  }

  lemma CallerStep(s: State, step: Step, i: nat)
    requires Inv(s) && Enabled(s, step) && i < |s.callers|
    ensures CallerInv(Apply(s, step), i)
  {
    var t := Apply(s, step);
    assert CallerInv(s, i);
    InstalledStays(s, step);
    if step.SetDirty? {
      assert CallerInv(s, step.i);
    }
    if t.callers[i].Returning? {
      forall p | 0 <= p < t.callers[i].start ensures Taken(t, p) {
        if step.i != i || step.TestDirty? {
          assert Taken(s, p);
          TakenStays(s, step, p);
        }
      }
    }
  }

  lemma CoverageStep(s: State, step: Step, p: nat)
    requires Inv(s) && Enabled(s, step) && !Apply(s, step).dirty && p < Apply(s, step).complete
    ensures Taken(Apply(s, step), p)
  {
    var t := Apply(s, step);
    if s.dirty {
      assert WaitsFor(t.callers[step.i], p);
    } else {
      assert Taken(s, p);
      TakenStays(s, step, p);
    }
  }

  lemma InvStep(s: State, step: Step)
    requires Inv(s) && Enabled(s, step)
    ensures Inv(Apply(s, step))
  {
    var t := Apply(s, step);
    if step.Append? {
      EnqueueAllKeepsIndex(s.certs, s.index, s.callers[step.i].added);
    }
    InstalledStays(s, step);
    assert CallerInv(s, step.i);
    forall i | 0 <= i < |t.callers| ensures CallerInv(t, i) {
      CallerStep(s, step, i);
    }
    if !t.dirty {
      forall p | 0 <= p < t.complete ensures Taken(t, p) {
        CoverageStep(s, step, p);
      }
    }
  }

  lemma {:induction false} InvRun(s: State, steps: seq<Step>)
    requires Inv(s) && Runs(s, steps)
    ensures Inv(Exec(s, steps))
    decreases |steps|
  {
    if steps != [] {
      InvStep(s, steps[0]);
      InvRun(Apply(s, steps[0]), steps[1..]);
    }
  }

  lemma InitialInv(s: State)
    requires Initial(s)
    ensures Inv(s)
  {
    assert AsSet(s.certs[..0]) == {};
  }

  // ---------------------------------------------------------------------------------------------
  // When the pool is current

  /** Certificate p was queued since the last swap, is neither in the base nor among those installed, and waits
      for a Get that has cleared the flag, or that Get has failed to load the base. */
  ghost predicate Pending(s: State, p: nat) {
    && s.installed <= p < |s.certs|
    && s.certs[p] !in s.base && s.certs[p] !in s.certs[..s.installed]
    && (p < s.failed || Waits(s, p))
  }

  /** Of the first n certificates, the pool lacks one exactly when one is pending, if all are taken in hand. */
  lemma LacksExactlyThePending(s: State, n: nat)
    requires s.installed <= |s.certs| && s.pool == s.base + AsSet(s.certs[..s.installed]) && n <= |s.certs|
    requires forall p :: 0 <= p < n ==> Taken(s, p)
    ensures (forall p :: 0 <= p < n ==> s.certs[p] in s.pool) <==> !(exists p :: 0 <= p < n && Pending(s, p))
  {
    forall p | 0 <= p < n ensures s.certs[p] in s.pool <==> !Pending(s, p) {
      assert Taken(s, p);
      if p < s.installed {
        assert s.certs[..s.installed][p] == s.certs[p];
      }
    }
  }

  lemma CurrentMeansAllIn(s: State)
    requires s.installed <= |s.certs| && s.pool == s.base + AsSet(s.certs[..s.installed])
    ensures PoolIsCurrent(s) <==> forall p :: 0 <= p < |s.certs| ==> s.certs[p] in s.pool
  {
    assert forall c :: c in s.certs[..s.installed] ==> c in s.certs;
  }

  /** After every step of every interleaving of Add and Get the index is exact; and with the flag clear and the
      lock free, the installed pool is the base and all queued certificates if and only if no certificate is
      pending. */
  lemma PoolAgrees(s0: State, steps: seq<Step>)
    requires Initial(s0) && Runs(s0, steps)
    ensures var s := Exec(s0, steps);
            && IndexIsExact(s.certs, s.index)
            && (!s.dirty && s.lock.None? ==>
                  (PoolIsCurrent(s) <==> !exists p :: 0 <= p < |s.certs| && Pending(s, p)))
  {
    InitialInv(s0);
    InvRun(s0, steps);
    var s := Exec(s0, steps);
    if !s.dirty && s.lock.None? {
      LacksExactlyThePending(s, |s.certs|);
      CurrentMeansAllIn(s);
    }
  }

  /** In particular the pool is current when no Get is between clearing the flag and swapping the pool, and a
      swap has been made since the last failed load. */
  lemma QuietPoolIsCurrent(s0: State, steps: seq<Step>)
    requires Initial(s0) && Runs(s0, steps)
    ensures var s := Exec(s0, steps);
            && !s.dirty && s.lock.None? && s.failed <= s.installed
            && (forall i :: 0 <= i < |s.callers| ==> !IsRefreshing(s.callers[i]))
            ==> PoolIsCurrent(s)
  {
    PoolAgrees(s0, steps);
  }

  /** The promise of Get: in every run, when a Get returns, its pool holds every certificate that was queued by a
      call of Add that had returned before the Get began if and only if none of those certificates is
      pending. A Get that has refreshed the pool itself always keeps the promise. */
  lemma GetKeepsItsPromise(s0: State, steps: seq<Step>, i: nat)
    requires Initial(s0) && Runs(s0, steps) && Enabled(Exec(s0, steps), Return(i))
    ensures var s := Exec(s0, steps);
            var start := s.callers[i].start;
            && start <= |s.certs|
            && Apply(s, Return(i)).callers[i] == Got(start, s.pool)
            && ((forall p :: 0 <= p < start ==> s.certs[p] in s.pool) <==>
                !exists p :: 0 <= p < start && Pending(s, p))
            && (s.callers[i].refreshed ==> forall p :: 0 <= p < start ==> s.certs[p] in s.pool)
  {
    InitialInv(s0);
    InvRun(s0, steps);
    var s := Exec(s0, steps);
    assert CallerInv(s, i);
    LacksExactlyThePending(s, s.callers[i].start);
  }

  // ---------------------------------------------------------------------------------------------
  // How a certificate comes to be pending

  lemma RunsCons(s: State, step: Step, rest: seq<Step>) returns (steps: seq<Step>)
    requires Enabled(s, step) && Runs(Apply(s, step), rest)
    ensures Runs(s, steps) && Exec(s, steps) == Exec(Apply(s, step), rest)
  {
    steps := [step] + rest;
    assert steps[1..] == rest;
  }

  /** Two callers over an empty queue. */
  ghost function Empty(base: set<Cert>, first: Caller): State {
    State(base, [], map[], false, base, None, [first, Ready], 0, 0, 0)
  }

  /** One certificate is queued; the callers are where `first` and `second` say. */
  ghost function OneQueued(base: set<Cert>, cert: Cert, dirty: bool, first: Caller, second: Caller, failed: nat): State {
    State(base, [cert], map[cert.subject := [0]], dirty, base, None, [first, second], 1, 0, failed)
  }

  lemma EnqueueOne(cert: Cert)
    ensures EnqueueAll([], map[], [cert]) == map[cert.subject := [0]]
  {
    var none: Index := map[];
    assert ListOf(none, cert.subject) + [0] == [0];
    assert Enqueue(none, 0, cert) == map[cert.subject := [0]];
    EnqueueAllCons([], none, cert, []);
    assert [cert] + [] == [cert];
  }

  lemma FilterOne(cert: Cert)
    ensures Added([], [Pointer(0, cert)]) == [cert]
  {
    var incoming := [Pointer(0, cert)];
    assert incoming[..0] == [];
    assert Unqueued([], incoming) == incoming;
    assert Distinct(incoming) == incoming;
  }

  /** A call of Add for one certificate, from choosing it to setting the flag. */
  lemma AddOne(base: set<Cert>, cert: Cert, rest: seq<Step>) returns (steps: seq<Step>)
    requires Runs(OneQueued(base, cert, true, Ready, Ready, 0), rest)
    ensures Runs(Empty(base, Ready), steps)
    ensures Exec(Empty(base, Ready), steps) == Exec(OneQueued(base, cert, true, Ready, Ready, 0), rest)
  {
    steps := AppendOne(base, cert, rest);
    FilterOne(cert);
    var s := Empty(base, Ready);
    assert [Ready, Ready][0 := Filtered([cert])] == [Filtered([cert]), Ready];
    assert Apply(s, Filter(0, [Pointer(0, cert)])) == Empty(base, Filtered([cert]));
    steps := RunsCons(s, Filter(0, [Pointer(0, cert)]), steps);
  }

  lemma AppendOne(base: set<Cert>, cert: Cert, rest: seq<Step>) returns (steps: seq<Step>)
    requires Runs(OneQueued(base, cert, true, Ready, Ready, 0), rest)
    ensures Runs(Empty(base, Filtered([cert])), steps)
    ensures Exec(Empty(base, Filtered([cert])), steps) == Exec(OneQueued(base, cert, true, Ready, Ready, 0), rest)
  {
    var s := Empty(base, Filtered([cert]));
    var a := Apply(s, Append(0));
    EnqueueOne(cert);
    assert a.certs == [cert];
    assert a.callers == [Appended, Ready];
    var b := Apply(a, SetDirty(0));
    assert b.callers == [Ready, Ready];
    assert b == OneQueued(base, cert, true, Ready, Ready, 0);
    steps := RunsCons(a, SetDirty(0), rest);
    steps := RunsCons(s, Append(0), steps);
  }

  /** The second caller finds the flag clear and returns the pool as it is. */
  lemma SecondGets(base: set<Cert>, cert: Cert, first: Caller, failed: nat) returns (steps: seq<Step>)
    ensures var s := OneQueued(base, cert, false, first, Ready, failed);
            Runs(s, steps) && Exec(s, steps) == OneQueued(base, cert, false, first, Got(1, base), failed)
  {
    var s := OneQueued(base, cert, false, first, Ready, failed);
    var a := Apply(s, TestDirty(1));
    assert a == OneQueued(base, cert, false, first, Returning(1, false), failed);
    steps := RunsCons(a, Return(1), []);
    steps := RunsCons(s, TestDirty(1), steps);
  }

  /** A failed load loses certificates: the Get that clears the flag cannot load the base, and the next Get,
      which begins after Add has returned, returns a pool without the certificate, with nothing under way that
      would add it. */
  lemma FailedLoadLosesCertificates(base: set<Cert>, cert: Cert)
    requires cert !in base
    ensures exists steps :: Runs(Empty(base, Ready), steps) &&
              Exec(Empty(base, Ready), steps) == OneQueued(base, cert, false, Ready, Got(1, base), 1)
  {
    var rest := SecondGets(base, cert, Ready, 1);
    var s := OneQueued(base, cert, true, Ready, Ready, 0);
    var a := Apply(s, TestDirty(0));
    assert a == OneQueued(base, cert, false, Cleared(1), Ready, 0);
    assert Apply(a, FailLoad(0)) == OneQueued(base, cert, false, Ready, Ready, 1);
    rest := RunsCons(a, FailLoad(0), rest);
    rest := RunsCons(s, TestDirty(0), rest);
    var steps := AddOne(base, cert, rest);
  }

  /** A Get that begins after an Add has returned can return a pool without that certificate, if another Get has
      cleared the flag and not yet swapped the pool: to the second Get the flag is clear. */
  lemma ConcurrentGetIsStale(base: set<Cert>, cert: Cert)
    requires cert !in base
    ensures exists steps :: Runs(Empty(base, Ready), steps) &&
              Exec(Empty(base, Ready), steps) == OneQueued(base, cert, false, Cleared(1), Got(1, base), 0)
  {
    var rest := SecondGets(base, cert, Cleared(1), 0);
    var s := OneQueued(base, cert, true, Ready, Ready, 0);
    assert Apply(s, TestDirty(0)) == OneQueued(base, cert, false, Cleared(1), Ready, 0);
    rest := RunsCons(s, TestDirty(0), rest);
    var steps := AddOne(base, cert, rest);
  }

  // ---------------------------------------------------------------------------------------------
  // The object, one call at a time

  method RemoveDuplicates(pointers: seq<Pointer>) returns (result: seq<Pointer>)
    ensures result == Distinct(pointers)
  {
    var encountered: set<Pointer> := {};
    result := [];
    for v := 0 to |pointers|
      invariant encountered == set p | p in pointers[..v]
      invariant result == Distinct(pointers[..v])
    {
      assert pointers[..v + 1][..v] == pointers[..v];
      assert pointers[..v + 1] == pointers[..v] + [pointers[v]];
      if pointers[v] !in encountered {
        encountered := encountered + {pointers[v]};
        result := result + [pointers[v]];
      }
    }
    assert pointers[..|pointers|] == pointers;
  }

  /** The pool holds what the last swap installed, which is everything if the flag is clear and no load has
      failed since; and the index is exact. */
  ghost predicate PoolInv(base: set<Cert>, certs: seq<Cert>, index: Index, installed: nat, pool: set<Cert>,
                          settled: bool) {
    && IndexIsExact(certs, index)
    && installed <= |certs| && pool == base + AsSet(certs[..installed])
    && (settled ==> installed == |certs|)
  }

  lemma AddKeepsPoolInv(base: set<Cert>, certs: seq<Cert>, index: Index, installed: nat, pool: set<Cert>,
                        settled: bool, added: seq<Cert>)
    requires PoolInv(base, certs, index, installed, pool, settled)
    ensures PoolInv(base, certs + added, EnqueueAll(certs, index, added), installed, pool, settled && added == [])
    ensures added == [] ==> certs + added == certs && EnqueueAll(certs, index, added) == index
  {
    EnqueueAllKeepsIndex(certs, index, added);
    assert (certs + added)[..installed] == certs[..installed];
  }

  class Pool {
    const base: set<Cert>
    var certPool: set<Cert>
    var certs: seq<Cert>
    var certsByName: Index
    var dirty: bool

    /** How many certificates the last swap installed, and whether a load has failed since. */
    ghost var installed: nat
    ghost var failed: bool

    ghost predicate Valid()
      reads this
    {
      PoolInv(base, certs, certsByName, installed, certPool, !dirty && !failed)
    }

    constructor (base: set<Cert>)
      ensures Valid() && this.base == base && certPool == base
      ensures certs == [] && !dirty && !failed && installed == 0
    {
      this.base := base;
      certPool := base;
      certs := [];
      certsByName := map[];
      dirty := false;
      installed, failed := 0, false;
    }

    method FilterCerts(incoming: seq<Pointer>) returns (filtered: seq<Pointer>)
      requires Valid()
      ensures filtered == Fresh(certs, incoming)
    {
      filtered := [];
      for k := 0 to |incoming|
        invariant filtered == Unqueued(certs, incoming[..k])
      {
        assert incoming[..k + 1][..k] == incoming[..k];
        if incoming[k].Pointer? {
          var possibilities := ListOf(certsByName, incoming[k].cert.subject);
          var found := false;
          for j := 0 to |possibilities|
            invariant found <==> exists i :: 0 <= i < j && HoldsAt(certs, possibilities[i], incoming[k].cert)
          {
            assert possibilities[j] in possibilities;
            PositionsAreExact(certs, incoming[k].cert.subject, possibilities[j]);
            if certs[possibilities[j]].raw == incoming[k].cert.raw {
              assert HoldsAt(certs, possibilities[j], incoming[k].cert);
              found := true;
              break;
            }
          }
          assert found <==> Listed(certs, certsByName, incoming[k].cert);
          ListedMeansQueued(certs, certsByName, incoming[k].cert);
          if !found {
            filtered := filtered + [incoming[k]];
          }
        }
      }
      assert incoming[..|incoming|] == incoming;
      filtered := RemoveDuplicates(filtered);
    }

    /** The loop of Add. */
    method Queue(pointers: seq<Pointer>)
      requires forall i :: 0 <= i < |pointers| ==> pointers[i].Pointer?
      modifies this`certs, this`certsByName
      ensures certs == old(certs) + CertsOf(pointers)
      ensures certsByName == EnqueueAll(old(certs), old(certsByName), CertsOf(pointers))
    {
      ghost var added := CertsOf(pointers);
      for k := 0 to |pointers|
        invariant certs == old(certs) + added[..k]
        invariant certsByName == EnqueueAll(old(certs), old(certsByName), added[..k])
      {
        assert added[..k + 1] == added[..k] + [added[k]];
        EnqueueAllSnoc(old(certs), old(certsByName), added[..k], added[k]);
        certsByName := Enqueue(certsByName, |certs|, pointers[k].cert);
        certs := certs + [pointers[k].cert];
      }
      assert added[..|added|] == added;
    }

    method Add(incoming: seq<Pointer>)
      requires Valid()
      modifies this`certs, this`certsByName, this`dirty
      ensures Valid()
      ensures certs == old(certs) + Added(old(certs), incoming)
      ensures certsByName == EnqueueAll(old(certs), old(certsByName), Added(old(certs), incoming))
      ensures dirty == (old(dirty) || Added(old(certs), incoming) != [])
    {
      var toBeAdded := FilterCerts(incoming);
      FreshAreCertificates(certs, incoming);
      ghost var added := Added(certs, incoming);
      assert added == CertsOf(toBeAdded);
      AddKeepsPoolInv(base, certs, certsByName, installed, certPool, !dirty && !failed, added);
      if |toBeAdded| > 0 {
        Queue(toBeAdded);
        dirty := true;
      }
    }

    /** `load` says whether the base pool can be loaded. */
    method SwapCertPool(load: bool) returns (ok: bool)
      requires IndexIsExact(certs, certsByName)
      modifies this`certPool
      ensures ok == load
      ensures certPool == if ok then base + AsSet(certs) else old(certPool)
    {
      if !load {
        return false;
      }
      var newCertPool := base;
      for k := 0 to |certs|
        invariant newCertPool == base + AsSet(certs[..k])
      {
        assert certs[..k + 1] == certs[..k] + [certs[k]];
        newCertPool := newCertPool + {certs[k]};
      }
      assert certs[..|certs|] == certs;
      certPool := newCertPool;
      return true;
    }

    /** What Get returns holds every queued certificate exactly up to the last swap: all of them if this call
        swaps the pool, or found the flag clear and no load has failed since the last swap. */
    method Get(load: bool) returns (r: Option<set<Cert>>)
      requires Valid()
      modifies this`certPool, this`dirty, this`installed, this`failed
      ensures Valid() && !dirty
      ensures r.None? <==> old(dirty) && !load
      ensures r.Some? ==> r.value == certPool == base + AsSet(certs[..installed])
      ensures installed == (if old(dirty) && load then |certs| else old(installed))
      ensures failed == (if old(dirty) then !load else old(failed))
      ensures !failed ==> r == Some(base + AsSet(certs))
    {
      if dirty {
        dirty := false;
        var ok := SwapCertPool(load);
        failed := !ok;
        if !ok {
          return None;
        }
        installed := |certs|;
        assert certs[..installed] == certs;
      }
      assert certs[..|certs|] == certs;
      return Some(certPool);
    }
  }
}
