/** Runs of the locks, condition variables, semaphores and barriers of sync/thread.c, for any
  * number of threads. A step is one critical section; the object moves by the functions that
  * the methods of Sync are proved to compute.
  */
module SyncRuns {
  import opened Sync

  function Min(a: int, b: int): int { if a <= b then a else b }

  // ---------- A lock and a condition variable used with it ----------

  /** inside holds the threads whose acquisition succeeded and that have not released since; gap
    * those that are in condition_wait between the release of the lock and the condition queue;
    * woken those that left the condition queue but have not asked for the lock again.
    * arrivals, granted and releases record the history. */
  datatype Monitor<!T> = Monitor(
    lock: LockState<T>, condition: seq<T>, inside: set<T>, gap: set<T>, woken: set<T>,
    arrivals: seq<T>, granted: seq<T>, releases: nat)

  /** condition_wait within a critical section is the event Wait; at depth 0 it is LetGo and, any
    * number of events later, Join. */
  datatype LockEvent<T> =
    | Acquire(t: T) | Release(t: T) | Wait(t: T) | LetGo(t: T) | Join(t: T) | Signal | Broadcast | Resume(t: T)

  predicate Idle<T(==)>(s: Monitor<T>, t: T) {
    t !in s.inside && t !in s.lock.waiting && t !in s.condition && t !in s.gap && t !in s.woken
  }

  predicate CanStep<T(==)>(s: Monitor<T>, e: LockEvent<T>) {
    match e
    case Acquire(t) => Idle(s, t)
    case Release(t) => t in s.inside
    case Wait(t) => t in s.inside
    case LetGo(t) => t in s.inside
    case Join(t) => t in s.gap
    case Signal => true
    case Broadcast => true
    case Resume(t) => t in s.woken
  }

  function Ask<T>(s: Monitor<T>, t: T): Monitor<T> {
    var grant := if s.lock.status.Unlocked? then [t] else [];
    s.(lock := Acquired(s.lock, t), arrivals := s.arrivals + [t],
       granted := s.granted + grant, inside := s.inside + (set x | x in grant))
  }

  function Leave<T>(s: Monitor<T>, t: T): Monitor<T> {
    var grant := if s.lock.waiting == [] then [] else [s.lock.waiting[0]];
    s.(lock := Released(s.lock), granted := s.granted + grant,
       inside := s.inside - {t} + (set x | x in grant), releases := s.releases + 1)
  }

  function Step<T>(s: Monitor<T>, e: LockEvent<T>): Monitor<T>
    requires CanStep(s, e)
  {
    match e
    case Acquire(t) => Ask(s, t)
    case Release(t) => Leave(s, t)
    case Wait(t) => Leave(s, t).(condition := s.condition + [t])
    case LetGo(t) => Leave(s, t).(gap := s.gap + {t})
    case Join(t) => s.(gap := s.gap - {t}, condition := s.condition + [t])
    case Signal =>
      if s.condition == [] then s
      else s.(condition := s.condition[1..], woken := s.woken + {s.condition[0]})
    case Broadcast => s.(condition := [], woken := s.woken + (set x | x in s.condition))
    case Resume(t) => Ask(s.(woken := s.woken - {t}), t)
  }

  predicate Possible<T(==)>(s: Monitor<T>, run: seq<LockEvent<T>>)
    decreases |run|
  {
    run == [] || (CanStep(s, run[0]) && Possible(Step(s, run[0]), run[1..]))
  }

  function Outcome<T>(s: Monitor<T>, run: seq<LockEvent<T>>): Monitor<T>
    requires Possible(s, run)
    decreases |run|
  {
    if run == [] then s else Outcome(Step(s, run[0]), run[1..])
  }

  function Fresh<T>(): Monitor<T> {
    Monitor(LockState(Unlocked, []), [], {}, {}, {}, [], [], 0)
  }

  /** Whoever holds the lock is the thread it was granted to last, and no thread overtakes another. */
  predicate Fair<T(==)>(s: Monitor<T>) {
    && s.arrivals == s.granted + s.lock.waiting
    && (s.lock.status.Unlocked? ==> s.lock.waiting == [] && |s.granted| == s.releases && s.inside == {})
    && (s.lock.status.Locked? ==> |s.granted| == s.releases + 1 && s.inside == {s.granted[s.releases]})
  }

  lemma AskFair<T>(s: Monitor<T>, t: T)
    requires Fair(s)
    ensures Fair(Ask(s, t)) && s.arrivals <= Ask(s, t).arrivals
  {
  }

  lemma LeaveFair<T>(s: Monitor<T>, t: T)
    requires Fair(s) && t in s.inside
    ensures Fair(Leave(s, t)) && s.arrivals <= Leave(s, t).arrivals
  {
    if s.lock.waiting != [] {
      assert s.lock.waiting == s.lock.waiting[..1] + s.lock.waiting[1..];
    }
  }

  lemma StepFair<T>(s: Monitor<T>, e: LockEvent<T>)
    requires Fair(s) && CanStep(s, e)
    ensures Fair(Step(s, e)) && s.arrivals <= Step(s, e).arrivals
  {
    hide Ask, Leave;
    match e {
      case Acquire(t) => AskFair(s, t);
      case Release(t) => LeaveFair(s, t);
      case Wait(t) => LeaveFair(s, t);
      case LetGo(t) => LeaveFair(s, t);
      case Resume(t) => AskFair(s.(woken := s.woken - {t}), t);
      case Join(t) =>
      case Signal =>
      case Broadcast =>
    }
  }

  lemma {:induction false} RunFair<T>(s: Monitor<T>, run: seq<LockEvent<T>>)
    requires Fair(s) && Possible(s, run)
    ensures Fair(Outcome(s, run)) && s.arrivals <= Outcome(s, run).arrivals
    decreases |run|
  {
    if run != [] {
      StepFair(s, run[0]);
      RunFair(Step(s, run[0]), run[1..]);
    }
  }

  /** In every reachable state at most one thread is inside, one is if and only if the lock is
    * locked, and nobody waits for a lock that is free. */
  lemma MutualExclusion<T>(run: seq<LockEvent<T>>)
    requires Possible(Fresh<T>(), run)
    ensures var s := Outcome(Fresh<T>(), run);
            && (forall x, y :: x in s.inside && y in s.inside ==> x == y)
            && (s.lock.status.Locked? <==> s.inside != {})
            && (s.lock.waiting != [] ==> s.lock.status.Locked?)
  {
    RunFair(Fresh<T>(), run);
  }

  /** No barging: the lock is granted in the order in which it was asked for, by lock_acquire or
    * by condition_wait on its way out, and one more time than it was released if anybody asked. */
  lemma NoBarging<T>(run: seq<LockEvent<T>>)
    requires Possible(Fresh<T>(), run)
    ensures var s := Outcome(Fresh<T>(), run);
            s.granted == s.arrivals[..Min(|s.arrivals|, s.releases + 1)]
  {
    RunFair(Fresh<T>(), run);
  }

  /** Hand-off: the thread at queue index k owns the lock from exactly the (k+1)-th release on. */
  lemma HandOff<T>(s: Monitor<T>, k: nat, run: seq<LockEvent<T>>)
    requires Fair(s) && k < |s.lock.waiting| && Possible(s, run)
    ensures var n, r := Outcome(s, run), Outcome(s, run).releases - s.releases;
            && (0 <= r <= k ==> k - r < |n.lock.waiting| && n.lock.waiting[k - r] == s.lock.waiting[k])
            && (r == k + 1 ==> n.inside == {s.lock.waiting[k]})
  {
    RunFair(s, run);
    var n := Outcome(s, run);
    assert s.arrivals[|s.granted| + k] == s.lock.waiting[k];
    assert n.arrivals[|s.granted| + k] == s.lock.waiting[k];
  }

  // ---------- Semaphores ----------

  /** started and completed count the calls of semaphore_down that began and that returned. */
  datatype SemaphoreRun<T> = SemaphoreRun(sem: SemaphoreState<T>, started: nat, completed: nat, ups: nat)

  datatype SemaphoreEvent<T> = Up | Down(t: T)

  function SemStep<T>(s: SemaphoreRun<T>, e: SemaphoreEvent<T>): SemaphoreRun<T> {
    match e
    case Up => SemaphoreRun(Upped(s.sem), s.started, s.completed + if UpWakes(s.sem) then 1 else 0, s.ups + 1)
    case Down(t) =>
      SemaphoreRun(Downed(s.sem, t), s.started + 1, s.completed + if DownBlocks(s.sem) then 0 else 1, s.ups)
  }

  function SemOutcome<T>(s: SemaphoreRun<T>, run: seq<SemaphoreEvent<T>>): SemaphoreRun<T>
    decreases |run|
  {
    if run == [] then s else SemOutcome(SemStep(s, run[0]), run[1..])
  }

  function SemFresh<T>(value: int): SemaphoreRun<T> {
    SemaphoreRun(SemaphoreState(value, []), 0, 0, 0)
  }

  function Max(a: int, b: int): int { if a >= b then a else b }

  predicate SemInv<T>(s: SemaphoreRun<T>, value: int) {
    && s.sem.counter == value + s.ups - s.started
    && s.completed == s.started - |s.sem.waiting|
    && |s.sem.waiting| >= Max(0, -s.sem.counter)
  }

  lemma {:induction false} SemRunKeeps<T>(s: SemaphoreRun<T>, value: int, run: seq<SemaphoreEvent<T>>)
    requires SemInv(s, value)
    ensures SemInv(SemOutcome(s, run), value)
    decreases |run|
  {
    if run != [] {
      SemRunKeeps(SemStep(s, run[0]), value, run[1..]);
    }
  }

  /** At no time have more calls of semaphore_down returned than the initial value and the ups allow. */
  lemma SemaphoreSafety<T>(value: nat, run: seq<SemaphoreEvent<T>>)
    ensures var s := SemOutcome(SemFresh<T>(value), run);
            s.completed <= value + s.ups
  {
    SemRunKeeps(SemFresh<T>(value), value, run);
  }

  /** As many threads wait as the counter is below 0. */
  predicate Exact<T>(s: SemaphoreRun<T>) {
    |s.sem.waiting| == Max(0, -s.sem.counter)
  }

  predicate ExactThroughout<T>(s: SemaphoreRun<T>, run: seq<SemaphoreEvent<T>>)
    decreases |run|
  {
    Exact(s) && (run == [] || ExactThroughout(SemStep(s, run[0]), run[1..]))
  }

  /** No semaphore_up of the run finds a counter below -1. */
  predicate NoEarlyUp<T>(s: SemaphoreRun<T>, run: seq<SemaphoreEvent<T>>)
    decreases |run|
  {
    run == [] || ((run[0].Up? ==> s.sem.counter >= -1) && NoEarlyUp(SemStep(s, run[0]), run[1..]))
  }

  /** The waiters match the counter all along a run exactly when no up of it finds a counter below -1. */
  lemma {:induction false} ExactIff<T>(s: SemaphoreRun<T>, run: seq<SemaphoreEvent<T>>)
    requires Exact(s)
    ensures NoEarlyUp(s, run) <==> ExactThroughout(s, run)
    decreases |run|
  {
    if run != [] {
      var n := SemStep(s, run[0]);
      assert Exact(n) <==> (run[0].Up? ==> s.sem.counter >= -1);
      if Exact(n) {
        ExactIff(n, run[1..]);
      }
    }
  }

  function Ups<T>(n: nat): seq<SemaphoreEvent<T>> {
    if n == 0 then [] else [Up] + Ups(n - 1)
  }

  /** With n threads waiting at counter -n, n ups bring the counter to 0 and wake only one of them. */
  lemma {:induction false} EarlyUpsStrand<T>(s: SemaphoreRun<T>, n: nat)
    requires 1 <= n <= |s.sem.waiting| && s.sem.counter + n == 0
    ensures var r := SemOutcome(s, Ups(n));
            r.sem == SemaphoreState(0, s.sem.waiting[1..]) && r.completed == s.completed + 1
    decreases n
  {
    assert Ups<T>(n)[0] == Up && Ups<T>(n)[1..] == Ups(n - 1);
    if n > 1 {
      EarlyUpsStrand(SemStep(s, Up), n - 1);
    } else {
      assert Ups<T>(0) == [];
    }
  }

  // ---------- Barriers ----------

  /** passed lists the threads whose barrier_wait is over, in the order in which they were let through. */
  datatype BarrierRun<T> = BarrierRun(bar: BarrierState<T>, arrivals: seq<T>, passed: seq<T>)

  function BarStep<T>(s: BarrierRun<T>, t: T): BarrierRun<T> {
    BarrierRun(Arrived(s.bar, t), s.arrivals + [t],
               s.passed + if Completes(s.bar) then s.bar.waiting + [t] else [])
  }

  function BarOutcome<T>(s: BarrierRun<T>, arriving: seq<T>): BarrierRun<T>
    decreases |arriving|
  {
    if arriving == [] then s else BarOutcome(BarStep(s, arriving[0]), arriving[1..])
  }

  function BarFresh<T>(reach: int): BarrierRun<T> {
    BarrierRun(BarrierState(reach, 0, []), [], [])
  }

  predicate BarInv<T(==)>(s: BarrierRun<T>, generations: nat) {
    && s.bar.counter == |s.bar.waiting| < s.bar.reach
    && s.arrivals == s.passed + s.bar.waiting
    && |s.passed| == generations * s.bar.reach
  }

  lemma {:induction false} BarRunKeeps<T>(s: BarrierRun<T>, g: nat, arriving: seq<T>) returns (h: nat)
    requires BarInv(s, g)
    ensures BarInv(BarOutcome(s, arriving), h)
    ensures BarOutcome(s, arriving).arrivals == s.arrivals + arriving
    ensures BarOutcome(s, arriving).bar.reach == s.bar.reach
    decreases |arriving|
  {
    h := g;
    if arriving != [] {
      var n := BarStep(s, arriving[0]);
      if Completes(s.bar) {
        h := g + 1;
        assert h * s.bar.reach == g * s.bar.reach + s.bar.reach;
      }
      h := BarRunKeeps(n, h, arriving[1..]);
      assert s.arrivals + arriving == (s.arrivals + [arriving[0]]) + arriving[1..];
    }
  }

  lemma QuotientIs(n: nat, d: nat, g: nat, r: nat)
    requires n == g * d + r && r < d
    ensures n / d == g
  {
    var k := n / d - g;
    assert k * d == r - n % d;
    assert k >= 1 ==> k * d >= d;
    assert k <= -1 ==> k * d + d <= 0;
  }

  /** A reusable barrier: whoever arrives, exactly the complete generations of `reach` arrivals
    * have passed, in arrival order, and the rest wait. */
  lemma BarrierGenerations<T>(reach: nat, arriving: seq<T>)
    requires reach >= 1
    ensures var s, n := BarOutcome(BarFresh<T>(reach), arriving), |arriving| / reach * reach;
            && 0 <= n <= |arriving| && s.passed == arriving[..n] && s.bar.waiting == arriving[n..]
            && s.bar.counter == |s.bar.waiting| < reach
  {
    var s := BarOutcome(BarFresh<T>(reach), arriving);
    assert BarInv(BarFresh<T>(reach), 0);
    var g := BarRunKeeps(BarFresh<T>(reach), 0, arriving);
    assert s.arrivals == arriving;
    QuotientIs(|arriving|, reach, g, |s.bar.waiting|);
  }

  /** A barrier for fewer than one thread never opens. */
  lemma {:induction false} BarrierNeverOpens<T>(s: BarrierRun<T>, arriving: seq<T>)
    requires s.bar.reach < 1 && s.bar.counter >= 0
    ensures BarOutcome(s, arriving).passed == s.passed
    ensures BarOutcome(s, arriving).bar.waiting == s.bar.waiting + arriving
    decreases |arriving|
  {
    if arriving != [] {
      BarrierNeverOpens(BarStep(s, arriving[0]), arriving[1..]);
      assert s.bar.waiting + arriving == (s.bar.waiting + [arriving[0]]) + arriving[1..];
    }
  }
}
