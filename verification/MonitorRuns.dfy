/** What holds in every reachable state of the mailbox monitor, for any number of threads, any
  * calls of mbox_send and mbox_recv and every interleaving.
  */
module MonitorRuns {
  import opened Mailbox
  import opened Monitor

  /** Thread t takes a step of its call, or calls mbox_send or mbox_recv. */
  datatype Event = Runs(t: nat) | Calls(t: nat, j: Job)

  predicate Enabled(s: System, e: Event) {
    match e
    case Runs(t) => CanStep(s, t)
    case Calls(t, j) => t < |s.pc| && s.pc[t].Idle?
  }

  function Next(s: System, e: Event): System
    requires Enabled(s, e)
  {
    match e
    case Runs(t) => Step(s, t)
    case Calls(t, j) => Call(s, t, j)
  }

  predicate Possible(s: System, run: seq<Event>)
    decreases |run|
  {
    run == [] || (Enabled(s, run[0]) && Possible(Next(s, run[0]), run[1..]))
  }

  function Outcome(s: System, run: seq<Event>): System
    requires Possible(s, run)
    decreases |run|
  {
    if run == [] then s else Outcome(Next(s, run[0]), run[1..])
  }

  ghost predicate Reachable(s: System) {
    exists n, run :: Possible(Start(n), run) && Outcome(Start(n), run) == s
  }

  lemma {:induction false} RunKeeps(s: System, run: seq<Event>)
    requires Inv(s) && Possible(s, run)
    ensures Inv(Outcome(s, run))
    decreases |run|
  {
    hide Inv, Step, Call;
    if run != [] {
      match run[0]
      case Runs(t) =>
        StepKeeps(s, t);
        RunKeeps(Step(s, t), run[1..]);
      case Calls(t, j) =>
        CallKeeps(s, t, j);
        RunKeeps(Call(s, t, j), run[1..]);
    }
  }

  lemma StartInv(n: nat)
    ensures Inv(Start(n))
  {
  }

  lemma ReachableInv(s: System)
    requires Reachable(s)
    ensures Inv(s)
  {
    hide Inv, Start, Possible, Outcome;
    var n, run :| Possible(Start(n), run) && Outcome(Start(n), run) == s;
    StartInv(n);
    RunKeeps(Start(n), run);
  }

  /** At most one thread is in the monitor, or holds a given spinlock. */
  lemma MutualExclusion(s: System, t: nat, u: nat)
    requires Reachable(s) && t < |s.pc| && u < |s.pc|
    ensures Owns(s.pc[t]) && Owns(s.pc[u]) ==> t == u
    ensures HoldsLockSpin(s.pc[t]) && HoldsLockSpin(s.pc[u]) ==> t == u
    ensures forall c :: HoldsSpin(s.pc[t], c) && HoldsSpin(s.pc[u], c) ==> t == u
  {
    ReachableInv(s);
    assert ThreadOk(s, t) && ThreadOk(s, u);
  }

  /** Thread u changed the messages and has yet to broadcast c. */
  ghost predicate WillWake(s: System, u: nat, c: Condition) {
    u < |s.pc| && s.pc[u].At? && (s.pc[u].at.BcastSpin? || s.pc[u].at.BcastBody?) && Announces(s.pc[u].job) == c
  }

  /** Unless a sender is about to broadcast, receivers are blocked only while there is no message,
    * and, unless a receiver is, a blocked sender needs more space than there is. */
  lemma NoWakeupIsLost(s: System)
    requires Reachable(s)
    ensures s.data.waiting != [] ==> s.messages == [] || exists u :: WillWake(s, u, MoreData)
    ensures forall t :: t in s.space.waiting ==>
              && t < |s.pc| && s.pc[t].At? && s.pc[t].job.Send?
              && (HEADER + |s.pc[t].job.m| > BUFFER_SIZE - Used(s.messages) || exists u :: WillWake(s, u, MoreSpace))
  {
    ReachableInv(s);
    forall t | t in s.data.waiting || t in s.space.waiting
      ensures t < |s.pc| && ThreadOk(s, t) && Cause(s, t)
    {
    }
    assert forall c :: Announcing(s, c) ==> WillWake(s, s.owner.value, c);
    if s.data.waiting != [] {
      assert s.data.waiting[0] in s.data.waiting;
    }
  }

  /** The messages received are the messages sent, in order; those still queued fit in the buffer. */
  lemma FirstInFirstOut(s: System)
    requires Reachable(s)
    ensures s.sent == s.received + s.messages && s.received <= s.sent && Used(s.messages) <= BUFFER_SIZE
  {
    ReachableInv(s);
  }

  // ---------- Spinlocks and progress ----------

  /** t spins on a spinlock that u holds. */
  ghost predicate SpinsFor(s: System, t: nat, u: nat) {
    && t < |s.pc| && u < |s.pc| && s.pc[t].At?
    && var p, q := s.pc[t], s.pc[u];
       || ((p.at.LockSpin? || p.at.WaitRelSpin? || p.at.RelSpin?) && HoldsLockSpin(q))
       || (p.at.WaitSpin? && HoldsSpin(q, WaitsOn(p.job)))
       || (p.at.BcastSpin? && HoldsSpin(q, Announces(p.job)))
  }

  ghost predicate SpinPath(s: System, path: seq<nat>) {
    forall i :: 0 <= i < |path| - 1 ==> SpinsFor(s, path[i], path[i + 1])
  }

  /** A condition's spinlock is taken before the lock's, and nobody spins while holding the
    * latter: no chain of spinning threads has more than three members, so none is a cycle. */
  lemma SpinOrder(s: System, path: seq<nat>)
    requires SpinPath(s, path)
    ensures |path| <= 3
    ensures |path| > 1 ==> path[0] != path[|path| - 1]
  {
    if |path| > 3 {
      NoLongChain(s, path[0], path[1], path[2], path[3]);
    } else if |path| == 3 {
      assert SpinsFor(s, path[0], path[1]) && SpinsFor(s, path[1], path[2]);
    } else if |path| == 2 {
      assert SpinsFor(s, path[0], path[1]);
    }
  }

  lemma NoLongChain(s: System, a: nat, b: nat, c: nat, d: nat)
    ensures !(SpinsFor(s, a, b) && SpinsFor(s, b, c) && SpinsFor(s, c, d))
  {
  }

  /** Whoever holds the lock's spinlock can take a step. */
  lemma HolderSteps(s: System, u: nat)
    requires u < |s.pc| && HoldsLockSpin(s.pc[u])
    ensures CanStep(s, u)
  {
  }

  /** A spinning thread gets its spinlock, or the end of the chain it spins for can take a step. */
  lemma SpinProgress(s: System, t: nat) returns (u: nat)
    requires Inv(s) && t < |s.pc| && s.pc[t].At? && !s.pc[t].at.LockBlocked? && !s.pc[t].at.CondBlocked?
    ensures CanStep(s, u)
  {
    u := t;
    if !CanStep(s, u) {
      u := if s.pc[t].at.WaitSpin? then Queue(s, WaitsOn(s.pc[t].job)).spin.value
           else if s.pc[t].at.BcastSpin? then Queue(s, Announces(s.pc[t].job)).spin.value
           else s.lock.spin.value;
      assert ThreadOk(s, u);
      if !CanStep(s, u) {
        u := s.lock.spin.value;
        assert ThreadOk(s, u);
        HolderSteps(s, u);
      }
    }
  }

  /** As long as some call is neither finished nor waiting on a condition, some thread can go on. */
  lemma Progress(s: System, t: nat) returns (u: nat)
    requires Reachable(s) && t < |s.pc| && s.pc[t].At? && !s.pc[t].at.CondBlocked?
    ensures CanStep(s, u)
  {
    ReachableInv(s);
    u := t;
    if s.pc[t].at.LockBlocked? {
      assert ThreadOk(s, t);
      u := s.owner.value;
      assert ThreadOk(s, u);
    }
    u := SpinProgress(s, u);
  }

  /** When nothing can go on, every unfinished call has a reason to wait: the receivers find no
    * message, and the senders no room for theirs. They are never stuck against each other. */
  lemma QuietIsJustified(s: System)
    requires Reachable(s) && forall t :: !CanStep(s, t)
    ensures forall t :: 0 <= t < |s.pc| && s.pc[t].At? ==> s.pc[t].at.CondBlocked? && MustWait(s.messages, s.pc[t].job)
    ensures forall t, u :: 0 <= t < |s.pc| && 0 <= u < |s.pc| && s.pc[t].At? && s.pc[u].At? && s.pc[t].job.Recv? && s.pc[u].job.Send? ==>
              HEADER + |s.pc[u].job.m| > BUFFER_SIZE
  {
    ReachableInv(s);
    forall t | 0 <= t < |s.pc| && s.pc[t].At?
      ensures s.pc[t].at.CondBlocked? && MustWait(s.messages, s.pc[t].job)
    {
      if !s.pc[t].at.CondBlocked? {
        var u := Progress(s, t);
        assert false;
      }
      assert ThreadOk(s, t) && Cause(s, t);
      if Announcing(s, WaitsOn(s.pc[t].job)) {
        var u := Progress(s, s.owner.value);
        assert false;
      }
    }
  }
}
