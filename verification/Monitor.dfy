/** The monitor of mailbox/mbox.c on the primitives of sync/thread_spinlock.c, run by any number
  * of threads that are interrupted between any two steps. A step is one test_and_set that
  * succeeds, or the code between two operations on a spinlock. block(q, spinlock) puts the
  * caller on the queue and frees the spinlock in one step.
  */
module Monitor {
  import opened Mailbox

  datatype Option<T> = None | Some(value: T)

  type Message = seq<Byte>

  /** What a thread is doing: mbox_send of a message, or mbox_recv. */
  datatype Job = Send(m: Message) | Recv

  datatype Condition = MoreSpace | MoreData

  function WaitsOn(j: Job): Condition { if j.Send? then MoreSpace else MoreData }

  function Announces(j: Job): Condition { if j.Send? then MoreData else MoreSpace }

  /** The points of the code between which a thread can be interrupted. */
  datatype Point =
    | LockSpin    // lock_acquire: spinning on the lock's spinlock
    | LockBody    // lock_acquire: holding it
    | LockBlocked // on the lock's queue
    | Check       // owning the lock, at the test of the while loop
    | WaitSpin    // condition_wait: spinning on the condition's spinlock
    | WaitRelSpin // holding it, and spinning on the lock's spinlock in lock_release
    | WaitRelBody // holding both
    | WaitRelOut  // holding both, with the lock given up
    | WaitBlock   // holding the condition's spinlock, about to block
    | CondBlocked // on the condition's queue
    | BcastSpin   // messages updated; condition_broadcast: spinning on the condition's spinlock
    | BcastBody   // holding it, emptying the queue
    | RelSpin     // lock_release: spinning on the lock's spinlock
    | RelBody     // holding it
    | RelOut      // holding it, with the lock given up

  datatype Pc = Idle | At(job: Job, at: Point)

  /** A spinlock, with the thread that set it, and the wait queue that it protects. */
  datatype Guarded = Guarded(spin: Option<nat>, waiting: seq<nat>)

  /** owner is None when the lock's status is UNLOCKED, and otherwise the thread it was given to. */
  datatype System = System(
    pc: seq<Pc>, lock: Guarded, owner: Option<nat>, space: Guarded, data: Guarded,
    messages: seq<Message>, sent: seq<Message>, received: seq<Message>)

  function Queue(s: System, c: Condition): Guarded { if c.MoreSpace? then s.space else s.data }

  function SetQueue(s: System, c: Condition, g: Guarded): System {
    if c.MoreSpace? then s.(space := g) else s.(data := g)
  }

  /** Thread t gets to another point of its call. */
  function Go(s: System, t: nat, at: Point): (r: System)
    ensures |r.pc| == |s.pc|
  {
    if t < |s.pc| && s.pc[t].At? then s.(pc := s.pc[t := At(s.pc[t].job, at)]) else s
  }

  /** The test of the while loop in mbox_send or mbox_recv. */
  predicate MustWait(messages: seq<Message>, j: Job) {
    match j
    case Send(m) => HEADER + |m| > BUFFER_SIZE - Used(messages)
    case Recv => messages == []
  }

  function Transfer(s: System, j: Job): System
    requires !MustWait(s.messages, j)
  {
    match j
    case Send(m) => s.(messages := s.messages + [m], sent := s.sent + [m])
    case Recv => s.(messages := s.messages[1..], received := s.received + [s.messages[0]])
  }

  /** lock_release between the spinlock operations: the lock goes to the first waiter, if any. */
  function HandOver(s: System): (r: System)
    ensures |r.pc| == |s.pc|
  {
    if s.lock.waiting == [] then s.(owner := None)
    else
      var u := s.lock.waiting[0];
      Go(s.(owner := Some(u), lock := s.lock.(waiting := s.lock.waiting[1..])), u, Check)
  }

  /** A thread that is blocked, or spins on a spinlock that is taken, does not get on. */
  predicate CanStep(s: System, t: nat) {
    && t < |s.pc| && s.pc[t].At?
    && match s.pc[t].at
       case LockBlocked => false
       case CondBlocked => false
       case LockSpin => s.lock.spin == None
       case WaitRelSpin => s.lock.spin == None
       case RelSpin => s.lock.spin == None
       case WaitSpin => Queue(s, WaitsOn(s.pc[t].job)).spin == None
       case BcastSpin => Queue(s, Announces(s.pc[t].job)).spin == None
       case _ => true
  }

  function Step(s: System, t: nat): (r: System)
    requires CanStep(s, t)
    ensures |r.pc| == |s.pc|
  {
    var job := s.pc[t].job;
    var c, d := WaitsOn(job), Announces(job);
    match s.pc[t].at
    case LockSpin => Go(s.(lock := s.lock.(spin := Some(t))), t, LockBody)
    case LockBody =>
      if s.owner == None then Go(s.(owner := Some(t), lock := s.lock.(spin := None)), t, Check)
      else Go(s.(lock := Guarded(None, s.lock.waiting + [t])), t, LockBlocked)
    case Check =>
      if MustWait(s.messages, job) then Go(s, t, WaitSpin) else Go(Transfer(s, job), t, BcastSpin)
    case WaitSpin => Go(SetQueue(s, c, Queue(s, c).(spin := Some(t))), t, WaitRelSpin)
    case WaitRelSpin => Go(s.(lock := s.lock.(spin := Some(t))), t, WaitRelBody)
    case WaitRelBody => Go(HandOver(s), t, WaitRelOut)
    case WaitRelOut => Go(s.(lock := s.lock.(spin := None)), t, WaitBlock)
    case WaitBlock => Go(SetQueue(s, c, Guarded(None, Queue(s, c).waiting + [t])), t, CondBlocked)
    case BcastSpin => Go(SetQueue(s, d, Queue(s, d).(spin := Some(t))), t, BcastBody)
    case BcastBody =>
      if Queue(s, d).waiting == [] then Go(SetQueue(s, d, Queue(s, d).(spin := None)), t, RelSpin)
      else
        var w := Queue(s, d).waiting;
        Go(SetQueue(s, d, Queue(s, d).(waiting := w[1..])), w[0], LockSpin)
    case RelSpin => Go(s.(lock := s.lock.(spin := Some(t))), t, RelBody)
    case RelBody => Go(HandOver(s), t, RelOut)
    case RelOut => s.(pc := s.pc[t := Idle], lock := s.lock.(spin := None))
    case LockBlocked => s
    case CondBlocked => s
  }

  /** An idle thread calls mbox_send or mbox_recv. */
  function Call(s: System, t: nat, j: Job): System
    requires t < |s.pc|
  {
    s.(pc := s.pc[t := At(j, LockSpin)])
  }

  function Start(threads: nat): System {
    System(seq(threads, _ => Idle), Guarded(None, []), None, Guarded(None, []), Guarded(None, []), [], [], [])
  }

  // ---------- The invariant ----------

  /** The thread is in the monitor: it was given the lock and has not given it up. */
  ghost predicate Owns(p: Pc) {
    p.At? && (p.at.Check? || p.at.WaitSpin? || p.at.WaitRelSpin? || p.at.WaitRelBody?
              || p.at.BcastSpin? || p.at.BcastBody? || p.at.RelSpin? || p.at.RelBody?)
  }

  ghost predicate HoldsLockSpin(p: Pc) {
    p.At? && (p.at.LockBody? || p.at.WaitRelBody? || p.at.WaitRelOut? || p.at.RelBody? || p.at.RelOut?)
  }

  ghost predicate HoldsSpin(p: Pc, c: Condition) {
    p.At? && (((p.at.WaitRelSpin? || p.at.WaitRelBody? || p.at.WaitRelOut? || p.at.WaitBlock?) && WaitsOn(p.job) == c)
              || (p.at.BcastBody? && Announces(p.job) == c))
  }

  ghost predicate ThreadOk(s: System, t: nat)
    requires t < |s.pc|
  {
    var p := s.pc[t];
    && (Owns(p) <==> s.owner == Some(t))
    && (HoldsLockSpin(p) <==> s.lock.spin == Some(t))
    && (HoldsSpin(p, MoreSpace) <==> s.space.spin == Some(t))
    && (HoldsSpin(p, MoreData) <==> s.data.spin == Some(t))
    && (p.At? && p.at.LockBlocked? <==> t in s.lock.waiting)
    && (p.At? && p.at.CondBlocked? && p.job.Send? <==> t in s.space.waiting)
    && (p.At? && p.at.CondBlocked? && p.job.Recv? <==> t in s.data.waiting)
  }

  ghost predicate Distinct(s: seq<nat>) {
    forall i, j :: 0 <= i < j < |s| ==> s[i] != s[j]
  }

  ghost predicate InRange(n: nat, o: Option<nat>) {
    o.Some? ==> o.value < n
  }

  /** A queue of different threads. */
  ghost predicate QueueOk(n: nat, w: seq<nat>) {
    Distinct(w) && forall i :: 0 <= i < |w| ==> w[i] < n
  }

  ghost predicate Shape(s: System) {
    var n := |s.pc|;
    && QueueOk(n, s.lock.waiting) && QueueOk(n, s.space.waiting) && QueueOk(n, s.data.waiting)
    && InRange(n, s.owner) && InRange(n, s.lock.spin) && InRange(n, s.space.spin) && InRange(n, s.data.spin)
    && (s.lock.waiting != [] ==> s.owner.Some?)
  }

  /** The owner changed the messages and has not yet emptied the queue of c. */
  ghost predicate Announcing(s: System, c: Condition) {
    && s.owner.Some? && s.owner.value < |s.pc|
    && var p := s.pc[s.owner.value];
       p.At? && (p.at.BcastSpin? || p.at.BcastBody?) && Announces(p.job) == c
  }

  /** The thread has decided to wait and was not woken yet. */
  ghost predicate Waits(p: Pc) {
    p.At? && (p.at.WaitSpin? || p.at.WaitRelSpin? || p.at.WaitRelBody? || p.at.WaitRelOut?
              || p.at.WaitBlock? || p.at.CondBlocked?)
  }

  /** Thread x does not wait without cause: it has to, or it is about to be woken. */
  ghost predicate Cause(s: System, x: nat)
    requires x < |s.pc|
  {
    Waits(s.pc[x]) ==> MustWait(s.messages, s.pc[x].job) || Announcing(s, WaitsOn(s.pc[x].job))
  }

  ghost predicate NoLostWakeup(s: System) {
    forall t :: 0 <= t < |s.pc| ==> Cause(s, t)
  }

  ghost predicate Fifo(s: System) {
    s.sent == s.received + s.messages && Used(s.messages) <= BUFFER_SIZE
  }

  ghost predicate AllOk(s: System) {
    forall t :: 0 <= t < |s.pc| ==> ThreadOk(s, t)
  }

  ghost predicate Inv(s: System) {
    Shape(s) && AllOk(s) && NoLostWakeup(s) && Fifo(s)
  }

  lemma Popped(w: seq<nat>, x: nat)
    requires Distinct(w) && w != []
    ensures Distinct(w[1..]) && w[0] in w
    ensures x in w[1..] <==> x in w && x != w[0]
  {
  }

  /** Steps that only take or free the lock's spinlock, or join its queue. */
  lemma LockSpinStep(s: System, t: nat, x: nat)
    requires Shape(s) && CanStep(s, t) && x < |s.pc| && ThreadOk(s, t) && ThreadOk(s, x)
    requires
      || s.pc[t].at.LockSpin? || s.pc[t].at.WaitRelSpin? || s.pc[t].at.RelSpin?
      || s.pc[t].at.LockBody? || s.pc[t].at.WaitRelOut? || s.pc[t].at.RelOut?
    ensures ThreadOk(Step(s, t), x)
  {
    hide Distinct;
  }

  /** The test of the loop, and the update of the messages. */
  lemma CheckStep(s: System, t: nat, x: nat)
    requires Shape(s) && CanStep(s, t) && x < |s.pc| && ThreadOk(s, t) && ThreadOk(s, x)
    requires s.pc[t].at.Check?
    ensures ThreadOk(Step(s, t), x)
  {
    hide Distinct, MustWait, Used;
  }

  /** Steps that take a condition's spinlock or join its queue. */
  lemma ConditionStep(s: System, t: nat, x: nat)
    requires Shape(s) && CanStep(s, t) && x < |s.pc| && ThreadOk(s, t) && ThreadOk(s, x)
    requires s.pc[t].at.WaitSpin? || s.pc[t].at.BcastSpin? || s.pc[t].at.WaitBlock?
    ensures ThreadOk(Step(s, t), x)
  {
    hide Distinct;
  }

  /** The lock is given up, perhaps to a waiter. */
  lemma HandOverStep(s: System, t: nat, x: nat)
    requires Shape(s) && CanStep(s, t) && x < |s.pc| && ThreadOk(s, t) && ThreadOk(s, x)
    requires s.pc[t].at.WaitRelBody? || s.pc[t].at.RelBody?
    requires forall u :: u in s.lock.waiting ==> ThreadOk(s, u)
    ensures ThreadOk(Step(s, t), x)
  {
    if s.lock.waiting != [] {
      Popped(s.lock.waiting, x);
    }
    hide Distinct;
  }

  /** The queue of a condition is emptied, one waiter at a time. */
  lemma WakeStep(s: System, t: nat, x: nat)
    requires Shape(s) && CanStep(s, t) && x < |s.pc| && ThreadOk(s, t) && ThreadOk(s, x)
    requires s.pc[t].at.BcastBody?
    requires forall u :: u in Queue(s, Announces(s.pc[t].job)).waiting ==> ThreadOk(s, u)
    ensures ThreadOk(Step(s, t), x)
  {
    var w := Queue(s, Announces(s.pc[t].job)).waiting;
    if w != [] {
      Popped(w, x);
    }
    hide Distinct;
  }

  lemma StepThread(s: System, t: nat, x: nat)
    requires Shape(s) && AllOk(s) && CanStep(s, t) && x < |s.pc|
    ensures ThreadOk(Step(s, t), x)
  {
    hide Distinct, MustWait, Used, ThreadOk, Step;
    match s.pc[t].at
    case Check => CheckStep(s, t, x);
    case WaitSpin => ConditionStep(s, t, x);
    case BcastSpin => ConditionStep(s, t, x);
    case WaitBlock => ConditionStep(s, t, x);
    case WaitRelBody => HandOverStep(s, t, x);
    case RelBody => HandOverStep(s, t, x);
    case BcastBody => WakeStep(s, t, x);
    case _ => LockSpinStep(s, t, x);
  }

  lemma QueueEnds(n: nat, w: seq<nat>, t: nat)
    requires QueueOk(n, w)
    ensures t < n && t !in w ==> QueueOk(n, w + [t])
    ensures w != [] ==> QueueOk(n, w[1..]) && w[0] < n
  {
  }

  lemma StepShape(s: System, t: nat)
    requires Shape(s) && CanStep(s, t) && ThreadOk(s, t)
    ensures Shape(Step(s, t))
  {
    hide MustWait, Used, QueueOk, Step;
    if s.pc[t].at.WaitRelBody? || s.pc[t].at.RelBody? || s.pc[t].at.BcastBody? {
      PopShape(s, t);
    } else if s.pc[t].at.LockBody? || s.pc[t].at.WaitBlock? {
      PushShape(s, t);
    } else {
      PlainShape(s, t);
    }
  }

  lemma PopShape(s: System, t: nat)
    requires Shape(s) && CanStep(s, t) && (s.pc[t].at.WaitRelBody? || s.pc[t].at.RelBody? || s.pc[t].at.BcastBody?)
    ensures Shape(Step(s, t))
  {
    hide MustWait, Used, QueueOk;
    if s.pc[t].at.BcastBody? {
      QueueEnds(|s.pc|, Queue(s, Announces(s.pc[t].job)).waiting, t);
    } else {
      QueueEnds(|s.pc|, s.lock.waiting, t);
    }
  }

  lemma PushShape(s: System, t: nat)
    requires Shape(s) && CanStep(s, t) && ThreadOk(s, t) && (s.pc[t].at.LockBody? || s.pc[t].at.WaitBlock?)
    ensures Shape(Step(s, t))
  {
    hide MustWait, Used, QueueOk;
    if s.pc[t].at.LockBody? {
      QueueEnds(|s.pc|, s.lock.waiting, t);
    } else {
      QueueEnds(|s.pc|, Queue(s, WaitsOn(s.pc[t].job)).waiting, t);
    }
  }

  lemma PlainShape(s: System, t: nat)
    requires Shape(s) && CanStep(s, t) && !s.pc[t].at.LockBody? && !s.pc[t].at.WaitBlock?
    requires !s.pc[t].at.WaitRelBody? && !s.pc[t].at.RelBody? && !s.pc[t].at.BcastBody?
    ensures Shape(Step(s, t))
  {
    hide MustWait, Used, QueueOk;
  }

  lemma UsedGrows(messages: seq<Message>, m: Message)
    ensures Used(messages + [m]) == Used(messages) + HEADER + |m|
  {
    StreamAppend(messages, m);
  }

  lemma OnlyCheckMoves(s: System, t: nat)
    requires CanStep(s, t) && (s.pc[t].at.Check? ==> MustWait(s.messages, s.pc[t].job))
    ensures (Step(s, t).messages, Step(s, t).sent, Step(s, t).received) == (s.messages, s.sent, s.received)
  {
    hide Used, MustWait;
  }

  lemma StepFifo(s: System, t: nat)
    requires Fifo(s) && CanStep(s, t)
    ensures Fifo(Step(s, t))
  {
    if s.pc[t].at.Check? && !MustWait(s.messages, s.pc[t].job) {
      match s.pc[t].job
      case Send(m) => UsedGrows(s.messages, m);
      case Recv => assert s.messages == s.messages[..1] + s.messages[1..];
    } else {
      OnlyCheckMoves(s, t);
    }
  }

  /** An update of the messages is announced to whoever may profit from it. */
  lemma CheckCause(s: System, t: nat, x: nat)
    requires CanStep(s, t) && x < |s.pc| && ThreadOk(s, t) && ThreadOk(s, x) && Cause(s, x) && s.pc[t].at.Check?
    ensures Cause(Step(s, t), x)
  {
    if s.pc[t].job.Send? {
      UsedGrows(s.messages, s.pc[t].job.m);
    }
    hide Used;
  }

  /** An announcement ends when nobody is left who waits for it. */
  lemma WakeCause(s: System, t: nat, x: nat)
    requires CanStep(s, t) && x < |s.pc| && ThreadOk(s, t) && ThreadOk(s, x) && Cause(s, x) && s.pc[t].at.BcastBody?
    ensures Cause(Step(s, t), x)
  {
    hide MustWait;
  }

  lemma HandOverCause(s: System, t: nat, x: nat)
    requires CanStep(s, t) && x < |s.pc| && ThreadOk(s, t) && ThreadOk(s, x) && Cause(s, x)
    requires s.pc[t].at.WaitRelBody? || s.pc[t].at.RelBody?
    ensures Cause(Step(s, t), x)
  {
    hide MustWait;
  }

  lemma OtherCause(s: System, t: nat, x: nat)
    requires CanStep(s, t) && x < |s.pc| && ThreadOk(s, t) && ThreadOk(s, x) && Cause(s, x)
    requires !s.pc[t].at.Check? && !s.pc[t].at.BcastBody? && !s.pc[t].at.WaitRelBody? && !s.pc[t].at.RelBody?
    ensures Cause(Step(s, t), x)
  {
    hide MustWait;
  }

  lemma StepKeeps(s: System, t: nat)
    requires Inv(s) && CanStep(s, t)
    ensures Inv(Step(s, t))
  {
    assert ThreadOk(s, t);
    StepShape(s, t);
    StepFifo(s, t);
    hide Step, Shape, Fifo, ThreadOk, Cause;
    forall x | 0 <= x < |s.pc|
      ensures ThreadOk(Step(s, t), x) && Cause(Step(s, t), x)
    {
      StepThread(s, t, x);
      if s.pc[t].at.Check? {
        CheckCause(s, t, x);
      } else if s.pc[t].at.BcastBody? {
        WakeCause(s, t, x);
      } else if s.pc[t].at.WaitRelBody? || s.pc[t].at.RelBody? {
        HandOverCause(s, t, x);
      } else {
        OtherCause(s, t, x);
      }
    }
  }

  lemma CallKeeps(s: System, t: nat, j: Job)
    requires Inv(s) && t < |s.pc| && s.pc[t].Idle?
    ensures Inv(Call(s, t, j))
  {
    var n := Call(s, t, j);
    assert ThreadOk(s, t);
    hide MustWait, Used;
    forall x | 0 <= x < |s.pc|
      ensures ThreadOk(n, x) && Cause(n, x)
    {
      assert ThreadOk(s, x) && Cause(s, x);
    }
  }
}
