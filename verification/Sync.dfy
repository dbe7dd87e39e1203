/** sync/thread.c. Each method is one critical section of the source, up to the point where the
  * calling thread is descheduled; its contract gives the new state of the object as a function
  * of the old one. Those functions are the steps of the protocols in SyncRuns.
  */
module Sync {
  import opened Scheduling

  datatype Status = Unlocked | Locked

  datatype LockState<T> = LockState(status: Status, waiting: seq<T>)
  datatype SemaphoreState<T> = SemaphoreState(counter: int, waiting: seq<T>)
  datatype BarrierState<T> = BarrierState(reach: int, counter: int, waiting: seq<T>)

  function Acquired<T>(l: LockState<T>, me: T): LockState<T> {
    if l.status.Unlocked? then l.(status := Locked) else l.(waiting := l.waiting + [me])
  }

  function Released<T>(l: LockState<T>): LockState<T> {
    if l.waiting == [] then l.(status := Unlocked) else l.(waiting := l.waiting[1..])
  }

  /** semaphore_up wakes a waiter only when the counter has come back to 0 or more. */
  predicate UpWakes<T>(s: SemaphoreState<T>) {
    s.counter + 1 >= 0 && s.waiting != []
  }

  function Upped<T>(s: SemaphoreState<T>): SemaphoreState<T> {
    SemaphoreState(s.counter + 1, if UpWakes(s) then s.waiting[1..] else s.waiting)
  }

  predicate DownBlocks<T>(s: SemaphoreState<T>) {
    s.counter - 1 < 0
  }

  function Downed<T>(s: SemaphoreState<T>, me: T): SemaphoreState<T> {
    SemaphoreState(s.counter - 1, if DownBlocks(s) then s.waiting + [me] else s.waiting)
  }

  predicate Completes<T>(b: BarrierState<T>) {
    b.counter + 1 == b.reach
  }

  function Arrived<T>(b: BarrierState<T>, me: T): BarrierState<T> {
    if Completes(b) then b.(counter := 0, waiting := [])
    else b.(counter := b.counter + 1, waiting := b.waiting + [me])
  }

  class Lock {
    var status: Status
    const waiting: WaitQueue

    ghost function State(): LockState<Pcb>
      reads this, waiting
    {
      LockState(status, waiting.members)
    }

    constructor ()
      ensures State() == LockState(Unlocked, []) && waiting.head == null && fresh(waiting)
    {
      status := Unlocked;
      waiting := new WaitQueue();
    }
  }

  class Condition {
    const waiting: WaitQueue

    constructor ()
      ensures waiting.head == null && waiting.members == [] && fresh(waiting)
    {
      waiting := new WaitQueue();
    }
  }

  class Semaphore {
    var counter: int
    const waiting: WaitQueue

    ghost function State(): SemaphoreState<Pcb>
      reads this, waiting
    {
      SemaphoreState(counter, waiting.members)
    }

    constructor (value: int)
      ensures State() == SemaphoreState(value, []) && waiting.head == null && fresh(waiting)
    {
      counter := value;
      waiting := new WaitQueue();
    }
  }

  class Barrier {
    var reach: int
    var counter: int
    const waiting: WaitQueue

    ghost function State(): BarrierState<Pcb>
      reads this, waiting
    {
      BarrierState(reach, counter, waiting.members)
    }

    constructor (n: int)
      ensures State() == BarrierState(n, 0, []) && waiting.head == null && fresh(waiting)
    {
      counter, reach := 0, n;
      waiting := new WaitQueue();
    }
  }

  /** A thread that finds the lock taken leaves the ring; the lock will be handed to it. */
  method LockAcquire(s: Scheduler, l: Lock)
    requires s.Valid() && l.waiting in s.queues && (l.status.Locked? ==> |s.ring| >= 2)
    modifies s`currentRunning, s`ring, s`waiting, s.threads, l`status, l.waiting
    ensures s.Valid() && l.State() == Acquired(old(l.State()), old(s.currentRunning))
    ensures s.ring == if old(l.status).Unlocked? then old(s.ring) else old(s.ring)[1..]
  {
    if l.status == Unlocked {
      l.status := Locked;
    } else {
      s.Block(l.waiting);
    }
  }

  /** The lock is handed to the thread that has waited longest, or becomes free. */
  method LockRelease(s: Scheduler, l: Lock)
    requires s.Valid() && l.waiting in s.queues
    modifies s`ring, s`waiting, s.threads, l`status, l.waiting
    ensures s.Valid() && l.State() == Released(old(l.State()))
    ensures s.ring == old(s.ring) + old(l.waiting.members)[..if old(l.waiting.members) == [] then 0 else 1]
  {
    hide Scheduler.Valid;
    s.HeadOf(l.waiting);
    if l.waiting.head == null {
      l.status := Unlocked;
    } else {
      s.Unblock(l.waiting);
    }
  }

  /** condition_wait() inside an outer critical section, up to the context switch. The second
    * half, once the thread runs again, is LockAcquire. */
  method ConditionWait(s: Scheduler, m: Lock, c: Condition)
    requires s.Valid() && m.waiting in s.queues && c.waiting in s.queues && m.waiting != c.waiting
    requires |s.ring| + |m.waiting.members| >= 2
    modifies s`currentRunning, s`ring, s`waiting, s.threads, m`status, m.waiting, c.waiting
    ensures s.Valid() && m.State() == Released(old(m.State()))
    ensures c.waiting.members == old(c.waiting.members) + [old(s.currentRunning)]
    ensures s.ring == old(s.ring)[1..] + old(m.waiting.members)[..if old(m.waiting.members) == [] then 0 else 1]
  {
    hide Scheduler.Valid;
    s.HeadOf(m.waiting);
    LockRelease(s, m);
    s.Block(c.waiting);
  }

  method ConditionSignal(s: Scheduler, c: Condition)
    requires s.Valid() && c.waiting in s.queues
    modifies s`ring, s`waiting, s.threads, c.waiting
    ensures s.Valid()
    ensures old(c.waiting.members) == [] ==> s.ring == old(s.ring) && c.waiting.members == []
    ensures old(c.waiting.members) != [] ==>
              s.ring + c.waiting.members == old(s.ring) + old(c.waiting.members) && |s.ring| == |old(s.ring)| + 1
  {
    hide Scheduler.Valid;
    s.HeadOf(c.waiting);
    if c.waiting.head != null {
      s.Unblock(c.waiting);
    }
  }

  /** The loop that empties a queue: all its members join the ring, in order. */
  method UnblockAll(s: Scheduler, q: WaitQueue)
    requires s.Valid() && q in s.queues
    modifies s`ring, s`waiting, s.threads, q
    ensures s.Valid() && q.members == [] && s.ring == old(s.ring) + old(q.members)
  {
    hide Scheduler.Valid;
    s.HeadOf(q);
    while q.head != null
      invariant s.Valid() && (q.head == null <==> q.members == [])
      invariant s.ring + q.members == old(s.ring) + old(q.members)
      decreases |q.members|
    {
      s.Unblock(q);
      s.HeadOf(q);
    }
  }

  method ConditionBroadcast(s: Scheduler, c: Condition)
    requires s.Valid() && c.waiting in s.queues
    modifies s`ring, s`waiting, s.threads, c.waiting
    ensures s.Valid() && c.waiting.members == []
    ensures s.ring == old(s.ring) + old(c.waiting.members)
  {
    UnblockAll(s, c.waiting);
  }

  method SemaphoreUp(s: Scheduler, m: Semaphore)
    requires s.Valid() && m.waiting in s.queues
    modifies s`ring, s`waiting, s.threads, m`counter, m.waiting
    ensures s.Valid() && m.State() == Upped(old(m.State()))
    ensures s.ring == old(s.ring) + if old(UpWakes(m.State())) then [old(m.waiting.members)[0]] else []
  {
    hide Scheduler.Valid;
    s.HeadOf(m.waiting);
    m.counter := m.counter + 1;
    if m.counter >= 0 {
      if m.waiting.head != null {
        s.Unblock(m.waiting);
      }
    }
  }

  method SemaphoreDown(s: Scheduler, m: Semaphore)
    requires s.Valid() && m.waiting in s.queues && (m.counter <= 0 ==> |s.ring| >= 2)
    modifies s`currentRunning, s`ring, s`waiting, s.threads, m`counter, m.waiting
    ensures s.Valid() && m.State() == Downed(old(m.State()), old(s.currentRunning))
    ensures s.ring == if old(DownBlocks(m.State())) then old(s.ring)[1..] else old(s.ring)
  {
    m.counter := m.counter - 1;
    if m.counter < 0 {
      s.Block(m.waiting);
    }
  }

  /** The arrival that completes the generation releases all earlier ones, in arrival order. */
  method BarrierWait(s: Scheduler, b: Barrier)
    requires s.Valid() && b.waiting in s.queues && (b.counter + 1 != b.reach ==> |s.ring| >= 2)
    modifies s`currentRunning, s`ring, s`waiting, s.threads, b`counter, b.waiting
    ensures s.Valid() && b.State() == Arrived(old(b.State()), old(s.currentRunning))
    ensures s.ring == if old(Completes(b.State())) then old(s.ring) + old(b.waiting.members) else old(s.ring)[1..]
  {
    b.counter := b.counter + 1;
    if b.counter == b.reach {
      UnblockAll(s, b.waiting);
      b.counter := 0;
    } else {
      s.Block(b.waiting);
    }
  }
}
