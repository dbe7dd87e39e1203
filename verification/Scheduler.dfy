/** scheduler/scheduler.c. PCBs are heap nodes whose next field serves both the circular,
  * doubly linked ready ring and the null-terminated wait queues. The ghost sequences ring
  * and members say which list is which; the methods are proved to act on them as rotation,
  * removal of the head, append and pop.
  */
module Scheduling {

  datatype Status = FirstTime | FirstTimeThread | Ready | Blocked | Exited

  class Pcb {
    var next: Pcb?
    var previous: Pcb?
    var state: Status

    constructor (s: Status)
      ensures next == null && previous == null && state == s
    {
      next, previous, state := null, null, s;
    }
  }

  /** A pcb_t* that heads a wait queue, as in the field `waiting` of a lock. */
  class WaitQueue {
    var head: Pcb?
    ghost var members: seq<Pcb>

    constructor ()
      ensures head == null && members == []
    {
      head, members := null, [];
    }
  }

  predicate Distinct<T(==)>(s: seq<T>) {
    forall i, j :: 0 <= i < j < |s| ==> s[i] != s[j]
  }

  /** The element after position i of a circular sequence, and the one before it. */
  function After<T>(s: seq<T>, i: nat): T
    requires i < |s|
  {
    if i + 1 < |s| then s[i + 1] else s[0]
  }

  function Before<T>(s: seq<T>, i: nat): T
    requires i < |s|
  {
    if i == 0 then s[|s| - 1] else s[i - 1]
  }

  /** r is a circular, doubly linked list. */
  ghost predicate Linked(r: seq<Pcb>)
    reads r
  {
    && r != [] && Distinct(r)
    && (forall i {:trigger r[i].next} :: 0 <= i < |r| ==> r[i].next == After(r, i))
    && (forall i {:trigger r[i].previous} :: 0 <= i < |r| ==> r[i].previous == Before(r, i))
  }

  class Scheduler {
    var currentRunning: Pcb
    ghost var ring: seq<Pcb>
    ghost var queues: set<WaitQueue>
    ghost var exited: set<Pcb>
    ghost var threads: set<Pcb>
    /** The queue in which each waiting thread waits. */
    ghost var waiting: map<Pcb, WaitQueue>

    /** The kernel has linked the first threads into a ring; no wait queue exists yet. */
    constructor (first: Pcb, ghost r: seq<Pcb>)
      requires Linked(r) && r[0] == first
      requires forall p :: p in r ==> !Leaves(p.state)
      ensures Valid() && ring == r && queues == {} && exited == {} && threads == (set p | p in r)
    {
      currentRunning := first;
      ring, queues, exited, threads := r, {}, {}, set p | p in r;
      waiting := map[];
    }

    /** The ready ring is circular, doubly linked and begins at currentRunning. */
    ghost predicate RingOk()
      reads this`currentRunning, this`ring, this`threads, threads
    {
      && (forall i :: 0 <= i < |ring| ==> ring[i] in threads)
      && ring != [] && Linked(ring) && ring[0] == currentRunning
    }

    /** A wait queue is acyclic and null-terminated, and all its members are blocked. */
    ghost predicate QueueOk(q: WaitQueue)
      reads this`threads, q, threads
    {
      && Distinct(q.members)
      && (q.head == if q.members == [] then null else q.members[0])
      && (forall i :: 0 <= i < |q.members| ==> q.members[i] in threads && q.members[i].state.Blocked?)
      && (forall i {:trigger q.members[i].next} :: 0 <= i < |q.members| ==>
            q.members[i].next == if i + 1 < |q.members| then q.members[i + 1] else null)
    }

    /** p is in exactly one of the ready ring, the exited threads and, as `waiting` says, one wait queue. */
    ghost predicate At(p: Pcb)
      reads this, queues
    {
      && (p in ring ==> p !in exited && p !in waiting)
      && (p in exited ==> p !in waiting)
      && (p in ring || p in exited || (p in waiting && waiting[p] in queues))
      && (forall q :: q in queues ==> (p in q.members <==> p in waiting && waiting[p] == q))
    }

    ghost predicate Partition()
      reads this, queues
    {
      && waiting.Keys <= threads
      && (forall p :: p in threads ==> At(p))
    }

    ghost predicate StatesOk()
      reads this, threads
    {
      && (forall p :: p in ring ==> p in threads && !Leaves(p.state))
      && (forall p :: p in exited ==> p in threads && p.state == Exited)
    }

    ghost predicate QueuesOk()
      reads this, threads, queues
    {
      forall q :: q in queues ==> QueueOk(q)
    }

    ghost predicate Valid()
      reads this, threads, queues
    {
      RingOk() && QueuesOk() && StatesOk() && Partition()
    }

    /** A queue whose members were not written stays in shape. */
    twostate lemma QueueKept(q: WaitQueue)
      requires old(QueueOk(q)) && threads == old(threads)
      requires q.head == old(q.head) && q.members == old(q.members)
      requires forall p :: p in q.members ==> p.next == old(p.next) && p.state == old(p.state)
      ensures QueueOk(q)
    {
    }

    /** So does every queue outside `touched`, when only ring threads and members of `touched` were written. */
    twostate lemma OthersKept(touched: set<WaitQueue>)
      requires old(QueuesOk()) && old(Partition()) && threads == old(threads) && queues == old(queues)
      requires touched <= queues
      requires forall q :: q in queues - touched ==> q.head == old(q.head) && q.members == old(q.members)
      requires forall p :: p in threads && p !in old(ring) && (forall q :: q in touched ==> p !in old(q.members)) ==>
                 p.next == old(p.next) && p.state == old(p.state)
      ensures forall q :: q in queues - touched ==> QueueOk(q)
    {
      forall q | q in queues - touched
        ensures QueueOk(q)
      {
        assert old(QueueOk(q));
        forall p | p in q.members
          ensures p.next == old(p.next) && p.state == old(p.state)
        {
          assert p in threads && old(At(p));
        }
        QueueKept(q);
      }
    }

    /** A rotation of the ring moves no thread to another place. */
    twostate lemma Rotated()
      requires old(Partition()) && old(StatesOk()) && threads == old(threads) && queues == old(queues)
      requires waiting == old(waiting) && exited == old(exited) && old(ring) != []
      requires ring == old(ring)[1..] + old(ring)[..1]
      requires forall q :: q in queues ==> q.members == old(q.members)
      requires forall p :: p in threads && p != ring[0] ==> p.state == old(p.state)
      requires ring[0].state == Dispatched(old(ring[0].state))
      ensures Partition() && StatesOk()
    {
      assert old(ring) == old(ring)[..1] + old(ring)[1..];
      forall p | p in threads
        ensures At(p)
      {
        assert old(At(p));
      }
    }

    /** Each thread is in exactly one list, and its state tells which kind of list that is. */
    lemma OneListEach(p: Pcb)
      requires Valid() && p in threads
      ensures p.state == Blocked <==> exists q :: q in queues && p in q.members
      ensures p.state == Exited <==> p in exited
      ensures !Leaves(p.state) <==> p in ring
      ensures forall q, r :: q in queues && r in queues && p in q.members && p in r.members ==> q == r
    {
      assert At(p);
      if p in waiting {
        assert QueueOk(waiting[p]);
      }
    }

    lemma HeadOf(q: WaitQueue)
      requires Valid() && q in queues
      ensures q.head == null <==> q.members == []
      ensures ring != []
    {
      assert QueueOk(q);
    }

    lemma QueueApart(q: WaitQueue)
      requires Valid() && q in queues
      ensures QueueOk(q) && forall p :: p in q.members ==> p in threads && p !in ring && p !in exited
    {
      assert QueueOk(q);
      forall p | p in q.members
        ensures p in threads && p !in ring && p !in exited
      {
        assert At(p);
      }
    }

    twostate lemma QueueGrew(q: WaitQueue)
      requires old(QueueOk(q)) && threads == old(threads) && old(ring) != []
      requires old(ring)[0] in threads && old(ring)[0] !in old(q.members)
      requires q.members == old(q.members) + [old(ring)[0]] && q.head == q.members[0]
      requires old(ring)[0].next == null && old(ring)[0].state == Blocked
      requires forall p :: p in old(q.members) ==> p.state == old(p.state)
      requires forall i {:trigger q.members[i].next} :: 0 <= i < |old(q.members)| ==>
                q.members[i].next == q.members[i + 1]
      ensures QueueOk(q)
    {
      assert forall i :: 0 <= i < |old(q.members)| ==> q.members[i] == old(q.members)[i];
    }

    /** The ring without its head, whose neighbours were linked to each other. */
    twostate lemma RingShrank()
      requires old(RingOk()) && threads == old(threads) && |old(ring)| >= 2
      requires ring == old(ring)[1..] && currentRunning == ring[0]
      requires ring[|ring| - 1].next == ring[0] && ring[0].previous == ring[|ring| - 1]
      requires forall p :: p in ring && p != ring[|ring| - 1] ==> p.next == old(p.next)
      requires forall p :: p in ring && p != ring[0] ==> p.previous == old(p.previous)
      ensures RingOk()
    {
      ghost var r, n := old(ring), |old(ring)|;
      DistinctTail(r);
      hide Distinct;
      assert forall i :: 0 <= i < |ring| ==> ring[i] == r[i + 1];
      assert forall i {:trigger r[i].next} :: 1 <= i < n - 1 ==> r[i] in ring && r[i].next == r[i + 1];
      assert forall i {:trigger r[i].previous} :: 2 <= i < n ==> r[i] in ring && r[i].previous == r[i - 1];
    }

    twostate lemma RingGrew(tmp: Pcb)
      requires old(RingOk()) && threads == old(threads) && tmp in threads && tmp !in old(ring)
      requires ring == old(ring) + [tmp] && currentRunning == old(currentRunning)
      requires tmp.next == ring[0] && ring[0].previous == tmp
      requires tmp.previous == ring[|ring| - 2] && ring[|ring| - 2].next == tmp
      requires forall p :: p in old(ring) && p != ring[|ring| - 2] ==> p.next == old(p.next)
      requires forall p :: p in old(ring) && p != ring[0] ==> p.previous == old(p.previous)
      ensures RingOk()
    {
      ghost var r := old(ring);
      DistinctPush(r, tmp);
      hide Distinct;
      assert forall i :: 0 <= i < |r| ==> ring[i] == r[i];
      assert forall i {:trigger r[i].next} :: 0 <= i < |r| - 1 ==> r[i] in r && r[i].next == r[i + 1];
      assert forall i {:trigger r[i].previous} :: 0 < i < |r| ==> r[i] in r && r[i].previous == r[i - 1];
    }

    twostate lemma QueueShrank(q: WaitQueue)
      requires old(QueueOk(q)) && threads == old(threads) && old(q.members) != []
      requires q.members == old(q.members)[1..] && q.head == old(q.members[0].next)
      requires forall p :: p in old(q.members) && p != old(q.members)[0] ==>
                p.next == old(p.next) && p.state == old(p.state)
      ensures QueueOk(q)
    {
      ghost var m := old(q.members);
      assert forall i :: 0 <= i < |q.members| ==> q.members[i] == m[i + 1] && m[i + 1] in m && m[i + 1] != m[0];
    }

    /** When only p moved, and is in one place, every thread still is. */
    twostate lemma Moved(p: Pcb)
      requires old(Partition()) && threads == old(threads) && queues == old(queues) && p in threads
      requires waiting.Keys <= threads && At(p)
      requires forall x :: x in threads && x != p ==>
                (x in ring <==> x in old(ring)) && (x in exited <==> x in old(exited))
      requires forall x :: x in threads && x != p ==> (x in waiting <==> x in old(waiting))
      requires forall x :: x in waiting && x != p ==> x in old(waiting) && waiting[x] == old(waiting)[x]
      requires forall x, q :: x in threads && x != p && q in queues ==> (x in q.members <==> x in old(q.members))
      ensures Partition()
    {
      forall x | x in threads
        ensures At(x)
      {
        if x != p {
          assert old(At(x));
        }
      }
    }

    /** The head of the ring left it for good: still one place for each thread, and states that fit. */
    twostate lemma LeftForGood(me: Pcb)
      requires old(Valid()) && threads == old(threads) && queues == old(queues)
      requires me == old(ring)[0] && |old(ring)| >= 2 && ring == old(ring)[1..]
      requires waiting == old(waiting) && exited == old(exited) + {me} && me.state == Exited
      requires forall q :: q in queues ==> q.members == old(q.members)
      requires forall p :: p in threads && p != me && p != ring[0] ==> p.state == old(p.state)
      requires !Leaves(ring[0].state)
      ensures StatesOk() && Partition()
    {
      hide QueuesOk;
      ghost var r := old(ring);
      assert old(At(me));
      TailWithout(r);
      Moved(me);
    }

    /** The head of the ring left it for the end of q. */
    twostate lemma LeftForQueue(q: WaitQueue)
      requires old(Valid()) && threads == old(threads) && queues == old(queues) && q in queues
      requires |old(ring)| >= 2 && ring == old(ring)[1..] && old(ring)[0].state == Blocked
      requires waiting == old(waiting)[old(ring)[0] := q] && exited == old(exited)
      requires q.members == old(q.members) + [old(ring)[0]]
      requires forall r :: r in queues - {q} ==> r.members == old(r.members)
      requires forall p :: p in threads && p != old(ring)[0] && p != ring[0] ==> p.state == old(p.state)
      requires !Leaves(ring[0].state)
      ensures StatesOk() && Partition()
    {
      hide QueuesOk;
      ghost var r := old(ring);
      assert old(At(r[0]));
      TailWithout(r);
      Moved(r[0]);
    }

    /** The head of q left it for the end of the ring. */
    twostate lemma JoinedRing(q: WaitQueue)
      requires old(Valid()) && threads == old(threads) && queues == old(queues)
      requires q in queues && old(q.members) != [] && q.members == old(q.members)[1..]
      requires ring == old(ring) + [old(q.members)[0]]
      requires waiting == old(waiting) - {old(q.members)[0]} && exited == old(exited)
      requires forall r :: r in queues - {q} ==> r.members == old(r.members)
      requires forall p :: p in threads && p != old(q.members)[0] ==> p.state == old(p.state)
      requires !Leaves(old(q.members)[0].state)
      ensures StatesOk() && Partition()
    {
      hide Linked, Distinct;
      ghost var m := old(q.members);
      assert old(QueueOk(q));
      TailWithout(m);
      assert m[0] in m && old(At(m[0]));
      Moved(m[0]);
    }

    /** The current thread leaves the ring; its pointers are cleared for use in a wait queue. */
    method RemoveCurrent()
      requires RingOk() && |ring| >= 2
      modifies this`currentRunning, this`ring, threads`next, threads`previous
      ensures RingOk() && ring == old(ring)[1..]
      ensures old(currentRunning).next == null && old(currentRunning).previous == null
      ensures forall p :: p in threads && p !in old(ring) ==> p.next == old(p.next) && p.previous == old(p.previous)
    {
      ghost var r := ring;
      ghost var n := |r|;
      DistinctTail(r);
      hide Distinct;
      assert currentRunning.previous == r[n - 1] && currentRunning.next == r[1];
      currentRunning.previous.next := currentRunning.next;
      currentRunning.next.previous := currentRunning.previous;
      var tmp := currentRunning;
      currentRunning := currentRunning.next;
      tmp.next := null;
      tmp.previous := null;
      ring := ring[1..];
      RingShrank();
    }

    /** scheduler(): the next thread becomes current; one that blocked or exited leaves the ring. */
    method Schedule()
      requires RingOk()
      requires Leaves(currentRunning.state) ==> |ring| >= 2
      modifies this`currentRunning, this`ring, threads`next, threads`previous, threads`state
      ensures RingOk()
      ensures ring == Scheduled(old(ring), old(Leaves(currentRunning.state)))
      ensures old(Leaves(currentRunning.state)) ==> old(currentRunning).next == null
      ensures forall p :: p in threads && p !in old(ring) ==> unchanged(p)
      ensures forall p :: p in threads && p != currentRunning ==> p.state == old(p.state)
      ensures currentRunning.state == Dispatched(old(After(ring, 0).state))
    {
      if currentRunning.state == Blocked || currentRunning.state == Exited {
        RemoveCurrent();
      } else {
        currentRunning := currentRunning.next;
        ring := ring[1..] + ring[..1];
      }
      Dispatch();
    }

    /** dispatch(): a thread that runs for the first time is ready from now on. */
    method Dispatch()
      modifies currentRunning`state
      ensures currentRunning.state == Dispatched(old(currentRunning.state))
    {
      if currentRunning.state == FirstTime {
        currentRunning.state := Ready;
      } else if currentRunning.state == FirstTimeThread {
        currentRunning.state := Ready;
      }
    }

    /** A wait queue that was just initialised: no thread waits in it. */
    method AddQueue(q: WaitQueue)
      requires Valid() && q !in queues && q.head == null && q.members == []
      modifies this`queues
      ensures Valid() && queues == old(queues) + {q}
    {
      hide Linked;
      queues := queues + {q};
      assert QueuesOk() by {
        assert forall r :: r in old(queues) ==> old(QueueOk(r));
        assert QueueOk(q);
      }
      forall p | p in threads
        ensures At(p)
      {
        assert old(At(p));
      }
    }

    /** yield() of a running thread. */
    method Yield()
      requires Valid()
      modifies this`currentRunning, this`ring, threads`next, threads`previous, threads`state
      ensures Valid() && ring == Scheduled(old(ring), false)
      ensures currentRunning.state == Dispatched(old(After(ring, 0).state))
      ensures forall p :: p in threads && p != currentRunning ==> p.state == old(p.state)
    {
      hide QueueOk, Linked, Partition, Distinct;
      Schedule();
      OthersKept({});
      Rotated();
    }

    /** exit(). When the last thread exits, scheduler() never returns. */
    method Exit() returns (halted: bool)
      requires Valid()
      modifies this`currentRunning, this`ring, this`exited, this`waiting, threads`next, threads`previous, threads`state
      ensures halted <==> |old(ring)| == 1
      ensures !halted ==> Valid() && ring == Scheduled(old(ring), true) && exited == old(exited) + {old(currentRunning)}
      ensures old(currentRunning).state == Exited
      ensures !halted ==> currentRunning.state == Dispatched(old(After(ring, 0).state))
      ensures forall p :: p in threads && p != old(currentRunning) && p != currentRunning ==> p.state == old(p.state)
    {
      ghost var me := currentRunning;
      currentRunning.state := Exited;
      if currentRunning.next == currentRunning {
        return true;
      }
      exited := exited + {currentRunning};
      Schedule();
      OthersKept({});
      LeftForGood(me);
      return false;
    }

    /** The last member of a queue that is not empty. */
    method LastOf(q: WaitQueue) returns (tmp: Pcb)
      requires QueueOk(q) && q.head != null
      ensures q.members != [] && tmp == q.members[|q.members| - 1]
    {
      tmp := q.head;
      ghost var k := 0;
      while tmp.next != null
        invariant 0 <= k < |q.members| && tmp == q.members[k]
        decreases |q.members| - k
      {
        tmp := tmp.next;
        k := k + 1;
      }
    }

    /** The current thread is appended to q; it stays linked into the ring as well. */
    method Append(q: WaitQueue)
      requires RingOk() && QueueOk(q)
      requires currentRunning !in q.members && (forall p :: p in q.members ==> p !in ring)
      modifies q`head, q`members, currentRunning`state, q.members`next
      ensures q.members == old(q.members) + [currentRunning] && q.head == q.members[0]
      ensures RingOk() && currentRunning.state == Blocked
      ensures forall i {:trigger q.members[i].next} :: 0 <= i < |old(q.members)| ==>
                q.members[i].next == q.members[i + 1]
    {
      currentRunning.state := Blocked;
      if q.head == null {
        q.head := currentRunning;
      } else {
        var tmp := LastOf(q);
        tmp.next := currentRunning;
      }
      q.members := q.members + [currentRunning];
    }

    /** block(): the current thread moves from the ready ring to the end of q. */
    method Block(q: WaitQueue)
      requires Valid() && q in queues && |ring| >= 2
      modifies this`currentRunning, this`ring, this`waiting, q`head, q`members
      modifies threads`next, threads`previous, threads`state
      ensures Valid() && ring == Scheduled(old(ring), true)
      ensures q.members == old(q.members) + [old(currentRunning)] && old(currentRunning).state == Blocked
      ensures currentRunning.state == Dispatched(old(ring[1].state))
      ensures forall p :: p in threads && p != old(currentRunning) && p != currentRunning ==> p.state == old(p.state)
    {
      hide QueueOk, Partition, Distinct;
      ghost var me := currentRunning;
      QueueApart(q);
      Append(q);
      waiting := waiting[me := q];
      Schedule();
      QueueGrew(q);
      OthersKept({q});
      LeftForQueue(q);
    }

    /** The pointer part of unblock(). */
    method Relink(q: WaitQueue)
      requires RingOk() && QueueOk(q) && q.members != [] && (forall p :: p in q.members ==> p !in ring)
      modifies this`ring, q`head, q`members, threads`next, threads`previous, threads`state
      ensures RingOk() && ring == old(ring) + [old(q.head)]
      ensures QueueOk(q) && old(q.members) == [old(q.head)] + q.members
      ensures old(q.head).state == Ready
      ensures forall p :: p in threads && p != old(q.head) ==> p.state == old(p.state)
      ensures forall p :: p in threads && p !in old(ring) && p != old(q.head) ==> p.next == old(p.next)
    {
      ghost var r := ring;
      assert currentRunning.previous == r[|r| - 1] && q.head == q.members[0];
      hide Linked, QueueOk, Distinct;
      var tmp := q.head;
      q.head := tmp.next;
      tmp.state := Ready;
      tmp.previous := currentRunning.previous;
      tmp.next := currentRunning;
      currentRunning.previous.next := tmp;
      currentRunning.previous := tmp;
      q.members := q.members[1..];
      ring := ring + [tmp];
      RingGrew(tmp);
      QueueShrank(q);
    }

    /** unblock(): the first member of q goes behind the current thread, to the end of the ring. */
    method Unblock(q: WaitQueue)
      requires Valid() && q in queues && q.members != []
      modifies this`ring, this`waiting, q`head, q`members, threads`next, threads`previous, threads`state
      ensures Valid() && ring == old(ring) + [old(q.members)[0]]
      ensures q.members == old(q.members)[1..] && old(q.members)[0].state == Ready
      ensures forall p :: p in threads && p != old(q.members)[0] ==> p.state == old(p.state)
    {
      hide QueueOk, Partition, StatesOk, Distinct;
      ghost var me := q.members[0];
      QueueApart(q);
      Relink(q);
      waiting := waiting - {me};
      OthersKept({q});
      JoinedRing(q);
    }
  }

  lemma DistinctPush(r: seq<Pcb>, p: Pcb)
    requires Distinct(r) && p !in r
    ensures Distinct(r + [p])
  {
  }

  lemma DistinctTail<T>(s: seq<T>)
    requires Distinct(s) && |s| >= 2
    ensures Distinct(s[1..])
    ensures forall i :: 1 <= i < |s| ==> s[i] != s[0]
    ensures forall i :: 1 <= i < |s| - 1 ==> s[i] != s[|s| - 1]
    ensures forall i :: 2 <= i < |s| ==> s[i] != s[1]
  {
  }

  /** The tail of a list of different elements is that list without its head. */
  lemma TailWithout<T>(s: seq<T>)
    requires Distinct(s) && s != []
    ensures forall x :: x in s[1..] <==> x in s && x != s[0]
  {
    assert s == [s[0]] + s[1..];
    HeadOnce(s[0], s[1..]);
  }

  lemma HeadOnce<T>(x: T, s: seq<T>)
    requires Distinct([x] + s)
    ensures x !in s
  {
    forall i | 0 <= i < |s|
      ensures s[i] != x
    {
      assert ([x] + s)[0] == x && ([x] + s)[i + 1] == s[i];
    }
  }

  /** A thread in this state does not stay in the ring. */
  predicate Leaves(s: Status) { s == Blocked || s == Exited }

  /** The ready ring after a call of scheduler(). */
  function Scheduled<T>(ring: seq<T>, leaves: bool): seq<T>
    requires ring != []
  {
    if leaves then ring[1..] else ring[1..] + ring[..1]
  }

  function Dispatched(s: Status): Status {
    if s == FirstTime || s == FirstTimeThread then Ready else s
  }

  /** What can happen to the ready ring: the current thread calls scheduler() and stays, or
    * blocks or exits, or it unblocks a thread. */
  datatype Op<T> = Switch | Leave | Wake(t: T)

  predicate Enabled<T(==)>(ring: seq<T>, op: Op<T>) {
    match op
    case Switch => ring != []
    case Leave => |ring| >= 2
    case Wake(t) => ring != [] && t !in ring
  }

  function Apply<T>(ring: seq<T>, op: Op<T>): seq<T>
    requires Enabled(ring, op)
  {
    match op
    case Switch => Scheduled(ring, false)
    case Leave => Scheduled(ring, true)
    case Wake(t) => ring + [t]
  }

  predicate Runs<T(==)>(ring: seq<T>, ops: seq<Op<T>>)
    decreases |ops|
  {
    ops == [] || (Enabled(ring, ops[0]) && Runs(Apply(ring, ops[0]), ops[1..]))
  }

  function RingAfter<T>(ring: seq<T>, ops: seq<Op<T>>): seq<T>
    requires Runs(ring, ops)
    decreases |ops|
  {
    if ops == [] then ring else RingAfter(Apply(ring, ops[0]), ops[1..])
  }

  /** The number of calls of scheduler() among ops. */
  function Calls<T>(ops: seq<Op<T>>): nat {
    if ops == [] then 0 else (if ops[0].Wake? then 0 else 1) + Calls(ops[1..])
  }

  /** Exact round robin: whatever the other threads do, a thread at distance d behind the
    * current one moves up by one place with each call of scheduler(), so it runs at the d-th
    * call and at none before. */
  lemma {:induction false} RoundRobin<T>(ring: seq<T>, ops: seq<Op<T>>, d: nat)
    requires Distinct(ring) && d < |ring| && Runs(ring, ops) && Calls(ops) <= d
    ensures var now := RingAfter(ring, ops);
            && Distinct(now) && d - Calls(ops) < |now| && now[d - Calls(ops)] == ring[d]
            && (now[0] == ring[d] <==> Calls(ops) == d)
    decreases |ops|
  {
    if ops != [] {
      var next := Apply(ring, ops[0]);
      if d == 0 {
        assert Calls(ops[1..]) == 0 && ops[0].Wake?;
        assert next[0] == ring[0];
        RoundRobin(next, ops[1..], 0);
      } else if ops[0].Wake? {
        RoundRobin(next, ops[1..], d);
      } else {
        assert next[d - 1] == ring[d];
        RoundRobin(next, ops[1..], d - 1);
      }
    }
  }

  /** An unblocked thread waits for exactly as many calls as there are threads in the ring. */
  lemma WokenRunsAfterAll<T>(ring: seq<T>, t: T, ops: seq<Op<T>>)
    requires Distinct(ring) && Enabled(ring, Wake(t)) && Runs(Apply(ring, Wake(t)), ops) && Calls(ops) <= |ring|
    ensures RingAfter(Apply(ring, Wake(t)), ops) != []
    ensures RingAfter(Apply(ring, Wake(t)), ops)[0] == t <==> Calls(ops) == |ring|
  {
    RoundRobin(Apply(ring, Wake(t)), ops, |ring|);
  }
}
