/** The monitor of mailbox/mbox.c on the primitives of sync/thread.c, where one step is one
  * critical section. condition_wait is two of them, lock_release and the blocking, unless its
  * caller is in a critical section already, as getchar is (mailbox/keyboard.c): leave_critical
  * then does not let other threads in between. That difference decides whether wake-ups get lost.
  */
module Nested {
  import opened Mailbox
  import opened Monitor

  datatype Place =
    | Ask      // lock_acquire, or the end of condition_wait
    | Queued   // on the lock's queue
    | Test     // owning the lock, at the test of the while loop
    | GiveUp   // condition_wait: lock_release
    | Gap      // condition_wait: between lock_release and enter_critical
    | Asleep   // on the condition's queue
    | Wake     // messages updated, before condition_broadcast
    | Finish   // lock_release

  /** nested: the call was made with interrupts disabled already. */
  datatype Thread = Free | In(job: Job, nested: bool, at: Place)

  datatype Machine = Machine(
    threads: seq<Thread>, owner: Option<nat>, queued: seq<nat>, space: seq<nat>, data: seq<nat>,
    messages: seq<Message>)

  function Sleepers(s: Machine, c: Condition): seq<nat> { if c.MoreSpace? then s.space else s.data }

  function SetSleepers(s: Machine, c: Condition, w: seq<nat>): Machine {
    if c.MoreSpace? then s.(space := w) else s.(data := w)
  }

  function Put(s: Machine, t: nat, at: Place): (r: Machine)
    ensures |r.threads| == |s.threads|
  {
    if t < |s.threads| && s.threads[t].In? then s.(threads := s.threads[t := s.threads[t].(at := at)]) else s
  }

  function WakeAll(s: Machine, c: Condition): (r: Machine)
    ensures |r.threads| == |s.threads|
  {
    var w := Sleepers(s, c);
    SetSleepers(s.(threads := seq(|s.threads|, i requires 0 <= i < |s.threads| =>
                                   if i in w && s.threads[i].In? then s.threads[i].(at := Ask) else s.threads[i])), c, [])
  }

  function PassOn(s: Machine): (r: Machine)
    ensures |r.threads| == |s.threads|
  {
    if s.queued == [] then s.(owner := None)
    else Put(s.(owner := Some(s.queued[0]), queued := s.queued[1..]), s.queued[0], Test)
  }

  function Sleep(s: Machine, t: nat, c: Condition): (r: Machine)
    ensures |r.threads| == |s.threads|
  {
    Put(SetSleepers(s, c, Sleepers(s, c) + [t]), t, Asleep)
  }

  predicate CanMove(s: Machine, t: nat) {
    t < |s.threads| && s.threads[t].In? && !s.threads[t].at.Queued? && !s.threads[t].at.Asleep?
  }

  function Updated(messages: seq<Message>, j: Job): seq<Message>
    requires !MustWait(messages, j)
  {
    match j
    case Send(m) => messages + [m]
    case Recv => messages[1..]
  }

  function Move(s: Machine, t: nat): (r: Machine)
    requires CanMove(s, t)
    ensures |r.threads| == |s.threads|
  {
    var job, nested := s.threads[t].job, s.threads[t].nested;
    match s.threads[t].at
    case Ask =>
      if s.owner == None then Put(s.(owner := Some(t)), t, Test)
      else Put(s.(queued := s.queued + [t]), t, Queued)
    case Test =>
      if MustWait(s.messages, job) then Put(s, t, GiveUp) else Put(s.(messages := Updated(s.messages, job)), t, Wake)
    case GiveUp => if nested then Sleep(PassOn(s), t, WaitsOn(job)) else Put(PassOn(s), t, Gap)
    case Gap => Sleep(s, t, WaitsOn(job))
    case Wake => Put(WakeAll(s, Announces(job)), t, Finish)
    case Finish => var r := PassOn(s); r.(threads := r.threads[t := Free])
    case Queued => s
    case Asleep => s
  }

  datatype Event = Moves(t: nat) | Enters(t: nat, j: Job, nested: bool)

  predicate Allowed(s: Machine, e: Event) {
    match e
    case Moves(t) => CanMove(s, t)
    case Enters(t, j, nested) => t < |s.threads| && s.threads[t].Free?
  }

  function Next(s: Machine, e: Event): Machine
    requires Allowed(s, e)
  {
    match e
    case Moves(t) => Move(s, t)
    case Enters(t, j, nested) => s.(threads := s.threads[t := In(j, nested, Ask)])
  }

  predicate Possible(s: Machine, run: seq<Event>)
    decreases |run|
  {
    run == [] || (Allowed(s, run[0]) && Possible(Next(s, run[0]), run[1..]))
  }

  function Outcome(s: Machine, run: seq<Event>): Machine
    requires Possible(s, run)
    decreases |run|
  {
    if run == [] then s else Outcome(Next(s, run[0]), run[1..])
  }

  function Start(n: nat): Machine {
    Machine(seq(n, _ => Free), None, [], [], [], [])
  }

  // ---------- The invariant ----------

  predicate InMonitor(p: Thread) {
    p.In? && (p.at.Test? || p.at.GiveUp? || p.at.Wake? || p.at.Finish?)
  }

  predicate ThreadFits(s: Machine, t: nat)
    requires t < |s.threads|
  {
    var p := s.threads[t];
    && (InMonitor(p) <==> s.owner == Some(t))
    && (p.In? && p.at.Queued? <==> t in s.queued)
    && (p.In? && p.at.Asleep? && p.job.Send? <==> t in s.space)
    && (p.In? && p.at.Asleep? && p.job.Recv? <==> t in s.data)
  }

  /** The owner changed the messages and has not broadcast c yet. */
  predicate Waking(s: Machine, c: Condition) {
    && s.owner.Some? && s.owner.value < |s.threads|
    && var p := s.threads[s.owner.value];
       p.In? && p.at.Wake? && Announces(p.job) == c
  }

  predicate HasCause(s: Machine, t: nat)
    requires t < |s.threads| && s.threads[t].In?
  {
    MustWait(s.messages, s.threads[t].job) || Waking(s, WaitsOn(s.threads[t].job))
  }

  predicate Waiting(p: Thread) {
    p.In? && (p.at.GiveUp? || p.at.Gap? || p.at.Asleep?)
  }

  /** A nested call waits only with cause, and is never caught in the gap. */
  predicate NestedFits(s: Machine, t: nat)
    requires t < |s.threads|
  {
    s.threads[t].In? && s.threads[t].nested && Waiting(s.threads[t]) ==> HasCause(s, t) && !s.threads[t].at.Gap?
  }

  ghost predicate QueuesOk(s: Machine) {
    var n := |s.threads|;
    && QueueOk(n, s.queued) && QueueOk(n, s.space) && QueueOk(n, s.data)
    && InRange(n, s.owner) && (s.queued != [] ==> s.owner.Some?)
  }

  ghost predicate Sound(s: Machine) {
    QueuesOk(s) && forall t :: 0 <= t < |s.threads| ==> ThreadFits(s, t) && NestedFits(s, t)
  }

  lemma EmptyQueue(n: nat)
    ensures QueueOk(n, [])
  {
  }

  /** The lock is given up, and a nested call goes to sleep in the same step. */
  predicate PassesOn(p: Thread) {
    p.In? && (p.at.GiveUp? || p.at.Finish?)
  }

  lemma PassQueues(s: Machine, t: nat)
    requires QueuesOk(s) && CanMove(s, t) && ThreadFits(s, t) && PassesOn(s.threads[t])
    ensures QueuesOk(Move(s, t))
  {
    hide MustWait, QueueOk;
    QueueEnds(|s.threads|, s.queued, t);
    QueueEnds(|s.threads|, Sleepers(s, WaitsOn(s.threads[t].job)), t);
  }

  lemma PlainQueues(s: Machine, t: nat)
    requires QueuesOk(s) && CanMove(s, t) && ThreadFits(s, t) && !PassesOn(s.threads[t])
    ensures QueuesOk(Move(s, t))
  {
    hide MustWait, QueueOk;
    QueueEnds(|s.threads|, s.queued, t);
    QueueEnds(|s.threads|, Sleepers(s, WaitsOn(s.threads[t].job)), t);
    EmptyQueue(|s.threads|);
  }

  lemma PassFits(s: Machine, t: nat, x: nat)
    requires QueuesOk(s) && CanMove(s, t) && x < |s.threads| && ThreadFits(s, t) && ThreadFits(s, x)
    requires (s.queued != [] ==> ThreadFits(s, s.queued[0])) && PassesOn(s.threads[t])
    ensures ThreadFits(Move(s, t), x)
  {
    if s.queued != [] {
      Popped(s.queued, x);
    }
    hide MustWait, QueueOk;
  }

  lemma PlainFits(s: Machine, t: nat, x: nat)
    requires CanMove(s, t) && x < |s.threads| && ThreadFits(s, t) && ThreadFits(s, x) && !PassesOn(s.threads[t])
    ensures ThreadFits(Move(s, t), x)
  {
    hide MustWait, QueueOk;
  }

  lemma UpdateNested(s: Machine, t: nat, x: nat)
    requires CanMove(s, t) && x < |s.threads| && ThreadFits(s, t) && ThreadFits(s, x) && NestedFits(s, x)
    requires s.threads[t].at.Test?
    ensures NestedFits(Move(s, t), x)
  {
    if s.threads[t].job.Send? {
      UsedGrows(s.messages, s.threads[t].job.m);
    }
    hide Used;
  }

  lemma PassNested(s: Machine, t: nat, x: nat)
    requires CanMove(s, t) && x < |s.threads| && ThreadFits(s, t) && ThreadFits(s, x) && NestedFits(s, x)
    requires NestedFits(s, t)
    requires PassesOn(s.threads[t])
    ensures NestedFits(Move(s, t), x)
  {
    hide MustWait;
  }

  lemma PlainNested(s: Machine, t: nat, x: nat)
    requires CanMove(s, t) && x < |s.threads| && ThreadFits(s, t) && ThreadFits(s, x) && NestedFits(s, x)
    requires !PassesOn(s.threads[t]) && !s.threads[t].at.Test?
    ensures NestedFits(Move(s, t), x)
  {
    hide MustWait;
  }

  lemma MoveKeeps(s: Machine, t: nat)
    requires Sound(s) && CanMove(s, t)
    ensures Sound(Move(s, t))
  {
    assert ThreadFits(s, t) && NestedFits(s, t);
    assert s.queued != [] ==> s.queued[0] < |s.threads| && ThreadFits(s, s.queued[0]);
    hide Move, QueuesOk, ThreadFits, NestedFits;
    if PassesOn(s.threads[t]) {
      PassQueues(s, t);
    } else {
      PlainQueues(s, t);
    }
    forall x | 0 <= x < |s.threads|
      ensures ThreadFits(Move(s, t), x) && NestedFits(Move(s, t), x)
    {
      if PassesOn(s.threads[t]) {
        PassFits(s, t, x);
        PassNested(s, t, x);
      } else {
        PlainFits(s, t, x);
        if s.threads[t].at.Test? {
          UpdateNested(s, t, x);
        } else {
          PlainNested(s, t, x);
        }
      }
    }
  }

  lemma EnterKeeps(s: Machine, t: nat, j: Job, nested: bool)
    requires Sound(s) && t < |s.threads| && s.threads[t].Free?
    ensures Sound(Next(s, Enters(t, j, nested)))
  {
    hide MustWait, QueueOk;
    var n := Next(s, Enters(t, j, nested));
    assert ThreadFits(s, t);
    forall x | 0 <= x < |s.threads|
      ensures ThreadFits(n, x) && NestedFits(n, x)
    {
      assert ThreadFits(s, x) && NestedFits(s, x);
    }
  }

  lemma {:induction false} RunKeeps(s: Machine, run: seq<Event>)
    requires Sound(s) && Possible(s, run)
    ensures Sound(Outcome(s, run))
    decreases |run|
  {
    hide Sound, Move;
    if run != [] {
      match run[0] {
        case Moves(t) => MoveKeeps(s, t);
        case Enters(t, j, nested) => EnterKeeps(s, t, j, nested);
      }
      RunKeeps(Next(s, run[0]), run[1..]);
    }
  }

  lemma StartSound(n: nat)
    ensures Sound(Start(n))
  {
  }

  /** Every thread asleep on a condition has to wait, or is about to be woken. */
  ghost predicate NothingLost(s: Machine) {
    forall t :: 0 <= t < |s.threads| && s.threads[t].In? && s.threads[t].at.Asleep? ==> HasCause(s, t)
  }

  ghost predicate AllCalls(run: seq<Event>, nested: bool) {
    forall i :: 0 <= i < |run| && run[i].Enters? ==> run[i].nested == nested
  }

  /** Whatever the depth of the other calls, a call that was made within a critical section loses no wake-up. */
  lemma NestedCallsAreSafe(n: nat, run: seq<Event>, t: nat)
    requires Possible(Start(n), run)
    requires var s := Outcome(Start(n), run);
             t < |s.threads| && s.threads[t].In? && s.threads[t].nested && s.threads[t].at.Asleep?
    ensures HasCause(Outcome(Start(n), run), t)
  {
    StartSound(n);
    RunKeeps(Start(n), run);
    assert NestedFits(Outcome(Start(n), run), t);
  }

  /** A thread keeps the depth of its call. */
  lemma {:induction false} DepthKept(s: Machine, run: seq<Event>, nested: bool)
    requires Possible(s, run) && AllCalls(run, nested)
    requires forall t :: 0 <= t < |s.threads| && s.threads[t].In? ==> s.threads[t].nested == nested
    ensures forall t :: 0 <= t < |Outcome(s, run).threads| && Outcome(s, run).threads[t].In? ==>
              Outcome(s, run).threads[t].nested == nested
    decreases |run|
  {
    if run != [] {
      DepthStep(s, run[0], nested);
      DepthKept(Next(s, run[0]), run[1..], nested);
    }
  }

  lemma DepthStep(s: Machine, e: Event, nested: bool)
    requires Allowed(s, e) && (e.Enters? ==> e.nested == nested)
    requires forall t :: 0 <= t < |s.threads| && s.threads[t].In? ==> s.threads[t].nested == nested
    ensures forall t :: 0 <= t < |Next(s, e).threads| && Next(s, e).threads[t].In? ==>
              Next(s, e).threads[t].nested == nested
  {
    hide Move;
    if e.Moves? {
      forall t | 0 <= t < |s.threads| && Move(s, e.t).threads[t].In?
        ensures Move(s, e.t).threads[t].nested == nested
      {
        MoveDepth(s, e.t, t);
      }
    }
  }

  lemma MoveDepth(s: Machine, t: nat, x: nat)
    requires CanMove(s, t) && x < |s.threads| && Move(s, t).threads[x].In?
    ensures s.threads[x].In? && Move(s, t).threads[x].nested == s.threads[x].nested
  {
    hide Move;
    if PassesOn(s.threads[t]) {
      PassDepth(s, t, x);
    } else {
      PlainDepth(s, t, x);
    }
  }

  lemma PassDepth(s: Machine, t: nat, x: nat)
    requires CanMove(s, t) && x < |s.threads| && Move(s, t).threads[x].In? && PassesOn(s.threads[t])
    ensures s.threads[x].In? && Move(s, t).threads[x].nested == s.threads[x].nested
  {
  }

  lemma PlainDepth(s: Machine, t: nat, x: nat)
    requires CanMove(s, t) && x < |s.threads| && Move(s, t).threads[x].In? && !PassesOn(s.threads[t])
    ensures s.threads[x].In? && Move(s, t).threads[x].nested == s.threads[x].nested
  {
    hide MustWait;
  }

  /** A receiver finds the mailbox empty and gives up the lock; before it blocks, a sender puts a
    * message in, broadcasts and leaves. */
  function LostRun(m: Message): seq<Event> {
    [Enters(0, Recv, false), Moves(0), Moves(0), Moves(0),
     Enters(1, Send(m), false), Moves(1), Moves(1), Moves(1), Moves(1), Moves(0)]
  }

  /** A run whose states are known. */
  lemma {:induction false} Trace(states: seq<Machine>, run: seq<Event>)
    requires |states| == |run| + 1
    requires forall i :: 0 <= i < |run| ==> Allowed(states[i], run[i]) && Next(states[i], run[i]) == states[i + 1]
    ensures Possible(states[0], run) && Outcome(states[0], run) == states[|run|]
    decreases |run|
  {
    if run != [] {
      Trace(states[1..], run[1..]);
    }
  }

  function LostState(m: Message, i: nat): Machine
    requires i <= 10
  {
    var gap, queue := In(Recv, false, Gap), [m];
    if i == 0 then Machine([Free, Free], None, [], [], [], [])
    else if i == 1 then Machine([In(Recv, false, Ask), Free], None, [], [], [], [])
    else if i == 2 then Machine([In(Recv, false, Test), Free], Some(0), [], [], [], [])
    else if i == 3 then Machine([In(Recv, false, GiveUp), Free], Some(0), [], [], [], [])
    else if i == 4 then Machine([gap, Free], None, [], [], [], [])
    else if i == 5 then Machine([gap, In(Send(m), false, Ask)], None, [], [], [], [])
    else if i == 6 then Machine([gap, In(Send(m), false, Test)], Some(1), [], [], [], [])
    else if i == 7 then Machine([gap, In(Send(m), false, Wake)], Some(1), [], [], [], queue)
    else if i == 8 then Machine([gap, In(Send(m), false, Finish)], Some(1), [], [], [], queue)
    else if i == 9 then Machine([gap, Free], None, [], [], [], queue)
    else Machine([In(Recv, false, Asleep), Free], None, [], [], [0], queue)
  }

  /** Each state of that run follows from the one before. */
  lemma LostStep(m: Message, i: nat)
    requires HEADER + |m| <= BUFFER_SIZE && i < 10
    ensures Allowed(LostState(m, i), LostRun(m)[i])
    ensures Next(LostState(m, i), LostRun(m)[i]) == LostState(m, i + 1)
  {
    hide Used;
    assert Used([]) == 0;
  }

  /** At depth 0 the receiver then sleeps next to the message, and no thread can go on. */
  lemma GapLosesWakeup(m: Message)
    requires HEADER + |m| <= BUFFER_SIZE
    ensures var run := LostRun(m);
            && Possible(Start(2), run) && AllCalls(run, false)
            && var s := Outcome(Start(2), run);
               && s.data == [0] && s.messages == [m] && !NothingLost(s)
               && (forall t :: !CanMove(s, t))
  {
    var states := seq(11, i requires 0 <= i < 11 => LostState(m, i));
    forall i | 0 <= i < 10
      ensures Allowed(states[i], LostRun(m)[i]) && Next(states[i], LostRun(m)[i]) == states[i + 1]
    {
      LostStep(m, i);
    }
    Trace(states, LostRun(m));
    assert Start(2) == states[0];
    var s := states[10];
    assert s.threads[0].at.Asleep? && !HasCause(s, 0);
  }

  /** Wake-ups are never lost, on any run of any number of threads, if and only if the calls are
    * made within critical sections. */
  lemma DepthDecides(nested: bool)
    ensures nested <==>
            forall n: nat, run :: Possible(Start(n), run) && AllCalls(run, nested) ==> NothingLost(Outcome(Start(n), run))
  {
    if nested {
      forall n: nat, run | Possible(Start(n), run) && AllCalls(run, nested)
        ensures NothingLost(Outcome(Start(n), run))
      {
        DepthKept(Start(n), run, nested);
        StartSound(n);
        RunKeeps(Start(n), run);
        var s := Outcome(Start(n), run);
        forall t | 0 <= t < |s.threads| && s.threads[t].In? && s.threads[t].at.Asleep?
          ensures HasCause(s, t)
        {
          assert NestedFits(s, t);
        }
      }
    } else {
      GapLosesWakeup([]);
    }
  }
}
