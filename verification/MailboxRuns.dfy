/** The mailbox monitor with the ring that it protects: the tests of mailbox/mbox.c are made on head,
  * tail and count, and messages are bytes written at head and read at tail. In every interleaving
  * this is the monitor on the queue of messages.
  */
module MailboxRuns {
  import opened Mailbox
  import opened Monitor
  import opened MonitorRuns

  /** In s, received holds the bodies as they were read from the ring. What s says about the
    * queued messages is there for the proof only. */
  datatype RingSystem = RingSystem(s: System, ring: seq<Byte>, head: nat, tail: nat, count: int)

  /** The ring after bytes were written from start on. */
  function Written(ring: seq<Byte>, start: nat, bytes: seq<Byte>): (now: seq<Byte>)
    requires |ring| == BUFFER_SIZE && start < BUFFER_SIZE
    ensures |now| == BUFFER_SIZE
  {
    seq(BUFFER_SIZE, i requires 0 <= i < BUFFER_SIZE =>
      var offset := Wrap(i, BUFFER_SIZE - start);
      if offset < |bytes| then bytes[offset] else ring[i])
  }

  /** The message at start: its header is read first, for the size. */
  function ReadAt(ring: seq<Byte>, start: nat): (body: seq<Byte>)
    requires |ring| == BUFFER_SIZE
  {
    Slice(ring, start, HEADER + SizeIn(Slice(ring, start, HEADER)))[HEADER..]
  }

  /** The tests of the while loops. */
  predicate RingWaits(r: RingSystem, j: Job) {
    match j
    case Send(m) => HEADER + |m| > SpaceIn(r.head, r.tail, r.count)
    case Recv => r.count <= 0
  }

  function RingTransfer(r: RingSystem, j: Job): RingSystem
    requires |r.ring| == BUFFER_SIZE && r.head < BUFFER_SIZE
  {
    match j
    case Send(m) =>
      RingSystem(r.s.(messages := r.s.messages + [m], sent := r.s.sent + [m]),
                 Written(r.ring, r.head, Encode(m)), Wrap(r.head, HEADER + |m|), r.tail, r.count + 1)
    case Recv =>
      var body := ReadAt(r.ring, r.tail);
      var left := if r.s.messages == [] then [] else r.s.messages[1..];
      RingSystem(r.s.(messages := left, received := r.s.received + [body]),
                 r.ring, r.head, Wrap(r.tail, HEADER + |body|), r.count - 1)
  }

  function RingStep(r: RingSystem, t: nat): RingSystem
    requires CanStep(r.s, t) && |r.ring| == BUFFER_SIZE && r.head < BUFFER_SIZE
  {
    if !r.s.pc[t].at.Check? then r.(s := Step(r.s, t))
    else if RingWaits(r, r.s.pc[t].job) then r.(s := Go(r.s, t, WaitSpin))
    else
      var next := RingTransfer(r, r.s.pc[t].job);
      next.(s := Go(next.s, t, BcastSpin))
  }

  function RingNext(r: RingSystem, e: Event): RingSystem
    requires Enabled(r.s, e) && |r.ring| == BUFFER_SIZE && r.head < BUFFER_SIZE
  {
    match e
    case Runs(t) => RingStep(r, t)
    case Calls(t, j) => r.(s := Call(r.s, t, j))
  }

  function RingStart(threads: nat): RingSystem {
    RingSystem(Start(threads), seq(BUFFER_SIZE, _ => 0), 0, 0, 0)
  }

  predicate RingPossible(r: RingSystem, run: seq<Event>)
    decreases |run|
  {
    run == [] || (Enabled(r.s, run[0]) && |r.ring| == BUFFER_SIZE && r.head < BUFFER_SIZE
                  && RingPossible(RingNext(r, run[0]), run[1..]))
  }

  function RingOutcome(r: RingSystem, run: seq<Event>): RingSystem
    requires RingPossible(r, run)
    decreases |run|
  {
    if run == [] then r else RingOutcome(RingNext(r, run[0]), run[1..])
  }

  ghost predicate RingInv(r: RingSystem) {
    Inv(r.s) && Holds(r.ring, r.head, r.tail, r.count, r.s.messages)
  }

  // ---------- The ring does what the queue does ----------

  /** The tests on the indices are the tests on the queue. */
  lemma RingWaitsIff(r: RingSystem, j: Job)
    requires Holds(r.ring, r.head, r.tail, r.count, r.s.messages)
    ensures RingWaits(r, j) <==> MustWait(r.s.messages, j)
  {
    SpaceIsFree(r.ring, r.head, r.tail, r.count, r.s.messages);
  }

  lemma WrittenSlice(ring: seq<Byte>, start: nat, bytes: seq<Byte>)
    requires |ring| == BUFFER_SIZE && start < BUFFER_SIZE && |bytes| <= BUFFER_SIZE
    ensures Slice(Written(ring, start, bytes), start, |bytes|) == bytes
    ensures SameOutside(ring, Written(ring, start, bytes), start, |bytes|)
  {
    forall k: nat | k < BUFFER_SIZE
      ensures Wrap(Wrap(start, k), BUFFER_SIZE - start) == k
    {
      WrapShift(start, k, BUFFER_SIZE - start);
      WrapAround(0, k);
    }
  }

  /** A message that is read back is the oldest one of the queue, byte for byte. */
  lemma ReadIsOldest(r: RingSystem)
    requires Holds(r.ring, r.head, r.tail, r.count, r.s.messages) && r.s.messages != []
    ensures ReadAt(r.ring, r.tail) == r.s.messages[0]
  {
    Pops(r.ring, r.head, r.tail, r.count, r.s.messages);
  }

  lemma TransferAgrees(r: RingSystem, j: Job)
    requires Holds(r.ring, r.head, r.tail, r.count, r.s.messages) && !MustWait(r.s.messages, j)
    ensures var n := RingTransfer(r, j);
            n.s == Transfer(r.s, j) && Holds(n.ring, n.head, n.tail, n.count, n.s.messages)
  {
    match j
    case Send(m) =>
      WrittenSlice(r.ring, r.head, Encode(m));
      Pushes(r.ring, Written(r.ring, r.head, Encode(m)), r.head, r.tail, r.count, r.s.messages, m);
    case Recv =>
      ReadIsOldest(r);
      Pops(r.ring, r.head, r.tail, r.count, r.s.messages);
  }

  lemma RingStepAgrees(r: RingSystem, t: nat)
    requires RingInv(r) && CanStep(r.s, t)
    ensures RingStep(r, t).s == Step(r.s, t) && RingInv(RingStep(r, t))
  {
    StepKeeps(r.s, t);
    hide Inv, Holds;
    RingBounds(r);
    if r.s.pc[t].at.Check? {
      RingWaitsIff(r, r.s.pc[t].job);
      if !MustWait(r.s.messages, r.s.pc[t].job) {
        TransferAgrees(r, r.s.pc[t].job);
      }
    } else {
      OnlyCheckMoves(r.s, t);
    }
  }

  lemma RingBounds(r: RingSystem)
    requires RingInv(r)
    ensures |r.ring| == BUFFER_SIZE && r.head < BUFFER_SIZE
  {
  }

  lemma {:induction false} RunAgrees(r: RingSystem, run: seq<Event>)
    requires RingInv(r) && Possible(r.s, run)
    ensures RingPossible(r, run) && RingInv(RingOutcome(r, run)) && RingOutcome(r, run).s == Outcome(r.s, run)
    decreases |run|
  {
    hide Inv, Holds, RingStep, Step, RingInv;
    RingBounds(r);
    if run != [] {
      match run[0]
      case Runs(t) =>
        RingStepAgrees(r, t);
        RunAgrees(RingStep(r, t), run[1..]);
      case Calls(t, j) =>
        RingCall(r, t, j);
        RunAgrees(r.(s := Call(r.s, t, j)), run[1..]);
    }
  }

  lemma RingCall(r: RingSystem, t: nat, j: Job)
    requires RingInv(r) && t < |r.s.pc| && r.s.pc[t].Idle?
    ensures RingInv(r.(s := Call(r.s, t, j)))
  {
    CallKeeps(r.s, t, j);
    hide Inv, Holds;
  }

  /** In every interleaving of every calls, the bodies read from the ring are the bodies sent, byte
    * for byte and in order, as far as they were received, and the ring holds the rest. */
  lemma ByteForByte(threads: nat, run: seq<Event>)
    requires Possible(Start(threads), run)
    ensures RingPossible(RingStart(threads), run)
    ensures var r := RingOutcome(RingStart(threads), run);
            && r.s == Outcome(Start(threads), run)
            && r.s.received <= r.s.sent
            && Holds(r.ring, r.head, r.tail, r.count, r.s.sent[|r.s.received|..])
  {
    StartInv(threads);
    RunAgrees(RingStart(threads), run);
    var r := RingOutcome(RingStart(threads), run);
    assert r.s.sent == r.s.received + r.s.messages;
    assert r.s.sent[|r.s.received|..] == r.s.messages;
    hide Inv, Holds;
  }
}
