/** The stack pages of the paging machine, in whole runs. A process finds its stack filled with
  * zeros: frames are zeroed when they are handed out, and nobody writes to the stack frames of
  * a process that is still being set up. From then on a stack word is what was last stored.
  */
module PagingStack {
  import opened Paging
  import opened PagingProofs
  import opened PagingRuns

  /** A frame for a page of a process that does not run yet. */
  ghost predicate Pending(s: State, f: nat) {
    |s.roles| == FRAMES && f < FRAMES && s.roles[f].Page? && s.roles[f].pid !in s.procs
  }

  ghost predicate ZeroFrame(s: State, f: nat)
    requires Shape(s) && f < FRAMES
  {
    forall j :: 0 <= j < 1024 ==> 0 <= W(f, j) < MEM_WORDS && s.mem[W(f, j)] == 0
  }

  ghost predicate PendingZero(s: State) {
    Shape(s) && forall f :: 0 <= f < FRAMES && Pending(s, f) ==> ZeroFrame(s, f)
  }

  /** Frame f is as it was. */
  ghost predicate SameFrame(s: State, t: State, f: nat) {
    && Shape(s) && Shape(t) && f < FRAMES
    && forall j :: 0 <= j < 1024 ==> 0 <= W(f, j) < MEM_WORDS && t.mem[W(f, j)] == s.mem[W(f, j)]
  }

  lemma LoadLeaves(s: State, pid: int, vpn: nat, j: nat, f: nat)
    requires Inv(s) && CanAccess(s, pid, vpn, j) && Pending(s, f)
    ensures SameFrame(s, LoadWord(s, pid, vpn, j), f)
  {
    hide Base, Present, Dirty, Sectors, Location, FrameOf, Addr, NPages;
    GoodPage(s, pid, vpn);
    WalkAgrees(s, pid, vpn);
    forall i: nat | i < 1024
      ensures 0 <= W(f, i) < MEM_WORDS && LoadWord(s, pid, vpn, j).mem[W(f, i)] == s.mem[W(f, i)]
    {
      DataApart(s, f, i, pid, vpn);
    }
  }

  lemma StoreLeaves(s: State, pid: int, vpn: nat, j: nat, x: Word, f: nat)
    requires Inv(s) && CanAccess(s, pid, vpn, j) && Pending(s, f)
    ensures SameFrame(s, StoreWord(s, pid, vpn, j, x), f)
  {
    hide Base, Present, Dirty, Sectors, Location, FrameOf, Addr, NPages, W;
    GoodPage(s, pid, vpn);
    WalkAgrees(s, pid, vpn);
    StoreIsAccess(s, pid, vpn, j, x);
    forall i: nat | i < 1024
      ensures 0 <= W(f, i) < MEM_WORDS
    {
      InPool(f, i);
    }
  }

  /** Clearing or setting the table entry of a user page. */
  lemma EntryLeaves(s: State, t: State, p: int, v: nat, f: nat)
    requires OneEntry(s, t, p, v) && Pending(s, f)
    ensures SameFrame(s, t, f)
  {
    hide Base, Present, Dirty, Sectors, Location, FrameOf, Addr, NPages;
    GoodPage(s, p, v);
    forall i: nat | i < 1024
      ensures 0 <= W(f, i) < MEM_WORDS && t.mem[W(f, i)] == s.mem[W(f, i)]
    {
      DataApart(s, f, i, p, v);
    }
  }

  lemma EvictLeaves(s: State, i: nat, f: nat)
    requires Inv(s) && CanEvict(s, i) && Pending(s, f)
    ensures SameFrame(s, Evict(s, i), f)
  {
    hide Base, Present, Dirty, Sectors, Location, FrameOf, Addr, NPages;
    VictimIsPage(s, i);
    EntryLeaves(s, Evict(s, i), s.roles[i].pid, s.roles[i].vpn, f);
  }

  /** The frame that the handler works on is not pending. */
  lemma FillLeaves(s: State, t: State, f: nat)
    requires Inv(s) && Pending(s, f) && ((CanClaim(s) && t == Claim(s)) || (CanReadIn(s) && t == ReadIn(s)))
    ensures SameFrame(s, t, f)
  {
    WordsInPool(s, f);
    hide W, Base, Present, Dirty, Sectors, Location, FrameOf, Addr, NPages, ImagePage, ExtentOnDisk, TablesOk, PagesOk, FramesOk;
    assert f != s.handler.frame;
  }

  lemma HandlerLeaves(s: State, t: State, f: nat)
    requires Inv(s) && HandlerStep(s, t) && Pending(s, f)
    ensures SameFrame(s, t, f)
  {
    WordsInPool(s, f);
    hide W, Inv, CanClaim, CanReadIn, CanTakeFree, CanEvict, CanGiveUp, CanWriteBack, CanMapIn;
    if i: nat :| CanEvict(s, i) && t == Evict(s, i) {
      EvictLeaves(s, i, f);
    } else if CanMapIn(s) && t == MapIn(s) {
      MapInEntry(s);
      EntryLeaves(s, t, s.handler.req.pid, PageOf(s.handler.req.vaddr), f);
    } else if (CanClaim(s) && t == Claim(s)) || (CanReadIn(s) && t == ReadIn(s)) {
      FillLeaves(s, t, f);
    }
  }

  lemma TableLeaves(s: State, g: nat, i: nat, w: Word, f: nat)
    requires Inv(s) && CanWriteTable(s, g, i) && Pending(s, f)
    ensures SameFrame(s, WriteTable(s, g, i, w), f)
  {
    WriteTableOthers(s, g, i, w);
  }

  lemma SystemLeaves(s: State, t: State, f: nat)
    requires Inv(s) && SystemStep(s, t) && Pending(s, f)
    ensures SameFrame(s, t, f)
  {
    WordsInPool(s, f);
    hide Inv, W, HandlerStep, CanWriteTable, CanEnter, CanFault, Running;
    if HandlerStep(s, t) {
      HandlerLeaves(s, t, f);
    } else if g: nat, i: nat, w :| CanWriteTable(s, g, i) && t == WriteTable(s, g, i, w) {
      TableLeaves(s, g, i, w, f);
    }
  }

  /** No step touches a frame that is pending. */
  lemma NextLeaves(s: State, e: Event, t: State, f: nat)
    requires Inv(s) && Next(s, e, t) && Pending(s, f)
    ensures SameFrame(s, t, f)
  {
    WordsInPool(s, f);
    hide Inv, W, SystemStep, CanAccess, CanSetUp, SameFrame, LoadWord, StoreWord;
    match e
    case Loads(pid, vpn, j, _) => LoadLeaves(s, pid, vpn, j, f);
    case Stores(pid, vpn, j, v) => StoreLeaves(s, pid, vpn, j, v, f);
    case SetsUp(pcb) => SetUpLeaves(s, pcb, f);
    case Internal => SystemLeaves(s, t, f);
  }

  lemma SetUpLeaves(s: State, pcb: Pcb, f: nat)
    requires Inv(s) && f < FRAMES
    ensures SameFrame(s, SetUp(s, pcb), f)
  {
    WordsInPool(s, f);
  }

  lemma WordsInPool(s: State, f: nat)
    requires Inv(s) && f < FRAMES
    ensures Shape(s) && forall j :: 0 <= j < 1024 ==> 0 <= W(f, j) < MEM_WORDS
  {
    forall j: nat | j < 1024
      ensures 0 <= W(f, j) < MEM_WORDS
    {
      InPool(f, j);
    }
  }

  /** A frame becomes pending in the step that fills it with zeros. */
  lemma HandlerPending(s: State, t: State, f: nat)
    requires HandlerStep(s, t) && !Pending(s, f) && Pending(t, f)
    ensures CanClaim(s) && t == Claim(s) && f == s.handler.frame
  {
    hide W, ImagePage, TableFrame, VictimEntry, Zeroed, ScsiRead, ScsiWrite, Entry, ExtentOnDisk, PageOf;
    hide CanGiveUp, CanReadIn, CanWriteBack;
  }

  lemma BecomesPending(s: State, e: Event, t: State, f: nat)
    requires Inv(s) && Inv(t) && Next(s, e, t) && !Pending(s, f) && Pending(t, f)
    ensures ZeroFrame(t, f)
  {
    WordsInPool(t, f);
    hide W, Inv, HandlerStep, CanSetUp, CanAccess, CanWriteTable, Translate, Touched;
    assert HandlerStep(s, t);
    HandlerPending(s, t, f);
  }

  lemma NextPendingZero(s: State, e: Event, t: State)
    requires Inv(s) && Inv(t) && PendingZero(s) && Next(s, e, t)
    ensures PendingZero(t)
  {
    hide Inv, Next, Pending;
    WordsInPool(t, 0);
    forall f: nat | f < FRAMES && Pending(t, f)
      ensures ZeroFrame(t, f)
    {
      if Pending(s, f) {
        NextLeaves(s, e, t, f);
      } else {
        BecomesPending(s, e, t, f);
      }
    }
  }

  // ---- What a process finds in its stack ---------------------------------------------------

  /** A word of the stack of a process. */
  ghost predicate StackWord(s: State, pid: int, vpn: nat, j: nat) {
    pid in s.procs && StackPage(s.top, vpn) && j < 1024
  }

  /** It is what was last stored, or zero. */
  ghost predicate StackFlat(s: State, evs: seq<Event>, n: nat, pid: int, vpn: nat, j: nat)
    requires n <= |evs|
  {
    && Good(s, pid, vpn) && Kept(s.procs, s.top, pid, vpn, j)
    && Abs(s, pid, vpn, j) == LastStored(evs, n, pid, vpn, j, 0)
  }

  ghost predicate StackInv(s: State, evs: seq<Event>, n: nat, d0: seq<Word>)
    requires n <= |evs|
  {
    && RunInv(s, evs, n, d0) && PendingZero(s)
    && forall pid, vpn: nat, j: nat :: StackWord(s, pid, vpn, j) ==> StackFlat(s, evs, n, pid, vpn, j)
  }

  lemma StackKept(s: State, pid: int, vpn: nat, j: nat)
    requires Inv(s) && StackWord(s, pid, vpn, j)
    ensures Good(s, pid, vpn) && Kept(s.procs, s.top, pid, vpn, j)
  {
    hide W, Base, Present, Dirty, Sectors, Location, FrameOf, Addr;
    GoodPage(s, pid, vpn);
  }

  lemma StackFlatStep(s: State, evs: seq<Event>, n: nat, d0: seq<Word>, t: State, pid: int, vpn: nat, j: nat)
    requires n < |evs| && StackInv(s, evs, n, d0) && Next(s, evs[n], t) && Inv(t)
    requires StackWord(t, pid, vpn, j) && pid in s.procs && t.procs[pid] == s.procs[pid] && t.top == s.top
    ensures StackFlat(t, evs, n + 1, pid, vpn, j)
  {
    hide Base, Present, Dirty, Sectors, Location, FrameOf, Addr, NPages, SystemStep;
    assert StackFlat(s, evs, n, pid, vpn, j);
    StackKept(t, pid, vpn, j);
    match evs[n]
    case Loads(p, u, k, _) => LoadKeeps(s, p, u, k);
    case Stores(p, u, k, v) => StoreKeeps(s, p, u, k, v);
    case SetsUp(pcb) => SetUpKeeps(s, pcb);
    case Internal => SystemStepKeeps(s, t);
  }

  /** A new process has a stack of zeros. */
  lemma StackFlatSetUp(s: State, evs: seq<Event>, n: nat, d0: seq<Word>, pcb: Pcb, vpn: nat, j: nat)
    requires n < |evs| && StackInv(s, evs, n, d0) && evs[n] == SetsUp(pcb) && CanSetUp(s, pcb)
    requires StackWord(SetUp(s, pcb), pcb.pid, vpn, j)
    ensures StackFlat(SetUp(s, pcb), evs, n + 1, pcb.pid, vpn, j)
  {
    hide Base, Present, Dirty, Sectors, Location, FrameOf, Addr, NPages, SpaceReady;
    var t := SetUp(s, pcb);
    SetUpKeeps(s, pcb);
    StackKept(t, pcb.pid, vpn, j);
    NeverStored(evs, n + 1, pcb.pid, vpn, j, 0);
    var f := FrameFor(t, pcb.pid, vpn);
    assert Pending(s, f);
    assert s.mem[W(f, j)] == 0;
  }

  lemma StackInvStep(s: State, evs: seq<Event>, n: nat, d0: seq<Word>, t: State)
    requires n < |evs| && StackInv(s, evs, n, d0) && Next(s, evs[n], t)
    ensures StackInv(t, evs, n + 1, d0)
  {
    RunInvStep(s, evs, n, d0, t);
    NextInv(s, evs[n], t);
    NextPendingZero(s, evs[n], t);
    NextDiskOr(s, evs[n], t);
    hide Inv, Next, RunInv, PendingZero;
    forall pid, vpn: nat, j: nat | StackWord(t, pid, vpn, j)
      ensures StackFlat(t, evs, n + 1, pid, vpn, j)
    {
      if pid in s.procs {
        StackFlatStep(s, evs, n, d0, t, pid, vpn, j);
      } else {
        SetsUpOnly(s, evs[n], t);
        StackFlatSetUp(s, evs, n, d0, evs[n].pcb, vpn, j);
      }
    }
  }

  lemma SetsUpOnly(s: State, e: Event, t: State)
    requires Next(s, e, t) && e.SetsUp?
    ensures CanSetUp(s, e.pcb) && t == SetUp(s, e.pcb)
  {
  }

  lemma {:induction false} RunKeepsStack(ss: seq<State>, evs: seq<Event>, n: nat)
    requires Run(ss, evs) && n <= |evs|
    ensures StackInv(ss[n], evs, n, ss[0].disk)
  {
    hide Init, Next, StackInv, RunInv;
    if n == 0 {
      InitStack(ss[0], evs);
    } else {
      RunKeepsStack(ss, evs, n - 1);
      assert Next(ss[n - 1], evs[n - 1], ss[n]);
      StackInvStep(ss[n - 1], evs, n - 1, ss[0].disk, ss[n]);
    }
  }

  lemma InitStack(s: State, evs: seq<Event>)
    requires Init(s)
    ensures StackInv(s, evs, 0, s.disk)
  {
    InitRunInv(s, evs);
  }

  /** A load from the stack of a process gives the value that the process last stored there, and
    * before any store zero, whatever happened to the frame before and in between. */
  lemma StackRefinesFlatMemory(ss: seq<State>, evs: seq<Event>, n: nat)
    requires Run(ss, evs) && n < |evs| && evs[n].Loads?
    requires StackWord(ss[n], evs[n].pid, evs[n].vpn, evs[n].j)
    ensures evs[n].v == LastStored(evs, n, evs[n].pid, evs[n].vpn, evs[n].j, 0)
  {
    hide Base, Present, Dirty, Sectors, Location, FrameOf, Addr, NPages, SystemStep, Inv;
    RunKeepsStack(ss, evs, n);
    assert Next(ss[n], evs[n], ss[n + 1]);
    LoadKeeps(ss[n], evs[n].pid, evs[n].vpn, evs[n].j);
    assert StackFlat(ss[n], evs, n, evs[n].pid, evs[n].vpn, evs[n].j);
  }
}
