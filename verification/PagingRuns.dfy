/** Whole runs of the paging machine: what user code observes, who owns a frame, and that
  * the handler is never stuck. */
module PagingRuns {
  import opened Paging
  import opened PagingProofs

  datatype Event =
    | Loads(pid: int, vpn: nat, j: nat, v: Word)
    | Stores(pid: int, vpn: nat, j: nat, v: Word)
    | SetsUp(pcb: Pcb)
    | Internal

  ghost predicate Init(s: State) {
    && Shape(s) && s.nalloc == 0 && s.procs == map[] && s.waiting == map[] && s.handler.Idle?
    && forall f :: 0 <= f < FRAMES ==> s.roles[f] == Unused
  }

  /** One step of the holder of memory_lock. */
  ghost predicate HandlerStep(s: State, t: State) {
    || (CanTakeFree(s) && t == TakeFree(s))
    || (exists i: nat :: CanEvict(s, i) && t == Evict(s, i))
    || (CanGiveUp(s) && t == GiveUp(s))
    || (CanWriteBack(s) && t == WriteBack(s))
    || (CanClaim(s) && t == Claim(s))
    || (CanReadIn(s) && t == ReadIn(s))
    || (CanMapIn(s) && t == MapIn(s))
  }

  ghost predicate SystemStep(s: State, t: State) {
    || HandlerStep(s, t)
    || (exists req :: CanEnter(s, req) && t == Enter(s, req))
    || (exists pid, vaddr :: CanFault(s, pid, vaddr) && t == PageFault(s, pid, vaddr))
    || (exists pid :: Running(s, pid) && t == Exit(s, pid))
    || (exists f: nat, i: nat, w :: CanWriteTable(s, f, i) && t == WriteTable(s, f, i, w))
  }

  ghost predicate Next(s: State, e: Event, t: State) {
    match e
    case Loads(pid, vpn, j, v) =>
      CanAccess(s, pid, vpn, j) && v == LoadedWord(s, pid, vpn, j) && t == LoadWord(s, pid, vpn, j)
    case Stores(pid, vpn, j, v) => CanAccess(s, pid, vpn, j) && t == StoreWord(s, pid, vpn, j, v)
    case SetsUp(pcb) => CanSetUp(s, pcb) && t == SetUp(s, pcb)
    case Internal => SystemStep(s, t)
  }

  ghost predicate Run(ss: seq<State>, evs: seq<Event>) {
    && |ss| == |evs| + 1 && Init(ss[0])
    && forall i :: 0 <= i < |evs| ==> Next(ss[i], evs[i], ss[i + 1])
  }

  lemma InitInv(s: State)
    requires Init(s)
    ensures Inv(s)
  {
  }

  // ---- One step --------------------------------------------------------------------------

  lemma HandlerStepKeeps(s: State, t: State)
    requires Inv(s) && HandlerStep(s, t)
    ensures Inv(t) && SameAbs(s, t) && t.procs == s.procs
  {
    hide Inv, Shape, User, SameAbs, CanTakeFree, CanEvict, CanGiveUp, CanWriteBack, CanClaim, CanReadIn, CanMapIn;
    if CanTakeFree(s) && t == TakeFree(s) { TakeFreeKeeps(s); }
    else if i: nat :| CanEvict(s, i) && t == Evict(s, i) { EvictKeeps(s, i); }
    else if CanGiveUp(s) && t == GiveUp(s) { GiveUpKeeps(s); }
    else if CanWriteBack(s) && t == WriteBack(s) { WriteBackKeeps(s); }
    else if CanClaim(s) && t == Claim(s) { ClaimKeeps(s); }
    else if CanReadIn(s) && t == ReadIn(s) { ReadInKeeps(s); }
    else { MapInKeeps(s); }
  }

  lemma SystemStepKeeps(s: State, t: State)
    requires Inv(s) && SystemStep(s, t)
    ensures Inv(t) && SameAbs(s, t) && t.procs == s.procs
  {
    hide Inv, Shape, User, SameAbs, CanEnter, CanFault, CanWriteTable, Running, HandlerStep;
    if HandlerStep(s, t) { HandlerStepKeeps(s, t); }
    else if req :| CanEnter(s, req) && t == Enter(s, req) { EnterKeeps(s, req); }
    else if pid, vaddr :| CanFault(s, pid, vaddr) && t == PageFault(s, pid, vaddr) { PageFaultKeeps(s, pid, vaddr); }
    else if pid :| Running(s, pid) && t == Exit(s, pid) { ExitKeeps(s, pid); }
    else {
      var f: nat, i: nat, w :| CanWriteTable(s, f, i) && t == WriteTable(s, f, i, w);
      WriteTableKeeps(s, f, i, w);
    }
  }

  predicate InExtent(pcb: Pcb, i: int) {
    pcb.swapLoc * 128 <= i < (pcb.swapLoc + pcb.swapSize) * 128
  }

  lemma DiskWordInExtent(pcb: Pcb, vpn: nat, j: nat)
    requires ImagePage(pcb, vpn) && j < Sectors(pcb, vpn) * 128
    ensures InExtent(pcb, DiskWord(pcb, vpn, j))
  {
  }

  /** The disk only changes inside the images of processes that exist. */
  ghost predicate DiskOutside(s: State, t: State) {
    && |t.disk| == |s.disk|
    && forall i :: 0 <= i < |s.disk| && (forall pid :: pid in s.procs ==> !InExtent(s.procs[pid], i)) ==>
         t.disk[i] == s.disk[i]
  }

  lemma WriteBackInside(s: State)
    requires Inv(s) && CanWriteBack(s)
    ensures DiskOutside(s, WriteBack(s))
  {
    var pcb, vpn := s.handler.victim, s.handler.vpn;
    assert Absent(s, pcb.pid, vpn);
    forall i | 0 <= i < |s.disk| && WriteBack(s).disk[i] != s.disk[i]
      ensures InExtent(s.procs[pcb.pid], i)
    {
      DiskWordInExtent(pcb, vpn, i - Location(pcb, vpn) * 128);
    }
  }

  /** Only a write-back changes the disk. */
  ghost predicate SameDisk(s: State, t: State) {
    t.top == s.top && (t.disk == s.disk || (CanWriteBack(s) && t == WriteBack(s)))
  }

  lemma HandlerDisk(s: State, t: State)
    requires HandlerStep(s, t)
    ensures SameDisk(s, t)
  {
    hide Shape, W, ImagePage, TableFrame, VictimEntry, Zeroed, ScsiRead, ScsiWrite, Entry, ExtentOnDisk;
    hide CanTakeFree, CanEvict, CanGiveUp, CanClaim, CanReadIn, CanMapIn, CanWriteBack;
  }

  lemma NextDiskOr(s: State, e: Event, t: State)
    requires Next(s, e, t)
    ensures SameDisk(s, t)
  {
    hide Shape, W, Translate, Touched, CanAccess, CanSetUp, Running, HandlerStep, CanEnter, CanFault, CanWriteTable;
    if HandlerStep(s, t) {
      HandlerDisk(s, t);
    }
  }

  lemma NextDisk(s: State, e: Event, t: State)
    requires Inv(s) && Next(s, e, t)
    ensures DiskOutside(s, t)
  {
    NextDiskOr(s, e, t);
    if t.disk != s.disk {
      WriteBackInside(s);
    }
    hide Inv, Next;
  }

  // ---- Paging refines flat memory --------------------------------------------------------

  /** The value last stored in word j of page vpn by process pid among the first n events,
    * or init when there is none. */
  function LastStored(evs: seq<Event>, n: nat, pid: int, vpn: nat, j: nat, init: Word): Word
    requires n <= |evs|
  {
    if n == 0 then init
    else if evs[n - 1].Stores? && evs[n - 1].pid == pid && evs[n - 1].vpn == vpn && evs[n - 1].j == j then evs[n - 1].v
    else LastStored(evs, n - 1, pid, vpn, j, init)
  }

  lemma {:induction false} NeverStored(evs: seq<Event>, n: nat, pid: int, vpn: nat, j: nat, init: Word)
    requires n <= |evs|
    requires forall k :: 0 <= k < n && evs[k].Stores? ==> evs[k].pid != pid
    ensures LastStored(evs, n, pid, vpn, j, init) == init
  {
    if n > 0 {
      NeverStored(evs, n - 1, pid, vpn, j, init);
    }
  }

  /** Word j of page vpn belongs to the image of a process: its first swapSize sectors. */
  ghost predicate ImageWord(s: State, pid: int, vpn: nat, j: nat) {
    pid in s.procs && ImagePage(s.procs[pid], vpn) && j < Sectors(s.procs[pid], vpn) * 128
  }

  ghost predicate Flat(s: State, evs: seq<Event>, n: nat, d0: seq<Word>, pid: int, vpn: nat, j: nat)
    requires n <= |evs| && ImageWord(s, pid, vpn, j)
  {
    var i := DiskWord(s.procs[pid], vpn, j);
    && Good(s, pid, vpn) && i < |d0| && Kept(s.procs, s.top, pid, vpn, j)
    && Abs(s, pid, vpn, j) == LastStored(evs, n, pid, vpn, j, d0[i])
  }

  ghost predicate RunInv(s: State, evs: seq<Event>, n: nat, d0: seq<Word>)
    requires n <= |evs|
  {
    && Inv(s) && |s.disk| == |d0|
    && (forall i :: 0 <= i < |d0| && (forall pid :: pid in s.procs ==> !InExtent(s.procs[pid], i)) ==>
          s.disk[i] == d0[i])
    && (forall k :: 0 <= k < n && evs[k].Stores? ==> evs[k].pid in s.procs)
    && forall pid, vpn: nat, j: nat :: ImageWord(s, pid, vpn, j) ==> Flat(s, evs, n, d0, pid, vpn, j)
  }

  lemma FlatWord(s: State, evs: seq<Event>, n: nat, d0: seq<Word>, t: State, pid: int, vpn: nat, j: nat)
    requires n < |evs| && RunInv(s, evs, n, d0) && Next(s, evs[n], t) && Inv(t)
    requires ImageWord(t, pid, vpn, j) && pid in s.procs && t.procs[pid] == s.procs[pid]
    ensures Flat(t, evs, n + 1, d0, pid, vpn, j)
  {
    hide Base, Present, Dirty, Sectors, Location, FrameOf, Addr, NPages, SystemStep;
    assert Flat(s, evs, n, d0, pid, vpn, j);
    GoodPage(t, pid, vpn);
    match evs[n]
    case Loads(p, u, k, _) => LoadKeeps(s, p, u, k);
    case Stores(p, u, k, v) => StoreKeeps(s, p, u, k, v);
    case SetsUp(pcb) => SetUpKeeps(s, pcb);
    case Internal => SystemStepKeeps(s, t);
  }

  lemma FlatSetUp(s: State, evs: seq<Event>, n: nat, d0: seq<Word>, pcb: Pcb, vpn: nat, j: nat)
    requires n < |evs| && RunInv(s, evs, n, d0) && evs[n] == SetsUp(pcb) && CanSetUp(s, pcb)
    requires ImageWord(SetUp(s, pcb), pcb.pid, vpn, j)
    ensures Flat(SetUp(s, pcb), evs, n + 1, d0, pcb.pid, vpn, j)
  {
    SetUpKeeps(s, pcb);
    NeverStored(evs, n + 1, pcb.pid, vpn, j, d0[DiskWord(pcb, vpn, j)]);
    DiskWordInExtent(pcb, vpn, j);
    assert Kept(SetUp(s, pcb).procs, s.top, pcb.pid, vpn, j);
  }

  lemma NextInv(s: State, e: Event, t: State)
    requires Inv(s) && Next(s, e, t)
    ensures Inv(t)
    ensures forall pid :: pid in s.procs ==> pid in t.procs && t.procs[pid] == s.procs[pid]
    ensures forall pid :: pid in t.procs && pid !in s.procs ==> e.SetsUp? && pid == e.pcb.pid
  {
    hide Inv, Shape, User, SystemStep;
    match e
    case Loads(p, u, k, _) => LoadKeeps(s, p, u, k);
    case Stores(p, u, k, v) => StoreKeeps(s, p, u, k, v);
    case SetsUp(pcb) => SetUpKeeps(s, pcb);
    case Internal => SystemStepKeeps(s, t);
  }

  lemma RunInvStep(s: State, evs: seq<Event>, n: nat, d0: seq<Word>, t: State)
    requires n < |evs| && RunInv(s, evs, n, d0) && Next(s, evs[n], t)
    ensures RunInv(t, evs, n + 1, d0)
  {
    hide Inv, Flat, Kept, Base, Present, Dirty, Sectors, Location, FrameOf, Addr, NPages, SystemStep;
    NextInv(s, evs[n], t);
    NextDisk(s, evs[n], t);
    forall pid, vpn: nat, j: nat | ImageWord(t, pid, vpn, j)
      ensures Flat(t, evs, n + 1, d0, pid, vpn, j)
    {
      if pid in s.procs {
        FlatWord(s, evs, n, d0, t, pid, vpn, j);
      } else {
        FlatSetUp(s, evs, n, d0, evs[n].pcb, vpn, j);
      }
    }
  }

  lemma InitRunInv(s: State, evs: seq<Event>)
    requires Init(s)
    ensures RunInv(s, evs, 0, s.disk)
  {
    InitInv(s);
  }

  lemma {:induction false} RunKeepsInv(ss: seq<State>, evs: seq<Event>, n: nat)
    requires Run(ss, evs) && n <= |evs|
    ensures RunInv(ss[n], evs, n, ss[0].disk)
  {
    hide Init, Next, RunInv;
    if n == 0 {
      InitRunInv(ss[0], evs);
    } else {
      RunKeepsInv(ss, evs, n - 1);
      assert Next(ss[n - 1], evs[n - 1], ss[n]);
      RunInvStep(ss[n - 1], evs, n - 1, ss[0].disk, ss[n]);
    }
  }

  /** The main result. Whatever frames, tables, evictions, write-backs and other processes
    * did in between, a load from the image of a process gives the value that the process
    * last stored there, and before any store the word of the image on the original disk. */
  lemma PagingRefinesFlatMemory(ss: seq<State>, evs: seq<Event>, n: nat)
    requires Run(ss, evs) && n < |evs| && evs[n].Loads?
    requires ImageWord(ss[n], evs[n].pid, evs[n].vpn, evs[n].j)
    ensures var i := DiskWord(ss[n].procs[evs[n].pid], evs[n].vpn, evs[n].j);
      && i < |ss[0].disk|
      && evs[n].v == LastStored(evs, n, evs[n].pid, evs[n].vpn, evs[n].j, ss[0].disk[i])
  {
    hide Base, Present, Dirty, Sectors, Location, FrameOf, Addr, NPages, SystemStep, Inv;
    RunKeepsInv(ss, evs, n);
    assert Next(ss[n], evs[n], ss[n + 1]);
    LoadKeeps(ss[n], evs[n].pid, evs[n].vpn, evs[n].j);
    assert Flat(ss[n], evs, n, ss[0].disk, evs[n].pid, evs[n].vpn, evs[n].j);
  }

  // ---- Frame ownership ---------------------------------------------------------------------

  /** The hardware translates page vpn of process pid to frame f. */
  ghost predicate MapsTo(s: State, pid: int, vpn: nat, f: nat) {
    && Shape(s) && User(s.procs, s.top, pid, vpn) && vpn < 0x10_0000
    && Translate(s.mem, s.procs[pid].pageDirectory, vpn).Mapped?
    && Translate(s.mem, s.procs[pid].pageDirectory, vpn).frame == f
  }

  lemma MapsToRole(s: State, pid: int, vpn: nat, f: nat)
    requires Inv(s) && User(s.procs, s.top, pid, vpn)
    ensures MapsTo(s, pid, vpn, f) ==> f < s.nalloc && s.roles[f] == Page(pid, vpn)
    ensures Good(s, pid, vpn) && (Resident(s, pid, vpn) && FrameFor(s, pid, vpn) == f ==> MapsTo(s, pid, vpn, f))
  {
    GoodPage(s, pid, vpn);
    WalkAgrees(s, pid, vpn);
    if MapsTo(s, pid, vpn, f) {
      assert FrameOk(s, f);
    }
  }

  /** Outside the frame the handler is working on, an unpinned frame is mapped by exactly one
    * user page: the one in its record. */
  lemma FrameOwnedOnce(s: State, f: nat)
    requires Inv(s) && f < s.nalloc && !s.blocks[f].pinned && !HandlerFrame(s.handler, f)
    ensures var p, v := s.blocks[f].pcb.pid, PageOf(s.blocks[f].vaddr);
      && MapsTo(s, p, v, f) && ImagePage(s.procs[p], v)
      && forall q, u: nat :: User(s.procs, s.top, q, u) && MapsTo(s, q, u, f) ==> (q, u) == (p, v)
  {
    assert FrameOk(s, f);
    var p, v := s.blocks[f].pcb.pid, PageOf(s.blocks[f].vaddr);
    MapsToRole(s, p, v, f);
    forall q, u: nat | User(s.procs, s.top, q, u) && MapsTo(s, q, u, f)
      ensures (q, u) == (p, v)
    {
      MapsToRole(s, q, u, f);
    }
  }

  /** No two user pages share a frame, and user memory overlaps no directory or table. */
  lemma NoSharing(s: State, p: int, v: nat, f: nat, q: int, u: nat)
    requires Inv(s) && MapsTo(s, p, v, f) && User(s.procs, s.top, q, u)
    ensures MapsTo(s, q, u, f) ==> (q, u) == (p, v)
    ensures Good(s, q, u)
    ensures forall j: nat :: j < 1024 ==> W(f, j) != PdeAt(s, q, u) && W(f, j) != PteAt(s, q, u)
    ensures f < s.nalloc && !HandlerFrame(s.handler, f)
  {
    MapsToRole(s, p, v, f);
    MapsToRole(s, q, u, f);
    forall j: nat | j < 1024
      ensures W(f, j) != PdeAt(s, q, u) && W(f, j) != PteAt(s, q, u)
    {
      DataApart(s, f, j, q, u);
    }
  }

  ghost predicate PinnedFrame(s: State, f: nat) {
    && |s.blocks| == FRAMES && f < s.nalloc <= FRAMES
    && s.blocks[f].pinned && !HandlerFrame(s.handler, f)
  }

  lemma HandlerPins(s: State, t: State, f: nat)
    requires HandlerStep(s, t) && PinnedFrame(s, f)
    ensures PinnedFrame(t, f) && t.blocks[f] == s.blocks[f]
  {
    hide Shape, ImagePage, ExtentOnDisk, TableFrame, Sectors, Location;
    if CanTakeFree(s) && t == TakeFree(s) {
    } else if i: nat :| CanEvict(s, i) && t == Evict(s, i) {
    } else if CanGiveUp(s) && t == GiveUp(s) {
    } else {
      LatePins(s, t, f);
    }
  }

  lemma LatePins(s: State, t: State, f: nat)
    requires PinnedFrame(s, f)
    requires
      || (CanWriteBack(s) && t == WriteBack(s))
      || (CanClaim(s) && t == Claim(s))
      || (CanReadIn(s) && t == ReadIn(s))
      || (CanMapIn(s) && t == MapIn(s))
    ensures PinnedFrame(t, f) && t.blocks[f] == s.blocks[f]
  {
    hide Shape, ImagePage, ExtentOnDisk, TableFrame, Sectors, Location;
  }

  lemma PinnedStays(s: State, e: Event, t: State, f: nat)
    requires Next(s, e, t) && PinnedFrame(s, f)
    ensures PinnedFrame(t, f) && t.blocks[f] == s.blocks[f]
  {
    hide PinnedFrame, User, CanAccess, CanFault, CanWriteTable, CanEnter, CanSetUp, HandlerStep, HandlerFrame;
    if e.Internal? && HandlerStep(s, t) {
      HandlerPins(s, t, f);
    } else {
      OthersPin(s, e, t, f);
    }
  }

  lemma OthersPin(s: State, e: Event, t: State, f: nat)
    requires Next(s, e, t) && PinnedFrame(s, f) && (e.Internal? ==> !HandlerStep(s, t))
    ensures PinnedFrame(t, f) && t.blocks[f] == s.blocks[f]
  {
    hide Shape, User, CanAccess, CanFault, CanWriteTable, CanSetUp, HandlerStep, RequestOk;
    if e.Internal? {
      if req :| CanEnter(s, req) && t == Enter(s, req) {
      } else if pid, vaddr :| CanFault(s, pid, vaddr) && t == PageFault(s, pid, vaddr) {
      } else if pid :| Running(s, pid) && t == Exit(s, pid) {
      } else {
        var g: nat, i: nat, w :| CanWriteTable(s, g, i) && t == WriteTable(s, g, i, w);
      }
    }
  }

  /** In a run, a pinned frame is never evicted and never handed out again. */
  lemma {:induction false} PinnedForever(ss: seq<State>, evs: seq<Event>, m: nat, n: nat, f: nat)
    requires Run(ss, evs) && m <= n <= |evs| && PinnedFrame(ss[m], f)
    ensures PinnedFrame(ss[n], f) && ss[n].blocks[f] == ss[m].blocks[f]
  {
    if m < n {
      PinnedForever(ss, evs, m, n - 1, f);
      assert Next(ss[n - 1], evs[n - 1], ss[n]);
      PinnedStays(ss[n - 1], evs[n - 1], ss[n], f);
    }
  }

  // ---- The handler always finishes ------------------------------------------------------------

  function Rank(h: Handler): nat {
    match h
    case Idle => 0
    case Loaded(_, _) => 1
    case Claimed(_, _) => 2
    case Empty(_, _) => 3
    case WritingBack(_, _, _, _) => 4
    case Held(_) => 5
  }

  lemma HandlerRank(s: State, t: State)
    requires HandlerStep(s, t)
    ensures Rank(t.handler) < Rank(s.handler)
  {
    hide Shape, ImagePage, ExtentOnDisk, TableFrame, Sectors, Location;
    if CanTakeFree(s) && t == TakeFree(s) {
    } else if i: nat :| CanEvict(s, i) && t == Evict(s, i) {
    } else if CanGiveUp(s) && t == GiveUp(s) {
    } else if CanWriteBack(s) && t == WriteBack(s) {
    } else if CanClaim(s) && t == Claim(s) {
    } else {
    }
  }

  /** While memory_lock is held there is a next step, whichever victim was picked before, and
    * every step brings the release of the lock nearer. */
  lemma HandlerProgress(s: State) returns (t: State)
    requires Inv(s) && !s.handler.Idle?
    ensures HandlerStep(s, t)
    ensures forall u :: HandlerStep(s, u) ==> Rank(u.handler) < Rank(s.handler)
  {
    t := HandlerNext(s);
    forall u | HandlerStep(s, u)
      ensures Rank(u.handler) < Rank(s.handler)
    {
      HandlerRank(s, u);
    }
  }

  lemma HandlerNext(s: State) returns (t: State)
    requires Inv(s) && !s.handler.Idle?
    ensures HandlerStep(s, t)
  {
    match s.handler
    case Held(_) =>
      if s.nalloc < FRAMES {
        t := TakeFree(s);
      } else if i :| 0 <= i < FRAMES && !s.blocks[i].pinned {
        EvictEnabled(s, i);
        t := Evict(s, i);
      } else {
        t := GiveUp(s);
      }
    case WritingBack(_, _, pcb, vpn) =>
      assert Absent(s, pcb.pid, vpn);
      t := WriteBack(s);
    case Empty(_, _) =>
      t := Claim(s);
    case Claimed(req, _) =>
      assert Absent(s, req.pid, PageOf(req.vaddr));
      t := ReadIn(s);
    case Loaded(req, _) =>
      assert Absent(s, req.pid, PageOf(req.vaddr));
      GoodPage(s, req.pid, PageOf(req.vaddr));
      WalkAgrees(s, req.pid, PageOf(req.vaddr));
      t := MapIn(s);
  }

  /** When the handler releases the lock for a fault, the faulting page is mapped and clean. */
  lemma FaultServed(s: State)
    requires Inv(s) && CanMapIn(s)
    ensures var p, v := s.handler.req.pid, PageOf(s.handler.req.vaddr);
      && MapsTo(MapIn(s), p, v, s.handler.frame)
      && Good(s, p, v) && !Dirty(MapIn(s).mem[PteAt(s, p, v)])
  {
    var p, v := s.handler.req.pid, PageOf(s.handler.req.vaddr);
    MapInEntry(s);
    MapInKeeps(s);
    MapInPage(s, p, v);
    MapsToRole(MapIn(s), p, v, s.handler.frame);
  }
}
