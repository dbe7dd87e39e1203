/** Every step of the paging machine keeps the invariant, and every step but a user store
  * leaves the abstract memory of every process as it is. For each step that touches
  * memory or disk one lemma looks at a single page and one collects the pages. */
module PagingProofs {
  import opened Paging

  // ---- The abstract memory --------------------------------------------------------------

  /** Word j of page vpn is memory that must be kept: the stack, or the first swapSize
    * sectors of the image. */
  ghost predicate Kept(procs: map<int, Pcb>, top: nat, pid: int, vpn: nat, j: nat) {
    && User(procs, top, pid, vpn) && j < 1024
    && (ImagePage(procs[pid], vpn) ==> j < Sectors(procs[pid], vpn) * 128)
  }

  ghost predicate UnderWriteBack(s: State, pid: int, vpn: nat) {
    s.handler.WritingBack? && s.handler.victim.pid == pid && s.handler.vpn == vpn
  }

  /** What the invariant says about one page. */
  ghost predicate Good(s: State, pid: int, vpn: nat) {
    && Shape(s) && User(s.procs, s.top, pid, vpn) && Reaches(s, pid, vpn)
    && ExtentOnDisk(s.procs[pid], s.disk) && PageOk(s, pid, vpn)
    && (s.handler.WritingBack? ==> s.handler.frame < FRAMES)
  }

  /** Word j of page vpn as process pid sees it, wherever the page is. */
  ghost function Abs(s: State, pid: int, vpn: nat, j: nat): Word
    requires Good(s, pid, vpn) && Kept(s.procs, s.top, pid, vpn, j)
  {
    if Resident(s, pid, vpn) then s.mem[W(FrameFor(s, pid, vpn), j)]
    else if UnderWriteBack(s, pid, vpn) then s.mem[W(s.handler.frame, j)]
    else s.disk[DiskWord(s.procs[pid], vpn, j)]
  }

  ghost predicate SamePageAbs(s: State, t: State, pid: int, vpn: nat) {
    && Good(s, pid, vpn) && Good(t, pid, vpn)
    && forall j: nat :: Kept(s.procs, s.top, pid, vpn, j) ==>
         Kept(t.procs, t.top, pid, vpn, j) && Abs(t, pid, vpn, j) == Abs(s, pid, vpn, j)
  }

  /** Every process that exists in s has the same memory in t. */
  ghost predicate SameAbs(s: State, t: State) {
    && t.top == s.top
    && (forall pid :: pid in s.procs ==> pid in t.procs && t.procs[pid] == s.procs[pid])
    && forall pid, vpn :: User(s.procs, s.top, pid, vpn) ==> SamePageAbs(s, t, pid, vpn)
  }

  ghost predicate SameMapping(s: State, t: State, pid: int, vpn: nat) {
    && Good(s, pid, vpn) && Good(t, pid, vpn)
    && Resident(t, pid, vpn) == Resident(s, pid, vpn)
    && FrameFor(t, pid, vpn) == FrameFor(s, pid, vpn)
  }

  // ---- General facts -----------------------------------------------------------------------

  lemma GoodPage(s: State, pid: int, vpn: nat)
    requires Inv(s) && User(s.procs, s.top, pid, vpn)
    ensures Good(s, pid, vpn)
  {
  }

  lemma InPool(f: nat, i: nat)
    requires f < FRAMES && i < 1024
    ensures 0 <= W(f, i) < MEM_WORDS
  {
  }

  lemma WalkAgrees(s: State, pid: int, vpn: nat)
    requires Good(s, pid, vpn)
    ensures PdeAt(s, pid, vpn) >= 0
    ensures Translate(s.mem, s.procs[pid].pageDirectory, vpn) ==
      if Resident(s, pid, vpn) then Mapped(PdeAt(s, pid, vpn), PteAt(s, pid, vpn), FrameFor(s, pid, vpn)) else NotMapped
    ensures TableFrame(s.mem, s.procs[pid].pageDirectory, vpn) == s.tables[(pid, Dir(vpn))]
  {
    hide Base, Present, Dirty, Dir, Slot, Addr, FrameOf, Sectors, DiskWord;
    FrameOfAddr(s.tables[(pid, Dir(vpn))]);
    InPool(FrameOf(s.procs[pid].pageDirectory), Dir(vpn));
    InPool(s.tables[(pid, Dir(vpn))], Slot(vpn));
    hide W;
  }

  lemma PteApart(s: State, p: int, v: nat, q: int, u: nat)
    requires Good(s, p, v) && Good(s, q, u)
    ensures PteAt(s, p, v) != PdeAt(s, q, u)
    ensures (p, v) != (q, u) ==> PteAt(s, p, v) != PteAt(s, q, u)
  {
  }

  /** A frame that holds no directory or table overlaps no entry in use. */
  lemma DataApart(s: State, f: nat, j: nat, p: int, u: nat)
    requires Good(s, p, u)
    requires f < FRAMES && j < 1024
    requires s.roles[f] != Directory(p) && s.roles[f] != Table(p, Dir(u))
    ensures W(f, j) != PdeAt(s, p, u) && W(f, j) != PteAt(s, p, u)
  {
  }

  lemma WordsApart(f: nat, i: nat, g: nat, j: nat)
    requires i < 1024 && j < 1024 && (f, i) != (g, j)
    ensures W(f, i) != W(g, j)
  {
  }

  lemma ExtentsApart(s: State, p: int, v: nat, q: int, u: nat)
    requires ExtentsOk(s) && p in s.procs && q in s.procs && (p, v) != (q, u)
    requires ImagePage(s.procs[p], v) && ImagePage(s.procs[q], u)
    ensures Location(s.procs[p], v) + Sectors(s.procs[p], v) <= Location(s.procs[q], u)
      || Location(s.procs[q], u) + Sectors(s.procs[q], u) <= Location(s.procs[p], v)
  {
  }

  // ---- Steps that leave memory and disk alone -----------------------------------------------

  lemma ControlKeeps(s: State, t: State)
    requires Inv(s) && t == s.(waiting := t.waiting, exited := t.exited, handler := t.handler)
    requires WaitingOk(t) && HandlerOk(t)
    requires t.handler == s.handler || (!s.handler.WritingBack? && !t.handler.WritingBack?)
    requires forall f :: HandlerFrame(s.handler, f) ==> HandlerFrame(t.handler, f)
    ensures Inv(t) && SameAbs(s, t)
  {
    hide W, Base, Present, Dirty, Sectors, Location, FrameOf, Addr, NPages;
    forall f | 0 <= f < FRAMES
      ensures FrameOk(t, f)
    {
      assert FrameOk(s, f);
    }
  }

  lemma EnterKeeps(s: State, req: Request)
    requires Inv(s) && CanEnter(s, req)
    ensures Inv(Enter(s, req)) && SameAbs(s, Enter(s, req))
  {
    ControlKeeps(s, Enter(s, req));
  }

  lemma PageFaultKeeps(s: State, pid: int, vaddr: Word)
    requires Inv(s) && CanFault(s, pid, vaddr)
    ensures Inv(PageFault(s, pid, vaddr)) && SameAbs(s, PageFault(s, pid, vaddr))
  {
    hide W, Base, Present, Dirty, Sectors, Location, FrameOf, Addr, NPages;
    WalkAgrees(s, pid, PageOf(vaddr));
    ControlKeeps(s, PageFault(s, pid, vaddr));
  }

  lemma GiveUpKeeps(s: State)
    requires Inv(s) && CanGiveUp(s)
    ensures Inv(GiveUp(s)) && SameAbs(s, GiveUp(s))
  {
    ControlKeeps(s, GiveUp(s));
  }

  lemma ExitKeeps(s: State, pid: int)
    requires Inv(s) && Running(s, pid)
    ensures Inv(Exit(s, pid)) && SameAbs(s, Exit(s, pid))
  {
    hide W, Base, Present, Dirty, Sectors, Location, FrameOf, Addr, NPages;
    ControlKeeps(s, Exit(s, pid));
  }

  lemma TakeFreeKeeps(s: State)
    requires Inv(s) && CanTakeFree(s)
    ensures Inv(TakeFree(s)) && SameAbs(s, TakeFree(s))
  {
    hide W, Base, Present, Dirty, Sectors, Location, FrameOf, Addr, NPages;
    var t := TakeFree(s);
    assert FrameOk(s, s.nalloc);
    forall q, u: nat | User(s.procs, s.top, q, u)
      ensures Reaches(t, q, u) && SameMapping(s, t, q, u)
    {
      GoodPage(s, q, u);
    }
    forall f | 0 <= f < FRAMES
      ensures FrameOk(t, f)
    {
      assert FrameOk(s, f);
    }
  }

  // ---- User code -------------------------------------------------------------------------

  /** Page v of process p is read (w < 0) or its word w written: entries keep their frames
    * and present bits, dirty bits only get set, and no other data changes. */
  ghost predicate Access(s: State, t: State, p: int, v: nat, w: int) {
    && Inv(s) && |t.mem| == MEM_WORDS && t == s.(mem := t.mem)
    && User(s.procs, s.top, p, v) && Reaches(s, p, v) && Resident(s, p, v) && w < 1024
    && (forall q, u: nat :: User(s.procs, s.top, q, u) ==> SameWalk(s, t, q, u))
    && (w >= 0 ==> Dirty(t.mem[PteAt(s, p, v)]))
    && forall f, i :: 0 <= f < FRAMES && 0 <= i < 1024 && !s.roles[f].Directory? && !s.roles[f].Table? ==>
         t.mem[W(f, i)] == s.mem[W(f, i)] || (f == FrameFor(s, p, v) && i == w)
  }

  ghost predicate SameWalk(s: State, t: State, pid: int, vpn: nat)
    requires Inv(s) && User(s.procs, s.top, pid, vpn) && |t.mem| == MEM_WORDS
  {
    var pde, pte := PdeAt(s, pid, vpn), PteAt(s, pid, vpn);
    && Reaches(s, pid, vpn)
    && Base(t.mem[pde]) == Base(s.mem[pde]) && Present(t.mem[pde]) == Present(s.mem[pde])
    && Base(t.mem[pte]) == Base(s.mem[pte]) && Present(t.mem[pte]) == Present(s.mem[pte])
    && (Dirty(s.mem[pte]) ==> Dirty(t.mem[pte]))
  }

  lemma AccessPage(s: State, t: State, p: int, v: nat, w: int, q: int, u: nat)
    requires Access(s, t, p, v, w) && User(s.procs, s.top, q, u)
    ensures SameMapping(s, t, q, u)
    ensures forall j: nat :: Kept(s.procs, s.top, q, u, j) && (p != q || v != u || j != w) ==>
      Abs(t, q, u, j) == Abs(s, q, u, j)
  {
    hide Base, Present, Dirty, Sectors, Location, Addr, NPages;
    GoodPage(s, q, u);
    GoodPage(s, p, v);
    assert SameWalk(s, t, q, u);
  }

  lemma AccessKeeps(s: State, t: State, p: int, v: nat, w: int)
    requires Access(s, t, p, v, w)
    ensures Inv(t)
    ensures forall q, u: nat :: User(s.procs, s.top, q, u) ==> SameMapping(s, t, q, u)
    ensures forall q, u: nat, j: nat :: Kept(s.procs, s.top, q, u, j) && (p != q || v != u || j != w) ==>
      Abs(t, q, u, j) == Abs(s, q, u, j)
  {
    hide W, Base, Present, Dirty, Sectors, Location, FrameOf, Addr, NPages;
    forall q, u: nat | User(s.procs, s.top, q, u)
      ensures SameMapping(s, t, q, u)
      ensures forall j: nat :: Kept(s.procs, s.top, q, u, j) && (p != q || v != u || j != w) ==>
        Abs(t, q, u, j) == Abs(s, q, u, j)
    {
      AccessPage(s, t, p, v, w, q, u);
    }
    forall f | 0 <= f < FRAMES
      ensures FrameOk(t, f)
    {
      assert FrameOk(s, f);
    }
    assert PageOk(s, p, v);
  }

  lemma LoadKeeps(s: State, pid: int, vpn: nat, j: nat)
    requires Inv(s) && CanAccess(s, pid, vpn, j)
    ensures Inv(LoadWord(s, pid, vpn, j)) && SameAbs(s, LoadWord(s, pid, vpn, j))
    ensures Kept(s.procs, s.top, pid, vpn, j) ==>
      Good(s, pid, vpn) && LoadedWord(s, pid, vpn, j) == Abs(s, pid, vpn, j)
  {
    hide Base, Present, Dirty, Sectors, Location, FrameOf, Addr, NPages;
    GoodPage(s, pid, vpn);
    WalkAgrees(s, pid, vpn);
    var t := LoadWord(s, pid, vpn, j);
    forall q, u: nat | User(s.procs, s.top, q, u)
      ensures SameWalk(s, t, q, u)
    {
      assert Reaches(s, q, u);
    }
    forall g, i | 0 <= g < FRAMES && 0 <= i < 1024 && !s.roles[g].Directory? && !s.roles[g].Table?
      ensures 0 <= W(g, i) < MEM_WORDS && t.mem[W(g, i)] == s.mem[W(g, i)]
    {
      DataApart(s, g, i, pid, vpn);
    }
    AccessKeeps(s, t, pid, vpn, -1);
  }

  lemma StoreIsAccess(s: State, pid: int, vpn: nat, j: nat, x: Word)
    requires Inv(s) && CanAccess(s, pid, vpn, j) && Good(s, pid, vpn) && Resident(s, pid, vpn)
    ensures Access(s, StoreWord(s, pid, vpn, j, x), pid, vpn, j)
    ensures StoreWord(s, pid, vpn, j, x).mem[W(FrameFor(s, pid, vpn), j)] == x
  {
    hide Base, Present, Dirty, Sectors, Location, FrameOf, Addr, NPages;
    WalkAgrees(s, pid, vpn);
    var t, f := StoreWord(s, pid, vpn, j, x), FrameFor(s, pid, vpn);
    forall q, u: nat | User(s.procs, s.top, q, u)
      ensures SameWalk(s, t, q, u)
    {
      GoodPage(s, q, u);
      DataApart(s, f, j, q, u);
    }
    forall g, i | 0 <= g < FRAMES && 0 <= i < 1024 && !s.roles[g].Directory? && !s.roles[g].Table?
      ensures 0 <= W(g, i) < MEM_WORDS && (t.mem[W(g, i)] == s.mem[W(g, i)] || (g == f && i == j))
    {
      DataApart(s, g, i, pid, vpn);
      if (g, i) != (f, j) {
        WordsApart(g, i, f, j);
      }
    }
    DataApart(s, f, j, pid, vpn);
  }

  lemma StoreKeeps(s: State, pid: int, vpn: nat, j: nat, x: Word)
    requires Inv(s) && CanAccess(s, pid, vpn, j)
    ensures var t := StoreWord(s, pid, vpn, j, x);
      && Inv(t) && (forall q, u: nat :: User(s.procs, s.top, q, u) ==> Good(s, q, u) && Good(t, q, u))
      && Good(s, pid, vpn) && Dirty(t.mem[PteAt(s, pid, vpn)])
      && (Kept(s.procs, s.top, pid, vpn, j) ==> Abs(t, pid, vpn, j) == x)
      && forall q, u: nat, k: nat :: Kept(s.procs, s.top, q, u, k) && (pid != q || vpn != u || k != j) ==>
           Abs(t, q, u, k) == Abs(s, q, u, k)
  {
    hide W, Base, Present, Dirty, Sectors, Location, FrameOf, Addr, NPages;
    GoodPage(s, pid, vpn);
    WalkAgrees(s, pid, vpn);
    StoreIsAccess(s, pid, vpn, j, x);
    AccessKeeps(s, StoreWord(s, pid, vpn, j, x), pid, vpn, j);
    assert SameMapping(s, StoreWord(s, pid, vpn, j, x), pid, vpn);
  }

  // ---- Eviction --------------------------------------------------------------------------

  /** From s to t, only the table entry of page v of process p and roles of frames that are
    * no tables change, besides the handler and the records. */
  ghost predicate OneEntry(s: State, t: State, p: int, v: nat) {
    && Inv(s) && Shape(t) && User(s.procs, s.top, p, v) && Reaches(s, p, v)
    && t.procs == s.procs && t.top == s.top && t.tables == s.tables && t.disk == s.disk
    && t.mem == s.mem[PteAt(s, p, v) := t.mem[PteAt(s, p, v)]]
    && (forall f :: 0 <= f < FRAMES && (s.roles[f].Directory? || s.roles[f].Table?) ==> t.roles[f] == s.roles[f])
  }

  lemma OneEntryPage(s: State, t: State, p: int, v: nat, q: int, u: nat)
    requires OneEntry(s, t, p, v) && User(s.procs, s.top, q, u)
    ensures Good(s, q, u) && Reaches(t, q, u)
    ensures (q, u) != (p, v) ==> t.mem[PteAt(s, q, u)] == s.mem[PteAt(s, q, u)]
    ensures forall f, j :: 0 <= f < FRAMES && 0 <= j < 1024 && !s.roles[f].Table? ==>
      t.mem[W(f, j)] == s.mem[W(f, j)]
  {
    GoodPage(s, p, v);
    GoodPage(s, q, u);
    PteApart(s, p, v, q, u);
  }

  lemma VictimIsPage(s: State, i: nat)
    requires Inv(s) && CanEvict(s, i)
    ensures s.roles[i].Page? && User(s.procs, s.top, s.roles[i].pid, s.roles[i].vpn)
    ensures ImagePage(s.procs[s.roles[i].pid], s.roles[i].vpn)
    ensures s.blocks[i].pcb == s.procs[s.roles[i].pid] && PageOf(s.blocks[i].vaddr) == s.roles[i].vpn
    ensures Good(s, s.roles[i].pid, s.roles[i].vpn) && Resident(s, s.roles[i].pid, s.roles[i].vpn)
    ensures FrameFor(s, s.roles[i].pid, s.roles[i].vpn) == i
    ensures VictimEntry(s, i) == PteAt(s, s.roles[i].pid, s.roles[i].vpn)
  {
    assert FrameOk(s, i);
    WalkAgrees(s, s.roles[i].pid, s.roles[i].vpn);
  }

  /** Any frame that is not pinned can be evicted when all frames are in use. */
  lemma EvictEnabled(s: State, i: nat)
    requires Inv(s) && s.handler.Held? && s.nalloc == FRAMES && i < FRAMES && !s.blocks[i].pinned
    ensures CanEvict(s, i)
  {
    assert FrameOk(s, i);
    GoodPage(s, s.roles[i].pid, s.roles[i].vpn);
    WalkAgrees(s, s.roles[i].pid, s.roles[i].vpn);
  }

  lemma EvictPage(s: State, i: nat, q: int, u: nat)
    requires Inv(s) && CanEvict(s, i) && User(s.procs, s.top, q, u)
    ensures SamePageAbs(s, Evict(s, i), q, u)
    ensures s.roles[i] != Page(q, u) ==> SameMapping(s, Evict(s, i), q, u)
    ensures s.roles[i] == Page(q, u) ==> !Resident(Evict(s, i), q, u)
  {
    VictimIsPage(s, i);
    OneEntryPage(s, Evict(s, i), s.roles[i].pid, s.roles[i].vpn, q, u);
  }

  lemma EvictKeeps(s: State, i: nat)
    requires Inv(s) && CanEvict(s, i)
    ensures Inv(Evict(s, i)) && SameAbs(s, Evict(s, i))
  {
    hide W, Base, Present, Dirty, Sectors, Location, FrameOf, Addr, NPages;
    VictimIsPage(s, i);
    var t := Evict(s, i);
    forall q, u: nat | User(s.procs, s.top, q, u)
      ensures SamePageAbs(s, t, q, u)
      ensures s.roles[i] != Page(q, u) ==> SameMapping(s, t, q, u)
      ensures s.roles[i] == Page(q, u) ==> !Resident(t, q, u)
    {
      EvictPage(s, i, q, u);
    }
    forall f | 0 <= f < FRAMES
      ensures FrameOk(t, f)
    {
      assert FrameOk(s, f);
    }
  }

  lemma WriteBackDisk(s: State, q: int, u: nat)
    requires Inv(s) && CanWriteBack(s) && q in s.procs && ImagePage(s.procs[q], u)
    ensures forall j :: 0 <= j < Sectors(s.procs[q], u) * 128 ==>
      && DiskWord(s.procs[q], u, j) < |s.disk|
      && WriteBack(s).disk[DiskWord(s.procs[q], u, j)] ==
           if UnderWriteBack(s, q, u) then s.mem[W(s.handler.frame, j)]
           else s.disk[DiskWord(s.procs[q], u, j)]
  {
    if !UnderWriteBack(s, q, u) {
      ExtentsApart(s, s.handler.victim.pid, s.handler.vpn, q, u);
    }
  }

  lemma WriteBackPage(s: State, q: int, u: nat)
    requires Inv(s) && CanWriteBack(s) && User(s.procs, s.top, q, u)
    ensures SamePageAbs(s, WriteBack(s), q, u) && SameMapping(s, WriteBack(s), q, u)
  {
    hide Base, Present, Dirty, Sectors, Location, FrameOf, Addr, NPages;
    GoodPage(s, q, u);
    assert Absent(s, s.handler.victim.pid, s.handler.vpn);
    if ImagePage(s.procs[q], u) {
      WriteBackDisk(s, q, u);
    }
  }

  lemma WriteBackKeeps(s: State)
    requires Inv(s) && CanWriteBack(s)
    ensures Inv(WriteBack(s)) && SameAbs(s, WriteBack(s))
  {
    hide W, Base, Present, Dirty, Sectors, Location, FrameOf, Addr, NPages;
    var t := WriteBack(s);
    forall q, u: nat | User(s.procs, s.top, q, u)
      ensures SamePageAbs(s, t, q, u) && SameMapping(s, t, q, u)
    {
      WriteBackPage(s, q, u);
    }
    forall f | 0 <= f < FRAMES
      ensures FrameOk(t, f)
    {
      assert FrameOk(s, f);
    }
  }

  // ---- Filling the frame -------------------------------------------------------------------

  /** From s to t, only the words of frame i change, and i holds no page, directory or table. */
  ghost predicate OneFrame(s: State, t: State, i: nat) {
    && Inv(s) && Shape(t) && i < FRAMES && s.roles[i].InTransit?
    && !s.handler.WritingBack? && !t.handler.WritingBack?
    && t.procs == s.procs && t.top == s.top && t.disk == s.disk && t.waiting == s.waiting
    && t.nalloc == s.nalloc
    && (forall f :: 0 <= f < FRAMES && f != i ==> t.roles[f] == s.roles[f] && t.blocks[f] == s.blocks[f])
    && (forall f, j :: 0 <= f < FRAMES && 0 <= j < 1024 && f != i ==> t.mem[W(f, j)] == s.mem[W(f, j)])
    && (forall k :: k in s.tables && k.0 in s.procs ==> k in t.tables && t.tables[k] == s.tables[k])
  }

  lemma OneFramePage(s: State, t: State, i: nat, q: int, u: nat)
    requires OneFrame(s, t, i) && User(s.procs, s.top, q, u)
    ensures SameMapping(s, t, q, u) && SamePageAbs(s, t, q, u)
    ensures Resident(s, q, u) ==> FrameFor(s, q, u) != i
  {
    GoodPage(s, q, u);
  }

  lemma OneFrameKeeps(s: State, t: State, i: nat)
    requires OneFrame(s, t, i)
    ensures TablesOk(t) && PagesOk(t) && WaitingOk(t)
    ensures FrameOk(t, i) && HandlerOk(t) ==> Inv(t) && SameAbs(s, t)
  {
    hide W, Base, Present, Dirty, Sectors, Location, FrameOf, Addr, NPages;
    forall q, u: nat | User(s.procs, s.top, q, u)
      ensures SameMapping(s, t, q, u) && SamePageAbs(s, t, q, u)
    {
      OneFramePage(s, t, i, q, u);
    }
    forall f | 0 <= f < FRAMES && f != i
      ensures FrameOk(t, f)
    {
      assert FrameOk(s, f) && FrameOk(s, i);
    }
  }

  lemma ClaimKeeps(s: State)
    requires Inv(s) && CanClaim(s)
    ensures Inv(Claim(s)) && SameAbs(s, Claim(s))
  {
    hide W, Base, Present, Dirty, Sectors, Location, FrameOf, Addr, NPages;
    OneFrameKeeps(s, Claim(s), s.handler.frame);
    assert FrameOk(s, s.handler.frame);
  }

  lemma ReadInKeeps(s: State)
    requires Inv(s) && CanReadIn(s)
    ensures Inv(ReadIn(s)) && SameAbs(s, ReadIn(s))
  {
    hide W, Base, Present, Dirty, Sectors, Location, FrameOf, Addr, NPages;
    OneFrameKeeps(s, ReadIn(s), s.handler.frame);
    assert FrameOk(s, s.handler.frame);
  }

  // ---- Mapping the page ------------------------------------------------------------------

  lemma MapInEntry(s: State)
    requires Inv(s) && CanMapIn(s)
    ensures var p, v, i := s.handler.req.pid, PageOf(s.handler.req.vaddr), s.handler.frame;
      && Absent(s, p, v) && OneEntry(s, MapIn(s), p, v)
      && (var e := MapIn(s).mem[PteAt(s, p, v)];
          Present(e) && !Dirty(e) && Base(e) == Addr(i) && FrameOf(Addr(i)) == i)
  {
    var p, v := s.handler.req.pid, PageOf(s.handler.req.vaddr);
    assert Absent(s, p, v);
    GoodPage(s, p, v);
    WalkAgrees(s, p, v);
    assert FrameOk(s, s.handler.frame);
    FrameOfAddr(s.handler.frame);
  }

  lemma MapInPage(s: State, q: int, u: nat)
    requires Inv(s) && CanMapIn(s) && User(s.procs, s.top, q, u)
    ensures SamePageAbs(s, MapIn(s), q, u)
    ensures var req := s.handler.req;
      if (q, u) == (req.pid, PageOf(req.vaddr))
      then !Resident(s, q, u) && Resident(MapIn(s), q, u) && FrameFor(MapIn(s), q, u) == s.handler.frame
      else SameMapping(s, MapIn(s), q, u) && (Resident(s, q, u) ==> FrameFor(s, q, u) != s.handler.frame)
  {
    hide Base, Present, Dirty, Sectors, Location, FrameOf, Addr, NPages, W;
    MapInEntry(s);
    OneEntryPage(s, MapIn(s), s.handler.req.pid, PageOf(s.handler.req.vaddr), q, u);
  }

  lemma MapInKeeps(s: State)
    requires Inv(s) && CanMapIn(s)
    ensures Inv(MapIn(s)) && SameAbs(s, MapIn(s))
  {
    hide W, Base, Present, Dirty, Sectors, Location, FrameOf, Addr, NPages;
    var t := MapIn(s);
    forall q, u: nat | User(s.procs, s.top, q, u)
      ensures SamePageAbs(s, t, q, u)
      ensures var req := s.handler.req;
        if (q, u) == (req.pid, PageOf(req.vaddr))
        then !Resident(s, q, u) && Resident(t, q, u) && FrameFor(t, q, u) == s.handler.frame
        else SameMapping(s, t, q, u) && (Resident(s, q, u) ==> FrameFor(s, q, u) != s.handler.frame)
    {
      MapInPage(s, q, u);
    }
    assert Absent(s, s.handler.req.pid, PageOf(s.handler.req.vaddr));
    forall f | 0 <= f < FRAMES
      ensures FrameOk(t, f)
    {
      assert FrameOk(s, f);
    }
  }

  // ---- Setting up a process ----------------------------------------------------------------

  lemma WriteTablePage(s: State, f: nat, i: nat, w: Word, q: int, u: nat)
    requires Inv(s) && CanWriteTable(s, f, i) && User(s.procs, s.top, q, u)
    ensures SameMapping(s, WriteTable(s, f, i, w), q, u) && SamePageAbs(s, WriteTable(s, f, i, w), q, u)
  {
    hide Base, Present, Dirty, Sectors, Location, Addr, NPages;
    GoodPage(s, q, u);
    DataApart(s, f, i, q, u);
  }

  lemma WriteTableOthers(s: State, f: nat, i: nat, w: Word)
    requires CanWriteTable(s, f, i)
    ensures Shape(WriteTable(s, f, i, w))
    ensures forall g, j :: 0 <= g < FRAMES && 0 <= j < 1024 && g != f ==>
      0 <= W(g, j) < MEM_WORDS && WriteTable(s, f, i, w).mem[W(g, j)] == s.mem[W(g, j)]
  {
  }

  lemma WriteTableKeeps(s: State, f: nat, i: nat, w: Word)
    requires Inv(s) && CanWriteTable(s, f, i)
    ensures Inv(WriteTable(s, f, i, w)) && SameAbs(s, WriteTable(s, f, i, w))
  {
    hide W, Base, Present, Dirty, Sectors, Location, FrameOf, Addr, NPages;
    var t := WriteTable(s, f, i, w);
    forall q, u: nat | User(s.procs, s.top, q, u)
      ensures SameMapping(s, t, q, u) && SamePageAbs(s, t, q, u)
    {
      WriteTablePage(s, f, i, w, q, u);
    }
    WriteTableOthers(s, f, i, w);
    forall g | 0 <= g < FRAMES
      ensures FrameOk(t, g)
    {
      assert FrameOk(s, g);
    }
  }

  lemma SetUpPage(s: State, pcb: Pcb, q: int, u: nat)
    requires Inv(s) && CanSetUp(s, pcb) && User(s.procs, s.top, q, u)
    ensures SameMapping(s, SetUp(s, pcb), q, u) && SamePageAbs(s, SetUp(s, pcb), q, u)
  {
    hide W, Base, Present, Dirty, Sectors, Location, FrameOf, Addr, NPages;
    GoodPage(s, q, u);
  }

  lemma SetUpFrame(s: State, pcb: Pcb, g: nat)
    requires Inv(s) && CanSetUp(s, pcb) && TablesOk(SetUp(s, pcb)) && g < FRAMES
    ensures FrameOk(SetUp(s, pcb), g)
  {
    hide W, Base, Present, Dirty, Sectors, Location, FrameOf, Addr, NPages;
    assert FrameOk(s, g);
    if s.roles[g].Page? && s.roles[g].pid in s.procs {
      SetUpPage(s, pcb, s.roles[g].pid, s.roles[g].vpn);
    }
  }

  /** In t, page u of the image of pcb reads as the disk of s. */
  ghost predicate FreshPage(s: State, t: State, pcb: Pcb, u: nat) {
    && Good(t, pcb.pid, u)
    && forall j: nat :: Kept(t.procs, t.top, pcb.pid, u, j) && ENTRY_PAGE <= u ==>
         DiskWord(pcb, u, j) < |s.disk| && Abs(t, pcb.pid, u, j) == s.disk[DiskWord(pcb, u, j)]
  }

  lemma SetUpNew(s: State, pcb: Pcb, u: nat)
    requires Inv(s) && CanSetUp(s, pcb) && User(SetUp(s, pcb).procs, s.top, pcb.pid, u)
    ensures Good(SetUp(s, pcb), pcb.pid, u)
    ensures ImagePage(pcb, u) ==> FreshPage(s, SetUp(s, pcb), pcb, u)
  {
    hide W, Base, Present, Dirty, FrameOf, Addr;
  }

  lemma SetUpExtents(s: State, pcb: Pcb)
    requires Inv(s) && CanSetUp(s, pcb)
    ensures ExtentsOk(SetUp(s, pcb))
  {
  }

  lemma SetUpInv(s: State, pcb: Pcb)
    requires Inv(s) && CanSetUp(s, pcb)
    ensures Inv(SetUp(s, pcb))
  {
    hide W, Base, Present, Dirty, Sectors, Location, FrameOf, Addr, NPages, SpaceReady, FreshPage, SamePageAbs;
    hide FrameOk, ExtentsOk;
    SetUpExtents(s, pcb);
    var t := SetUp(s, pcb);
    forall q, u: nat | User(t.procs, t.top, q, u)
      ensures Good(t, q, u)
    {
      if q != pcb.pid {
        assert User(s.procs, s.top, q, u);
        SetUpPage(s, pcb, q, u);
      } else {
        SetUpNew(s, pcb, u);
      }
    }
    forall g | 0 <= g < FRAMES
      ensures FrameOk(t, g)
    {
      SetUpFrame(s, pcb, g);
    }
    forall pid | pid in s.waiting
      ensures Absent(t, pid, PageOf(s.waiting[pid]))
    {
      assert Absent(s, pid, PageOf(s.waiting[pid]));
      SetUpPage(s, pcb, pid, PageOf(s.waiting[pid]));
    }
  }

  /** A new process sees its image as it is on disk, and nobody else notices. */
  lemma SetUpKeeps(s: State, pcb: Pcb)
    requires Inv(s) && CanSetUp(s, pcb)
    ensures Inv(SetUp(s, pcb)) && SameAbs(s, SetUp(s, pcb))
    ensures forall vpn: nat :: ImagePage(pcb, vpn) ==> FreshPage(s, SetUp(s, pcb), pcb, vpn)
  {
    hide Inv, SamePageAbs, FreshPage, SpaceReady;
    SetUpInv(s, pcb);
    var t := SetUp(s, pcb);
    forall q, u: nat | User(s.procs, s.top, q, u)
      ensures SamePageAbs(s, t, q, u)
    {
      SetUpPage(s, pcb, q, u);
    }
    forall vpn: nat | ImagePage(pcb, vpn)
      ensures FreshPage(s, t, pcb, vpn)
    {
      SetUpNew(s, pcb, vpn);
    }
  }
}
