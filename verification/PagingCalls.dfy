/** What whole calls of get_memory do to the machine: the steps of one call put together,
  * and how an address space grows call by call while a process is set up. */
module PagingCalls {
  import opened Paging
  import opened PagingProofs
  import opened PagingRuns

  /** A transfer from disk, word by word, is the read of the machine. */
  lemma IsScsiRead(mem: seq<Word>, disk: seq<Word>, frame: nat, location: nat, sectors: nat, r: seq<Word>)
    requires |mem| == MEM_WORDS && frame < FRAMES && sectors <= 8 && |r| == |mem|
    requires (location + sectors) * SECTOR_WORDS <= |disk|
    requires forall i :: 0 <= i < |r| ==>
      r[i] == if frame * 1024 <= i < frame * 1024 + sectors * 128 then disk[location * 128 + (i - frame * 1024)] else mem[i]
    ensures r == ScsiRead(mem, disk, frame, location, sectors)
  {
    var a, b, n := frame * 1024, location * 128, sectors * 128;
    assert W(frame, 0) == a && W(frame, n) == a + n && (location + sectors) * 128 == b + n;
    assert r[..a] == mem[..a];
    assert r[a..a + n] == disk[b..b + n];
    assert r[a + n..] == mem[a + n..];
    assert r == r[..a] + r[a..a + n] + r[a + n..];
  }

  lemma IsScsiWrite(disk: seq<Word>, mem: seq<Word>, frame: nat, location: nat, sectors: nat, r: seq<Word>)
    requires |mem| == MEM_WORDS && frame < FRAMES && sectors <= 8 && |r| == |disk|
    requires (location + sectors) * SECTOR_WORDS <= |disk|
    requires forall i :: 0 <= i < |r| ==>
      r[i] == if location * 128 <= i < (location + sectors) * 128 then mem[frame * 1024 + (i - location * 128)] else disk[i]
    ensures r == ScsiWrite(disk, mem, frame, location, sectors)
  {
    var a, b, n := frame * 1024, location * 128, sectors * 128;
    assert W(frame, 0) == a && W(frame, n) == a + n && (location + sectors) * 128 == b + n;
    assert r[..b] == disk[..b];
    assert r[b..b + n] == mem[a..a + n];
    assert r[b + n..] == disk[b + n..];
    assert r == r[..b] + r[b..b + n] + r[b + n..];
  }

  lemma FrameStart(paddr: Word)
    requires 0 <= FrameOf(paddr) < FRAMES && Base(paddr) == paddr
    ensures (paddr - MEM_START) / 4 == FrameOf(paddr) * 1024
    ensures 0 <= FrameOf(paddr) * 1024 && FrameOf(paddr) * 1024 + 1024 <= MEM_WORDS
  {
  }

  lemma WriteBackEnabled(s: State)
    requires Inv(s) && s.handler.WritingBack?
    ensures CanWriteBack(s)
  {
    assert Absent(s, s.handler.victim.pid, s.handler.vpn);
  }

  /** Eviction of frame i together with the write-back that a dirty page needs. */
  ghost function Emptied(s: State, i: nat): State
    requires Inv(s) && CanEvict(s, i)
  {
    EvictKeeps(s, i);
    if Evict(s, i).handler.WritingBack?
    then WriteBackEnabled(Evict(s, i)); WriteBack(Evict(s, i))
    else Evict(s, i)
  }

  lemma AddrIs(i: nat)
    requires i < FRAMES
    ensures Addr(i) == MEM_START + i * PAGE_SIZE && FrameOf(Addr(i)) == i && Base(Addr(i)) == Addr(i)
  {
  }

  /** The arguments of get_memory are those of the request being served. */
  ghost predicate Asks(s: State, req: Request, pinned: bool, vaddr: Word, pcb: Pcb) {
    && vaddr == req.vaddr && pinned == req.Pin?
    && (req.Pin? ==> pcb == req.pcb)
    && (req.Fault? ==> req.pid in s.procs && pcb == s.procs[req.pid])
  }

  lemma ShapeOf(s: State)
    requires Inv(s)
    ensures Shape(s)
  {
  }

  /** From s, get_memory ends in t with frame i: the next free one, or an evicted one. */
  ghost predicate Obtained(s: State, i: int, t: State) {
    && Inv(s) && s.handler.Held? && 0 <= i < FRAMES
    && if s.nalloc < FRAMES
       then i == s.nalloc && CanClaim(TakeFree(s)) && t == Claim(TakeFree(s))
       else CanEvict(s, i) && CanClaim(Emptied(s, i)) && t == Claim(Emptied(s, i))
  }

  lemma SameAbsTrans(s: State, t: State, u: State)
    requires SameAbs(s, t) && SameAbs(t, u)
    ensures SameAbs(s, u)
  {
    hide Good, Abs;
    forall pid, vpn | User(s.procs, s.top, pid, vpn)
      ensures SamePageAbs(s, u, pid, vpn)
    {
      assert SamePageAbs(s, t, pid, vpn);
      assert User(t.procs, t.top, pid, vpn) && SamePageAbs(t, u, pid, vpn);
    }
  }

  lemma ObtainedKeeps(s: State, i: int, t: State)
    requires Obtained(s, i, t)
    ensures Inv(t) && SameAbs(s, t) && t.procs == s.procs && t.waiting == s.waiting && t.top == s.top
    ensures |t.disk| == |s.disk|
  {
    hide Inv, SamePageAbs, Base, Present, Dirty, Sectors, Location, FrameOf, Addr, NPages, W;
    ShapeOf(s);
    if s.nalloc < FRAMES {
      TakeFreeKeeps(s);
      ClaimKeeps(TakeFree(s));
      SameAbsTrans(s, TakeFree(s), t);
    } else {
      EvictKeeps(s, i);
      var e := Evict(s, i);
      if e.handler.WritingBack? {
        WriteBackEnabled(e);
        WriteBackKeeps(e);
        SameAbsTrans(s, e, WriteBack(e));
      }
      ClaimKeeps(Emptied(s, i));
      SameAbsTrans(s, Emptied(s, i), t);
    }
  }

  lemma ObtainedFault(s: State, i: int, t: State)
    requires Obtained(s, i, t) && s.handler.req.Fault? && Inv(t)
    ensures t.handler == Claimed(s.handler.req, i) && t.tables == s.tables
    ensures s.nalloc < FRAMES || (s.nalloc == FRAMES && !s.blocks[i].pinned)
  {
    hide Inv, Base, Present, Dirty, Sectors, Location, FrameOf, NPages, W;
  }

  lemma ClaimedPage(s: State)
    requires Inv(s) && s.handler.Claimed?
    ensures CanReadIn(s) && s.handler.req.Fault?
    ensures s.blocks[s.handler.frame].paddr == Addr(s.handler.frame)
    ensures var pcb, vpn := s.procs[s.handler.req.pid], PageOf(s.handler.req.vaddr);
      (Location(pcb, vpn) + Sectors(pcb, vpn)) * SECTOR_WORDS <= |s.disk|
  {
    assert FrameOk(s, s.handler.frame);
    FaultingPage(s, s.handler.req);
  }

  lemma LoadedPage(s: State)
    requires Inv(s) && s.handler.Loaded?
    ensures CanMapIn(s)
  {
    FaultingPage(s, s.handler.req);
  }

  lemma SameTable(s: State)
    requires Inv(s) && CanReadIn(s) && Inv(ReadIn(s))
    ensures var pcb, vpn := s.procs[s.handler.req.pid], PageOf(s.handler.req.vaddr);
      TableFrame(ReadIn(s).mem, pcb.pageDirectory, vpn) == TableFrame(s.mem, pcb.pageDirectory, vpn)
  {
    hide Dir, Slot, Base, Present, Dirty, Sectors, Location, FrameOf, Addr, NPages, W, TableFrame;
    FaultingPage(s, s.handler.req);
    FaultingPage(ReadIn(s), s.handler.req);
  }

  /** Facts about the page that a fault is about, at any point of its handling. */
  lemma FaultingPage(s: State, req: Request)
    requires Inv(s) && req.Fault? && req.pid in s.waiting && s.waiting[req.pid] == req.vaddr
    ensures Shape(s) && req.pid in s.procs && PageOf(req.vaddr) < 0x10_0000
    ensures ImagePage(s.procs[req.pid], PageOf(req.vaddr)) && ExtentOnDisk(s.procs[req.pid], s.disk)
    ensures Good(s, req.pid, PageOf(req.vaddr))
    ensures 0 <= FrameOf(s.procs[req.pid].pageDirectory) < FRAMES
    ensures Base(s.procs[req.pid].pageDirectory) == s.procs[req.pid].pageDirectory
    ensures TableFrame(s.mem, s.procs[req.pid].pageDirectory, PageOf(req.vaddr)) == s.tables[(req.pid, Dir(PageOf(req.vaddr)))]
    ensures 0 <= s.tables[(req.pid, Dir(PageOf(req.vaddr)))] < FRAMES
    ensures s.handler.Claimed? && s.handler.req == req ==> CanReadIn(s)
    ensures s.handler.Loaded? && s.handler.req == req ==> CanMapIn(s)
  {
    assert Absent(s, req.pid, PageOf(req.vaddr));
    GoodPage(s, req.pid, PageOf(req.vaddr));
    WalkAgrees(s, req.pid, PageOf(req.vaddr));
  }

  /** What EvictFrame needs to know about its victim. */
  lemma VictimFacts(s: State, i: nat)
    requires Inv(s) && CanEvict(s, i)
    ensures var pcb, vpn := s.blocks[i].pcb, PageOf(s.blocks[i].vaddr);
      && s.blocks[i].paddr == Addr(i) && FrameOf(Addr(i)) == i && Base(Addr(i)) == Addr(i)
      && ImagePage(pcb, vpn) && (Location(pcb, vpn) + Sectors(pcb, vpn)) * SECTOR_WORDS <= |s.disk|
      && 0 <= FrameOf(pcb.pageDirectory) < FRAMES && Base(pcb.pageDirectory) == pcb.pageDirectory
      && 0 <= W(i, 0) && W(i, 1024) <= MEM_WORDS && 0 <= VictimEntry(s, i) < MEM_WORDS
  {
    VictimIsPage(s, i);
    WalkAgrees(s, s.roles[i].pid, s.roles[i].vpn);
    assert FrameOk(s, i);
  }

  // ---- get_memory for a pinned frame -----------------------------------------------------------

  /** The frame is zero, has the role it was asked for, and no directory or table of a process
    * that is still being set up has changed. */
  lemma ObtainedPin(s: State, i: int, t: State)
    requires Obtained(s, i, t) && s.handler.req.Pin?
    ensures Inv(t) && t.handler.Idle? && Shape(t)
    ensures t.roles == s.roles[i := s.handler.req.role]
    ensures s.roles[i].Unused? || (s.roles[i].Page? && s.roles[i].pid in s.procs)
    ensures t.tables == if s.handler.req.role.Table?
      then s.tables[(s.handler.req.role.pid, s.handler.req.role.d) := i] else s.tables
    ensures forall j :: 0 <= j < 1024 ==> t.mem[W(i, j)] == 0
    ensures forall f, j :: 0 <= f < FRAMES && f != i && 0 <= j < 1024 && Untouched(s, s.roles[f]) ==>
      t.mem[W(f, j)] == s.mem[W(f, j)]
  {
    ObtainedKeeps(s, i, t);
    hide Base, Present, Dirty, Sectors, Location, FrameOf, Addr, NPages, W;
    if s.nalloc < FRAMES {
      assert FrameOk(s, i);
    } else {
      VictimIsPage(s, i);
      EvictOthers(s, i);
    }
  }

  /** Frames whose words only setting up a process changes. */
  ghost predicate Untouched(s: State, r: Role) {
    r.Kernel? || ((r.Directory? || r.Table?) && r.pid !in s.procs)
  }

  lemma EvictOthers(s: State, i: nat)
    requires Inv(s) && CanEvict(s, i)
    ensures forall f, j :: 0 <= f < FRAMES && 0 <= j < 1024 && Untouched(s, s.roles[f]) ==>
      0 <= W(f, j) < MEM_WORDS && Evict(s, i).mem[W(f, j)] == s.mem[W(f, j)]
  {
    VictimIsPage(s, i);
  }

  // ---- Setting up a process ------------------------------------------------------------------

  ghost predicate DirectoryReady(s: State, pcb: Pcb)
    requires Shape(s)
  {
    var df := FrameOf(pcb.pageDirectory);
    0 <= df < FRAMES && pcb.pageDirectory == Addr(df) && s.roles[df] == Directory(pcb.pid)
  }

  ghost predicate TableReady(s: State, pcb: Pcb, d: nat)
    requires Shape(s) && DirectoryReady(s, pcb)
  {
    && d < 1024 && (pcb.pid, d) in s.tables && s.tables[(pcb.pid, d)] < FRAMES
    && s.roles[s.tables[(pcb.pid, d)]] == Table(pcb.pid, d)
    && (var e := s.mem[W(FrameOf(pcb.pageDirectory), d)];
        Present(e) && Base(e) == Addr(s.tables[(pcb.pid, d)]))
  }

  /** The word of the table entry for a page. */
  ghost function Pte(s: State, pcb: Pcb, vpn: nat): Word
    requires Shape(s) && DirectoryReady(s, pcb) && TableReady(s, pcb, Dir(vpn))
  {
    s.mem[W(s.tables[(pcb.pid, Dir(vpn))], Slot(vpn))]
  }

  ghost predicate StackReady(s: State, pcb: Pcb, v: nat)
    requires Shape(s) && DirectoryReady(s, pcb) && TableReady(s, pcb, Dir(v))
  {
    var f := FrameOf(Base(Pte(s, pcb, v)));
    Present(Pte(s, pcb, v)) && 0 <= f < FRAMES && Base(Pte(s, pcb, v)) == Addr(f) && s.roles[f] == Page(pcb.pid, v)
  }

  const ABSENT_RW: Word := 6            // PE_RW | PE_US

  predicate AbsentEntry(w: Word) { w == Entry(0, ABSENT_RW) }

  /** One of the first n pages of the image. */
  predicate Entered(vpn: int, n: nat) { ENTRY_PAGE <= vpn < ENTRY_PAGE + n }

  /** The tables in ds are linked, the stack pages in vs are mapped, and the first n pages of
    * the image are entered as absent. */
  ghost predicate Built(s: State, pcb: Pcb, ds: set<nat>, vs: set<nat>, n: nat) {
    && Shape(s) && DirectoryReady(s, pcb)
    && (forall d :: d in ds ==> TableReady(s, pcb, d))
    && (forall v :: v in vs ==> StackPage(s.top, v) && Dir(v) in ds && StackReady(s, pcb, v))
    && (forall v: nat :: Entered(v, n) ==> Dir(v) in ds && AbsentEntry(Pte(s, pcb, v)))
  }

  /** A frame with a role for this process is one of those that are linked. */
  ghost predicate OwnFrame(s: State, pcb: Pcb, ds: set<nat>, vs: set<nat>, f: nat)
    requires Built(s, pcb, ds, vs, 0) && f < FRAMES
  {
    match s.roles[f]
    case Directory(p) => p == pcb.pid ==> f == FrameOf(pcb.pageDirectory)
    case Table(p, d) => p == pcb.pid ==> d in ds && f == s.tables[(pcb.pid, d)]
    case Page(p, v) => p == pcb.pid ==> v in vs && f == FrameOf(Base(Pte(s, pcb, v)))
    case _ => true
  }

  /** An address space under construction: what is built, and nothing else. */
  ghost predicate Building(s: State, pcb: Pcb, ds: set<nat>, vs: set<nat>, n: nat) {
    && Inv(s) && s.handler.Idle? && pcb.pid !in s.procs
    && Built(s, pcb, ds, vs, n)
    && (forall f :: 0 <= f < FRAMES ==> OwnFrame(s, pcb, ds, vs, f))
  }

  /** From s to t, the directory and the tables in ds stay as they are, but for word j of frame g. */
  ghost predicate Grows(s: State, t: State, pcb: Pcb, ds: set<nat>, g: int, j: int) {
    && Shape(s) && Shape(t) && t.top == s.top
    && (forall f :: 0 <= f < FRAMES && Own(s.roles[f], pcb.pid) ==> t.roles[f] == s.roles[f])
    && (forall f, i :: 0 <= f < FRAMES && 0 <= i < 1024 && Own(s.roles[f], pcb.pid) && !s.roles[f].Page? && (f, i) != (g, j) ==>
          t.mem[W(f, i)] == s.mem[W(f, i)])
    && (forall d :: d in ds && (pcb.pid, d) in s.tables ==>
          (pcb.pid, d) in t.tables && t.tables[(pcb.pid, d)] == s.tables[(pcb.pid, d)])
  }

  predicate Own(r: Role, pid: int) { (r.Directory? || r.Table? || r.Page?) && r.pid == pid }

  lemma GrowsTable(s: State, t: State, pcb: Pcb, ds: set<nat>, g: int, j: int, d: nat)
    requires Grows(s, t, pcb, ds, g, j) && DirectoryReady(s, pcb) && d in ds && TableReady(s, pcb, d)
    requires (g, j) != (FrameOf(pcb.pageDirectory), d)
    ensures DirectoryReady(t, pcb) && TableReady(t, pcb, d) && t.tables[(pcb.pid, d)] == s.tables[(pcb.pid, d)]
    ensures forall v: nat :: Dir(v) == d && (g, j) != (s.tables[(pcb.pid, d)], Slot(v)) ==>
              Pte(t, pcb, v) == Pte(s, pcb, v)
  {
    hide Dir, Slot, PageOf, Base, Present, FrameOf, Addr, W;
  }

  /** Word j of frame g holds no directory or table entry that is built. */
  ghost predicate FreeSlot(s: State, pcb: Pcb, ds: set<nat>, vs: set<nat>, n: nat, g: int, j: int)
    requires Built(s, pcb, ds, vs, n)
  {
    && (forall d :: d in ds ==> (g, j) != (FrameOf(pcb.pageDirectory), d))
    && (forall v: nat :: v in vs || Entered(v, n) ==>
          Dir(v) in ds && TableReady(s, pcb, Dir(v)) && (g, j) != (s.tables[(pcb.pid, Dir(v))], Slot(v)))
  }

  lemma GrowsBuilt(s: State, t: State, pcb: Pcb, ds: set<nat>, vs: set<nat>, n: nat, g: int, j: int)
    requires Built(s, pcb, ds, vs, n) && Grows(s, t, pcb, ds, g, j) && FreeSlot(s, pcb, ds, vs, n, g, j)
    ensures Built(t, pcb, ds, vs, n)
    ensures forall d :: d in ds ==> t.tables[(pcb.pid, d)] == s.tables[(pcb.pid, d)]
    ensures forall v :: v in vs ==> Pte(t, pcb, v) == Pte(s, pcb, v)
  {
    hide Dir, Slot, PageOf, Base, Present, FrameOf, Addr, W;
    forall d | d in ds
      ensures DirectoryReady(t, pcb) && TableReady(t, pcb, d) && t.tables[(pcb.pid, d)] == s.tables[(pcb.pid, d)]
    {
      GrowsTable(s, t, pcb, ds, g, j, d);
    }
    forall v: nat | v in vs || Entered(v, n)
      ensures TableReady(t, pcb, Dir(v)) && Pte(t, pcb, v) == Pte(s, pcb, v)
    {
      GrowsTable(s, t, pcb, ds, g, j, Dir(v));
    }
  }

  lemma PinnedKeeps(s: State, req: Request, i: int, m: State, g: nat, j: nat, w: Word)
    requires Inv(s) && CanEnter(s, req) && Inv(Enter(s, req)) && SameAbs(s, Enter(s, req))
    requires Obtained(Enter(s, req), i, m) && CanWriteTable(m, g, j)
    ensures Inv(WriteTable(m, g, j, w)) && SameAbs(s, WriteTable(m, g, j, w)) && SameRest(s, WriteTable(m, g, j, w))
  {
    hide Inv, SamePageAbs, CanEnter, CanWriteTable;
    ObtainedKeeps(Enter(s, req), i, m);
    WriteTableKeeps(m, g, j, w);
    SameAbsTrans(s, Enter(s, req), m);
    SameAbsTrans(s, m, WriteTable(m, g, j, w));
  }

  /** get_memory for a new role, then a write of word j of a frame g that the process owns. */
  lemma PinnedGrows(s: State, pcb: Pcb, ds: set<nat>, vs: set<nat>, n: nat, req: Request, i: int, m: State,
                    g: nat, j: nat, w: Word)
    requires Building(s, pcb, ds, vs, n) && NewRole(s.top, pcb, ds, vs, req)
    requires Obtained(Enter(s, req), i, m)
    requires g < FRAMES && j < 1024 && Own(s.roles[g], pcb.pid) && !s.roles[g].Page?
    ensures CanWriteTable(m, g, j)
    ensures var t := WriteTable(m, g, j, w);
      && Inv(t) && SameAbs(s, t) && t.handler.Idle? && SameRest(s, t)
      && Grows(s, t, pcb, ds, g, j)
      && t.roles == s.roles[i := req.role] && !Own(s.roles[i], pcb.pid)
      && t.tables == (if req.role.Table? then s.tables[(pcb.pid, req.role.d) := i] else s.tables)
      && t.mem[W(g, j)] == w
  {
    hide Inv, Base, Present, Dirty, Sectors, Location, NPages, SameAbs, Building, Addr, FrameOf, W, Obtained;
    EnterBuilding(s, pcb, ds, vs, n, req);
    var h := Enter(s, req);
    ObtainedRest(h, i, m);
    ObtainedPin(h, i, m);
    WriteTableOthers(m, g, j, w);
    WriteTableGrows(m, pcb, ds, g, j, w);
    PinnedKeeps(s, req, i, m, g, j, w);
  }

  lemma ObtainedRest(s: State, i: int, t: State)
    requires Obtained(s, i, t)
    ensures 0 <= i < FRAMES && t.procs == s.procs && t.top == s.top
  {
    hide Inv, Base, Present, Dirty, Sectors, Location, NPages, Addr, FrameOf, W;
  }

  ghost predicate SameRest(s: State, t: State) {
    t.procs == s.procs && t.top == s.top && t.waiting == s.waiting && |t.disk| == |s.disk|
  }

  predicate NewRole(top: nat, pcb: Pcb, ds: set<nat>, vs: set<nat>, req: Request) {
    && req.Pin?
    && ((req.role.Table? && req.role.d !in ds) || (req.role.Page? && StackPage(top, req.role.vpn) && req.role.vpn !in vs))
    && req.role.pid == pcb.pid
  }

  /** Frames may be pinned for a new role of the process that is being set up. */
  lemma EnterBuilding(s: State, pcb: Pcb, ds: set<nat>, vs: set<nat>, n: nat, req: Request)
    requires Building(s, pcb, ds, vs, n) && NewRole(s.top, pcb, ds, vs, req)
    ensures CanEnter(s, req) && Inv(Enter(s, req)) && SameAbs(s, Enter(s, req))
    ensures Inv(s) && Shape(s) && pcb.pid !in s.procs
  {
    if req.role in s.roles {
      var f :| 0 <= f < FRAMES && s.roles[f] == req.role;
      assert OwnFrame(s, pcb, ds, vs, f);
    }
    EnterKeeps(s, req);
  }

  /** create_table: get_memory for a new table, then the directory entry. */
  lemma TableAdded(s: State, pcb: Pcb, ds: set<nat>, vs: set<nat>, n: nat, d: nat, vaddr: Word, k: Pcb,
                   flags: Word, i: int, m: State)
    requires Building(s, pcb, ds, vs, n) && d < 1024 && d !in ds && Present(flags)
    requires Obtained(Enter(s, Pin(Table(pcb.pid, d), vaddr, k)), i, m)
    ensures CanWriteTable(m, FrameOf(pcb.pageDirectory), d)
    ensures var t := WriteTable(m, FrameOf(pcb.pageDirectory), d, Entry(Addr(i), flags));
      && (pcb.pid, d) in t.tables && t.tables[(pcb.pid, d)] == i
      && Advanced(s, t, pcb, ds + {d}, vs, n, FrameOf(pcb.pageDirectory), d)
  {
    hide Inv, Base, Present, Dirty, Sectors, Location, NPages, W, SameAbs;
    var df, req := FrameOf(pcb.pageDirectory), Pin(Table(pcb.pid, d), vaddr, k);
    PinnedGrows(s, pcb, ds, vs, n, req, i, m, df, d, Entry(Addr(i), flags));
    var t := WriteTable(m, df, d, Entry(Addr(i), flags));
    assert FreeSlot(s, pcb, ds, vs, n, df, d);
    GrowsBuilt(s, t, pcb, ds, vs, n, df, d);
    AddrBase(i);
    assert TableReady(t, pcb, d);
    forall f | 0 <= f < FRAMES
      ensures OwnFrame(t, pcb, ds + {d}, vs, f)
    {
      assert OwnFrame(s, pcb, ds, vs, f);
    }
  }

  /** From s to t word j of frame g was written, and this much is built now. */
  ghost predicate Advanced(s: State, t: State, pcb: Pcb, ds: set<nat>, vs: set<nat>, n: nat, g: int, j: int) {
    Building(t, pcb, ds, vs, n) && SameAbs(s, t) && SameRest(s, t) && OtherWords(s, t, pcb, g, j)
  }

  /** Words of the directory, but word j of frame g, are the same. */
  ghost predicate OtherWords(s: State, t: State, pcb: Pcb, g: int, j: int) {
    && Shape(s) && Shape(t) && DirectoryReady(s, pcb)
    && forall d :: 0 <= d < 1024 && (FrameOf(pcb.pageDirectory), d) != (g, j) ==>
         t.mem[W(FrameOf(pcb.pageDirectory), d)] == s.mem[W(FrameOf(pcb.pageDirectory), d)]
  }

  lemma StackSlotFree(s: State, pcb: Pcb, ds: set<nat>, vs: set<nat>, v: nat)
    requires Built(s, pcb, ds, vs, 0) && StackPage(s.top, v) && v !in vs && Dir(v) in ds
    ensures FreeSlot(s, pcb, ds, vs, 0, s.tables[(pcb.pid, Dir(v))], Slot(v))
  {
    hide Dir, Slot, PageOf, Base, Present, Addr, FrameOf, W, StackReady;
    assert TableReady(s, pcb, Dir(v));
    forall u: nat | u in vs
      ensures TableReady(s, pcb, Dir(u))
      ensures (s.tables[(pcb.pid, Dir(v))], Slot(v)) != (s.tables[(pcb.pid, Dir(u))], Slot(u))
    {
      assert TableReady(s, pcb, Dir(u));
      if Dir(u) == Dir(v) && Slot(u) == Slot(v) {
        SamePage(u, v);
      }
    }
  }

  /** get_memory for a stack page, then its table entry. */
  lemma StackAdded(s: State, pcb: Pcb, ds: set<nat>, vs: set<nat>, v: nat, vaddr: Word, k: Pcb, i: int, m: State)
    requires Building(s, pcb, ds, vs, 0) && StackPage(s.top, v) && v !in vs && Dir(v) in ds
    requires Obtained(Enter(s, Pin(Page(pcb.pid, v), vaddr, k)), i, m)
    ensures m.tables == s.tables && CanWriteTable(m, s.tables[(pcb.pid, Dir(v))], Slot(v))
    ensures Advanced(s, WriteTable(m, s.tables[(pcb.pid, Dir(v))], Slot(v), Entry(Addr(i), USER_RW)),
                     pcb, ds, vs + {v}, 0, s.tables[(pcb.pid, Dir(v))], Slot(v))
  {
    assert Present(USER_RW);
    hide Inv, Base, Present, Dirty, Sectors, Location, NPages, W, SameAbs, Obtained, Addr, FrameOf, StackReady;
    var tf, req := s.tables[(pcb.pid, Dir(v))], Pin(Page(pcb.pid, v), vaddr, k);
    PinnedGrows(s, pcb, ds, vs, 0, req, i, m, tf, Slot(v), Entry(Addr(i), USER_RW));
    var t := WriteTable(m, tf, Slot(v), Entry(Addr(i), USER_RW));
    StackSlotFree(s, pcb, ds, vs, v);
    GrowsBuilt(s, t, pcb, ds, vs, 0, tf, Slot(v));
    StackPteReady(t, pcb, v, i);
    StackOwn(s, t, pcb, ds, vs, v, i);
    hide OwnFrame;
  }

  lemma StackOwn(s: State, t: State, pcb: Pcb, ds: set<nat>, vs: set<nat>, v: nat, i: nat)
    requires Built(s, pcb, ds, vs, 0) && Built(t, pcb, ds, vs + {v}, 0) && i < FRAMES
    requires forall f :: 0 <= f < FRAMES ==> OwnFrame(s, pcb, ds, vs, f)
    requires t.roles == s.roles[i := Page(pcb.pid, v)] && FrameOf(Base(Pte(t, pcb, v))) == i
    requires forall d :: d in ds ==> t.tables[(pcb.pid, d)] == s.tables[(pcb.pid, d)]
    requires v !in vs && forall u :: u in vs ==> Pte(t, pcb, u) == Pte(s, pcb, u)
    ensures forall f :: 0 <= f < FRAMES ==> OwnFrame(t, pcb, ds, vs + {v}, f)
  {
    hide Dir, Slot, PageOf, Base, Present, Addr, FrameOf, W, StackReady;
    forall f | 0 <= f < FRAMES
      ensures OwnFrame(t, pcb, ds, vs + {v}, f)
    {
      assert OwnFrame(s, pcb, ds, vs, f);
    }
  }

  lemma StackPteReady(t: State, pcb: Pcb, v: nat, i: nat)
    requires Shape(t) && DirectoryReady(t, pcb) && TableReady(t, pcb, Dir(v)) && i < FRAMES
    requires Pte(t, pcb, v) == Entry(Addr(i), USER_RW) && t.roles[i] == Page(pcb.pid, v)
    ensures StackReady(t, pcb, v) && FrameOf(Base(Pte(t, pcb, v))) == i
  {
    AddrBase(i);
    FrameOfAddr(i);
  }

  /** The entry of the next page of the image is written as absent. */
  lemma ImageAdded(s: State, pcb: Pcb, ds: set<nat>, vs: set<nat>, n: nat, v: nat, d: nat)
    requires Building(s, pcb, ds, vs, n) && v == ENTRY_PAGE + n && d == Dir(v) && d in ds
    requires forall u :: u in vs ==> Dir(u) != d
    ensures CanWriteTable(s, s.tables[(pcb.pid, d)], Slot(v))
    ensures Advanced(s, WriteTable(s, s.tables[(pcb.pid, d)], Slot(v), Entry(0, ABSENT_RW)), pcb, ds, vs, n + 1,
                   s.tables[(pcb.pid, d)], Slot(v))
  {
    hide Base, Present, Dirty, Sectors, Location, NPages, SamePageAbs, Addr, FrameOf, W;
    var tf := s.tables[(pcb.pid, d)];
    WriteTableKeeps(s, tf, Slot(v), Entry(0, ABSENT_RW));
    WriteTableOthers(s, tf, Slot(v), Entry(0, ABSENT_RW));
    var t := WriteTable(s, tf, Slot(v), Entry(0, ABSENT_RW));
    WriteTableGrows(s, pcb, ds, tf, Slot(v), Entry(0, ABSENT_RW));
    ImageSlotFree(s, pcb, ds, vs, n, v, d);
    hide Inv, SameAbs;
    GrowsBuilt(s, t, pcb, ds, vs, n, tf, Slot(v));
    forall f | 0 <= f < FRAMES
      ensures OwnFrame(t, pcb, ds, vs, f)
    {
      assert OwnFrame(s, pcb, ds, vs, f);
    }
    assert TableReady(t, pcb, d) && AbsentEntry(Pte(t, pcb, v));
  }

  lemma ImageSlotFree(s: State, pcb: Pcb, ds: set<nat>, vs: set<nat>, n: nat, v: nat, d: nat)
    requires Built(s, pcb, ds, vs, n) && v == ENTRY_PAGE + n && d == Dir(v) && d in ds
    requires forall u :: u in vs ==> Dir(u) != d
    ensures FreeSlot(s, pcb, ds, vs, n, s.tables[(pcb.pid, d)], Slot(v))
  {
    hide Dir, Slot, PageOf, Base, Present, Addr, FrameOf, W;
    forall u: nat | u in vs || Entered(u, n)
      ensures TableReady(s, pcb, Dir(u)) && (s.tables[(pcb.pid, d)], Slot(v)) != (s.tables[(pcb.pid, Dir(u))], Slot(u))
    {
      assert TableReady(s, pcb, Dir(u)) && TableReady(s, pcb, d);
      if Dir(u) == d && Slot(u) == Slot(v) {
        SamePage(u, v);
      }
    }
  }

  lemma WriteTableGrows(s: State, pcb: Pcb, ds: set<nat>, g: nat, j: nat, w: Word)
    requires CanWriteTable(s, g, j)
    ensures Grows(s, WriteTable(s, g, j, w), pcb, ds, g, j)
    ensures 0 <= W(g, j) < MEM_WORDS && WriteTable(s, g, j, w).mem[W(g, j)] == w
  {
  }

  // ---- The beginning and the end of setting up -----------------------------------------------

  /** No frame has a role for this process yet. */
  ghost predicate FreshPid(s: State, pid: int) {
    forall f :: 0 <= f < |s.roles| ==> !Own(s.roles[f], pid)
  }

  lemma EnterFresh(s: State, pcb: Pcb)
    requires Inv(s) && s.handler.Idle? && pcb.pid !in s.procs && FreshPid(s, pcb.pid)
    ensures var req := Pin(Directory(pcb.pid), 0, pcb);
      CanEnter(s, req) && Inv(Enter(s, req)) && SameAbs(s, Enter(s, req))
  {
    EnterKeeps(s, Pin(Directory(pcb.pid), 0, pcb));
  }

  /** get_memory for the page directory. */
  lemma DirectoryAdded(s: State, p: Pcb, i: int, m: State)
    requires Inv(s) && s.handler.Idle? && p.pid !in s.procs && FreshPid(s, p.pid)
    requires Obtained(Enter(s, Pin(Directory(p.pid), 0, p)), i, m)
    ensures Building(m, p.(pageDirectory := Addr(i)), {}, {}, 0) && SameAbs(s, m) && SameRest(s, m)
    ensures forall f, j :: 0 <= f < FRAMES && 0 <= j < 1024 && s.roles[f].Kernel? ==>
      m.roles[f].Kernel? && m.mem[W(f, j)] == s.mem[W(f, j)]
  {
    hide Base, Present, Dirty, Sectors, Location, NPages, SamePageAbs, W;
    EnterFresh(s, p);
    var h := Enter(s, Pin(Directory(p.pid), 0, p));
    ObtainedKeeps(h, i, m);
    ObtainedPin(h, i, m);
    SameAbsTrans(s, h, m);
    FrameOfAddr(i);
    var pcb := p.(pageDirectory := Addr(i));
    forall f | 0 <= f < FRAMES
      ensures OwnFrame(m, pcb, {}, {}, f)
    {
    }
  }

  /** An entry of the kernel's directory is copied. */
  lemma EntryCopied(s: State, pcb: Pcb, j: nat, w: Word)
    requires Building(s, pcb, {}, {}, 0) && j < 1024
    ensures var df := FrameOf(pcb.pageDirectory);
      && CanWriteTable(s, df, j)
      && Advanced(s, WriteTable(s, df, j, w), pcb, {}, {}, 0, df, j)
      && 0 <= W(df, j) < MEM_WORDS && WriteTable(s, df, j, w).mem[W(df, j)] == w
      && KernelWords(s, WriteTable(s, df, j, w))
  {
    hide Base, Present, Dirty, Sectors, Location, NPages, SamePageAbs, Addr, W;
    var df := FrameOf(pcb.pageDirectory);
    WriteTableKeeps(s, df, j, w);
    WriteTableOthers(s, df, j, w);
    WriteTableGrows(s, pcb, {}, df, j, w);
    var t := WriteTable(s, df, j, w);
    hide Inv, SameAbs;
    GrowsBuilt(s, t, pcb, {}, {}, 0, df, j);
    forall f | 0 <= f < FRAMES
      ensures OwnFrame(t, pcb, {}, {}, f)
    {
      assert OwnFrame(s, pcb, {}, {}, f);
    }
  }

  /** Frame f, if the kernel's, is still its own, and word j of it is unchanged. */
  ghost predicate KernelWord(s: State, t: State, f: nat, j: nat)
    requires Shape(s) && Shape(t) && f < FRAMES && j < 1024
  {
    s.roles[f].Kernel? ==> t.roles[f].Kernel? && t.mem[W(f, j)] == s.mem[W(f, j)]
  }

  ghost predicate KernelWords(s: State, t: State) {
    && Shape(s) && Shape(t)
    && forall f: nat, j: nat :: f < FRAMES && j < 1024 ==> KernelWord(s, t, f, j)
  }

  lemma KernelWordsRefl(s: State)
    requires Shape(s)
    ensures KernelWords(s, s)
  {
  }

  lemma KernelWordsTrans(s: State, t: State, u: State)
    requires KernelWords(s, t) && KernelWords(t, u)
    ensures KernelWords(s, u)
  {
    forall f: nat, j: nat | f < FRAMES && j < 1024
      ensures KernelWord(s, u, f, j)
    {
      assert KernelWord(s, t, f, j) && KernelWord(t, u, f, j);
    }
  }

  lemma KernelWordIs(s: State, t: State, f: nat, j: nat)
    requires KernelWords(s, t) && f < FRAMES && j < 1024 && s.roles[f].Kernel?
    ensures t.roles[f].Kernel? && t.mem[W(f, j)] == s.mem[W(f, j)]
  {
    assert KernelWord(s, t, f, j);
  }

  function StackPages(top: nat): set<nat>
    requires top >= 1
  {
    {top, top - 1}
  }

  /** Everything an image page and a stack page need has been built. */
  ghost predicate AllBuilt(s: State, pcb: Pcb, ds: set<nat>) {
    && s.top >= 1 && Building(s, pcb, ds, StackPages(s.top), NPages(pcb))
    && ExtentOnDisk(pcb, s.disk) && Layout(pcb, s.top)
    && forall p :: p in s.procs ==> Disjoint(s.procs[p], pcb)
  }

  lemma StackNotImage(s: State, pcb: Pcb, v: nat)
    requires Shape(s) && Layout(pcb, s.top) && (StackPage(s.top, v) || ImagePage(pcb, v))
    ensures v < 0x10_0000 && !(StackPage(s.top, v) && ImagePage(pcb, v))
  {
  }

  lemma SetUpReaches(s: State, pcb: Pcb, v: nat)
    requires Shape(s) && DirectoryReady(s, pcb) && TableReady(s, pcb, Dir(v)) && v < 0x10_0000
    ensures Reaches(SetUp(s, pcb), pcb.pid, v)
    ensures PteAt(SetUp(s, pcb), pcb.pid, v) == W(s.tables[(pcb.pid, Dir(v))], Slot(v))
  {
    hide Base, Present, Dirty, FrameOf, Addr, W;
  }

  lemma ImagePteBuilt(s: State, pcb: Pcb, ds: set<nat>, v: nat)
    requires AllBuilt(s, pcb, ds) && ImagePage(pcb, v)
    ensures Shape(s) && DirectoryReady(s, pcb) && TableReady(s, pcb, Dir(v)) && AbsentEntry(Pte(s, pcb, v))
    ensures v < 0x10_0000 && !StackPage(s.top, v)
  {
    StackNotImage(s, pcb, v);
    hide Base, Present, Dirty, Sectors, Location, FrameOf, Addr, W, Inv, SpaceReady, NPages, Layout, Disjoint, AbsentEntry;
    assert Entered(v, NPages(pcb));
  }

  /** Page v of the image has an entry, and the entry says that it is absent. */
  ghost predicate AbsentPage(t: State, pid: int, v: nat) {
    && Good(t, pid, v) && !Resident(t, pid, v) && AbsentEntry(t.mem[PteAt(t, pid, v)])
  }

  lemma AbsentNotPresent(w: Word)
    requires AbsentEntry(w)
    ensures !Present(w)
  {
  }

  lemma AbsentPageReady(s: State, pcb: Pcb, v: nat)
    requires Shape(s) && DirectoryReady(s, pcb) && TableReady(s, pcb, Dir(v)) && AbsentEntry(Pte(s, pcb, v))
    requires v < 0x10_0000 && !StackPage(s.top, v) && ImagePage(pcb, v) && ExtentOnDisk(pcb, s.disk) && s.handler.Idle?
    ensures AbsentPage(SetUp(s, pcb), pcb.pid, v)
  {
    hide Base, Present, Dirty, Sectors, Location, FrameOf, Addr, W, NPages, AbsentEntry;
    SetUpReaches(s, pcb, v);
    AbsentNotPresent(Pte(s, pcb, v));
  }

  lemma ImagePageReady(s: State, pcb: Pcb, ds: set<nat>, v: nat)
    requires AllBuilt(s, pcb, ds) && ImagePage(pcb, v)
    ensures AbsentPage(SetUp(s, pcb), pcb.pid, v)
  {
    ImagePteBuilt(s, pcb, ds, v);
    AbsentPageReady(s, pcb, v);
  }

  lemma StackPageReady(s: State, pcb: Pcb, ds: set<nat>, v: nat)
    requires AllBuilt(s, pcb, ds) && StackPage(s.top, v)
    ensures var t := SetUp(s, pcb);
      && Reaches(t, pcb.pid, v) && PageOk(t, pcb.pid, v) && Resident(t, pcb.pid, v)
      && FrameFor(t, pcb.pid, v) == FrameOf(Base(Pte(s, pcb, v)))
  {
    hide Base, Present, Dirty, Sectors, Location, FrameOf, Addr, W, Inv, SpaceReady, NPages;
    StackNotImage(s, pcb, v);
    assert v in StackPages(s.top) && StackReady(s, pcb, v);
  }

  lemma BuiltReady(s: State, pcb: Pcb, ds: set<nat>)
    requires AllBuilt(s, pcb, ds)
    ensures CanSetUp(s, pcb)
  {
    hide Base, Present, Dirty, Sectors, Location, FrameOf, Addr, W, NPages;
    var t := SetUp(s, pcb);
    forall v: nat | User(t.procs, t.top, pcb.pid, v)
      ensures Reaches(t, pcb.pid, v) && PageOk(t, pcb.pid, v) && (ImagePage(pcb, v) ==> !Resident(t, pcb.pid, v))
    {
      if ImagePage(pcb, v) {
        ImagePageReady(s, pcb, ds, v);
      } else {
        StackPageReady(s, pcb, ds, v);
      }
    }
    forall f | 0 <= f < FRAMES && t.roles[f].Page? && t.roles[f].pid == pcb.pid
      ensures StackPage(t.top, t.roles[f].vpn) && FrameFor(t, pcb.pid, t.roles[f].vpn) == f
    {
      assert OwnFrame(s, pcb, ds, StackPages(s.top), f);
      StackPageReady(s, pcb, ds, t.roles[f].vpn);
    }
  }

  lemma DirectoryFacts(s: State, pcb: Pcb, ds: set<nat>, vs: set<nat>, n: nat)
    requires Building(s, pcb, ds, vs, n)
    ensures 0 <= FrameOf(pcb.pageDirectory) < FRAMES && Base(pcb.pageDirectory) == pcb.pageDirectory
  {
  }

  /** No table is linked at the image's directory indices from lo on. */
  ghost predicate Unlinked(s: State, pcb: Pcb, lo: nat)
    requires Shape(s) && DirectoryReady(s, pcb)
  {
    forall d :: lo <= d <= 4 + NPages(pcb) / 1024 && d < 1024 ==> !Present(s.mem[W(FrameOf(pcb.pageDirectory), d)])
  }

  /** All tables of the image come before the table of the stack. */
  predicate LowImage(pcb: Pcb, top: nat) { 4 + NPages(pcb) / 1024 < Dir(top) }

  lemma StaysUnlinked(s: State, t: State, pcb: Pcb, lo: nat, g: int, j: int)
    requires OtherWords(s, t, pcb, g, j) && DirectoryReady(t, pcb) && Unlinked(s, pcb, lo)
    requires g == FrameOf(pcb.pageDirectory) ==> j < lo || j > 4 + NPages(pcb) / 1024
    ensures Unlinked(t, pcb, lo)
  {
    hide Dir, Slot, PageOf, Base, Present, FrameOf, Addr, W, NPages;
  }

  function StackPagesUpTo(top: nat, j: nat): set<nat>
    requires top >= 1
  {
    if j == 0 then {} else if j == 1 then {top} else StackPages(top)
  }

  /** The directory indices that are linked after i tables of the image. */
  function LinkedTables(top: nat, i: nat): (r: set<nat>)
    ensures forall d :: d in r <==> d == Dir(top) || 4 <= d < 4 + i
  {
    if i == 0 then {Dir(top)} else LinkedTables(top, i - 1) + {3 + i}
  }

  /** The directory of pcb in t has the entries that the kernel's directory has in s. */
  ghost predicate CopiedFrom(s: State, kernel: Pcb, t: State, pcb: Pcb) {
    && KernelDirectory(s, kernel) && Shape(t) && DirectoryReady(t, pcb)
    && forall k :: 0 <= k < 1024 ==>
         t.mem[W(FrameOf(pcb.pageDirectory), k)] == s.mem[W(FrameOf(kernel.pageDirectory), k)]
  }

  /** The kernel's directory, set up by init_memory, is a frame of its own. */
  ghost predicate KernelDirectory(s: State, kernel: Pcb) {
    var kf := FrameOf(kernel.pageDirectory);
    && Shape(s) && 0 <= kf < FRAMES && kernel.pageDirectory == Addr(kf) && s.roles[kf] == Kernel
  }

  lemma BuildingFacts(s: State, pcb: Pcb, ds: set<nat>, vs: set<nat>, n: nat)
    requires Building(s, pcb, ds, vs, n)
    ensures Inv(s) && Shape(s) && s.handler.Idle? && pcb.pid !in s.procs
    ensures DirectoryReady(s, pcb) && SameAbs(s, s)
  {
  }

  /** A linked table has a frame of its own. */
  lemma TableFacts(s: State, pcb: Pcb, ds: set<nat>, vs: set<nat>, n: nat, d: nat)
    requires Building(s, pcb, ds, vs, n) && d in ds
    ensures (pcb.pid, d) in s.tables && s.tables[(pcb.pid, d)] < FRAMES
    ensures s.tables[(pcb.pid, d)] != FrameOf(pcb.pageDirectory)
  {
    assert TableReady(s, pcb, d);
  }

  lemma WordIndex(f: nat)
    requires f < FRAMES
    ensures (Addr(f) - MEM_START) / 4 == W(f, 0) && 0 <= W(f, 0) && W(f, 1024) <= MEM_WORDS
  {
  }

  lemma ImageFits(pcb: Pcb, top: nat)
    requires LowImage(pcb, top) && top < 0x10_0000
    ensures (ENTRY_PAGE + NPages(pcb)) * 4096 < 0x1_0000_0000
    ensures forall v: nat :: StackPage(top, v) && top % 1024 != 0 ==> Dir(v) > 4 + NPages(pcb) / 1024
  {
  }

  /** The address of page i * 1024 + k of the image, and its indices. */
  lemma ImageAddress(pcb: Pcb, top: nat, i: nat, k: nat)
    requires LowImage(pcb, top) && top < 0x10_0000
    requires i * 1024 + k <= NPages(pcb) && k <= 1024
    ensures i <= NPages(pcb) / 1024 && 4 + i < 1023
    ensures (ENTRY_PAGE + i * 1024 + k) * PAGE_SIZE < 0x1_0000_0000
    ensures PageOf((ENTRY_PAGE + i * 1024 + k) * PAGE_SIZE) == ENTRY_PAGE + i * 1024 + k
    ensures k < 1024 ==> Dir(ENTRY_PAGE + i * 1024 + k) == 4 + i
  {
  }

  lemma PageCount(pcb: Pcb)
    ensures NPages(pcb) == (pcb.swapSize + SECTORS_PER_PAGE - 1) / SECTORS_PER_PAGE
  {
  }

  /** Each table before the last one begins within the image. */
  lemma TableBegins(n: nat, i: nat)
    requires i < n / 1024 + 1
    ensures i * 1024 <= n
  {
  }

  lemma ImageTableSlot(pcb: Pcb, top: nat, i: nat)
    requires LowImage(pcb, top) && top < 0x10_0000 && i * 1024 <= NPages(pcb)
    ensures 4 + i < 1023 && Present(USER_RW) && (ENTRY_PAGE + i * 1024) * PAGE_SIZE < 0x1_0000_0000
    ensures Dir(PageOf((ENTRY_PAGE + i * 1024) * PAGE_SIZE)) == 4 + i
  {
    ImageAddress(pcb, top, i, 0);
  }

  /** What filling in an entry of table i of the image relies on. */
  lemma FillFacts(s: State, pcb: Pcb, i: nat, n: nat)
    requires s.top >= 1 && Building(s, pcb, LinkedTables(s.top, i + 1), StackPages(s.top), n)
    requires LowImage(pcb, s.top) && i <= NPages(pcb) / 1024
    ensures DirectoryReady(s, pcb) && Shape(s)
    ensures (pcb.pid, 4 + i) in s.tables && s.tables[(pcb.pid, 4 + i)] < FRAMES
    ensures s.tables[(pcb.pid, 4 + i)] != FrameOf(pcb.pageDirectory)
    ensures forall u: nat :: u in StackPages(s.top) ==> Dir(u) != 4 + i
    ensures var a := Addr(s.tables[(pcb.pid, 4 + i)]); Base(a) == a && FrameOf(a) == s.tables[(pcb.pid, 4 + i)]
  {
    ImageFits(pcb, s.top);
    assert TableReady(s, pcb, 4 + i);
    AddrBase(s.tables[(pcb.pid, 4 + i)]);
    FrameOfAddr(s.tables[(pcb.pid, 4 + i)]);
  }

  lemma AddrBase(i: nat)
    requires i < FRAMES
    ensures Base(Addr(i)) == Addr(i)
  {
  }

  /** The kernel's directory has no table where the image or the stack of pcb go. */
  ghost predicate KernelLow(s: State, kernel: Pcb, pcb: Pcb) {
    && KernelDirectory(s, kernel) && s.top < 0x10_0000
    && forall d :: (4 <= d <= 4 + NPages(pcb) / 1024 || d == Dir(s.top)) && 0 <= d < 1024 ==>
         !Present(s.mem[W(FrameOf(kernel.pageDirectory), d)])
  }

  // ---- The kernel's own directory ------------------------------------------------------------

  lemma LowBits(b: nat, m: nat)
    requires m < 4096
    ensures (b * 4096 + m) / 4096 == b && (b * 4096 + m) % 4096 == m
  {
  }

  lemma ThirdBit(b: nat, q: nat, r: nat)
    requires r < 8
    ensures ((b * 4096 + q * 8 + r) / 4) % 2 == r / 4
  {
    assert (b * 4096 + q * 8 + r) / 4 == 2 * (b * 512 + q) + r / 4;
    Parity(b * 512 + q, r / 4);
  }

  lemma UserBit(w: Word)
    requires (w / 4) % 2 == 0
    ensures (w + 4) / 4096 == w / 4096
    ensures (w + 4) % 4096 == w % 4096 + 4
  {
    var b, m := w / 4096, w % 4096;
    var q, r := m / 8, m % 8;
    ThirdBit(b, q, r);
    assert r < 4;
    LowBits(b, m + 4);
  }

  /** w | PE_US */
  function WithUser(w: Word): (r: Word)
    ensures Present(r) == Present(w) && Base(r) == Base(w)
  {
    if (w / 4) % 2 == 1 then w else UserBit(w); KeepsBase(w, w + 4); Parity(2, w); w + 4
  }

  /** The frame kf is the kernel's directory, with the table in frame tf as its one entry. */
  ghost predicate OneTable(s: State, kernel: Pcb, kf: nat, tf: nat) {
    && Shape(s) && kf < FRAMES && tf < FRAMES && kf != tf
    && kernel.pageDirectory == Addr(kf) && s.roles[kf] == Kernel && s.roles[tf] == Kernel
    && Present(s.mem[W(kf, 0)]) && Base(s.mem[W(kf, 0)]) == Addr(tf)
    && forall d :: 1 <= d < 1024 ==> !Present(s.mem[W(kf, d)])
  }

  /** With that directory every process whose image ends below the stack can be set up. */
  lemma OneTableIsLow(s: State, kernel: Pcb, kf: nat, tf: nat, p: Pcb)
    requires OneTable(s, kernel, kf, tf) && Layout(p, s.top)
    ensures KernelLow(s, kernel, p)
  {
    FrameOfAddr(kf);
    hide W, Addr, FrameOf, Base, Present;
  }

  /** A word of the kernel's table, or another entry of its directory, changes. */
  lemma OneTableWrite(s: State, kernel: Pcb, kf: nat, tf: nat, f: nat, i: nat, w: Word)
    requires OneTable(s, kernel, kf, tf) && (f == kf || f == tf) && i < 1024
    requires f == kf ==> i == 0 && Present(w) && Base(w) == Addr(tf)
    ensures CanWriteTable(s, f, i) && OneTable(WriteTable(s, f, i, w), kernel, kf, tf)
    ensures forall j :: 0 <= j < 1024 && (f, i) != (tf, j) ==> WriteTable(s, f, i, w).mem[W(tf, j)] == s.mem[W(tf, j)]
    ensures WriteTable(s, f, i, w).mem[W(f, i)] == w
  {
    hide Addr, FrameOf, Base, Present;
  }

  /** Where the code finds a directory entry. */
  lemma DirectoryWord(s: State, pcb: Pcb, ds: set<nat>, vs: set<nat>, n: nat, d: nat)
    requires Building(s, pcb, ds, vs, n) && d < 1024
    ensures var df := FrameOf(pcb.pageDirectory);
      && CanWriteTable(s, df, d) && 0 <= W(df, d) < MEM_WORDS && (pcb.pageDirectory - MEM_START) / 4 + d == W(df, d)
      && Base(pcb.pageDirectory) == pcb.pageDirectory
  {
    hide Inv;
    AddrIs(FrameOf(pcb.pageDirectory));
  }

  lemma DirectoryPlace(pcb: Pcb, d: nat)
    requires 0 <= FrameOf(pcb.pageDirectory) < FRAMES && Base(pcb.pageDirectory) == pcb.pageDirectory && d < 1024
    ensures (pcb.pageDirectory - MEM_START) / 4 + d == W(FrameOf(pcb.pageDirectory), d)
    ensures 0 <= W(FrameOf(pcb.pageDirectory), d) < MEM_WORDS
    ensures forall w: Word :: Base(Base(w)) == Base(w)
  {
  }

  lemma OneTableFacts(s: State, kernel: Pcb, kf: nat, tf: nat)
    requires OneTable(s, kernel, kf, tf)
    ensures Shape(s) && kf < FRAMES && tf < FRAMES && kf != tf && kernel.pageDirectory == Addr(kf)
    ensures FrameOf(Addr(tf)) == tf && Base(Addr(tf)) == Addr(tf) && FrameOf(Addr(kf)) == kf
  {
    AddrIs(kf);
    AddrIs(tf);
  }

  lemma AllInPool()
    ensures forall f, j :: 0 <= f < FRAMES && 0 <= j < 1024 ==> 0 <= W(f, j) < MEM_WORDS
  {
  }

  lemma IdentityIndex(x: nat)
    requires x < 1024
    ensures x * PAGE_SIZE % 0x40_0000 / 4096 == x && x * PAGE_SIZE / 0x40_0000 == 0
  {
  }

  lemma WordFrom(f: nat, i: nat)
    ensures W(f, 0) + i == W(f, i)
  {
  }

  lemma UserEntry(s: State, kernel: Pcb, kf: nat, tf: nat)
    requires OneTable(s, kernel, kf, tf)
    ensures var w := WithUser(s.mem[W(kf, 0)]); Present(w) && Base(w) == Addr(tf)
  {
  }

  /** The first table is entered in the kernel's directory. */
  lemma LinkTable(s: State, t: State, kernel: Pcb, e: Word)
    requires Shape(s) && Shape(t) && kernel.pageDirectory == Addr(0) && s.roles[0] == Kernel
    requires t.roles == s.roles[1 := Kernel] && Present(e) && Base(e) == Addr(1)
    requires forall j :: 0 <= j < 1024 ==> s.mem[W(0, j)] == 0 && t.mem[W(0, j)] == s.mem[W(0, j)]
    ensures CanWriteTable(t, 0, 0) && OneTable(WriteTable(t, 0, 0, e), kernel, 0, 1)
  {
  }

  lemma StartsUnlinked(s: State, kernel: Pcb, p: Pcb, t: State, pcb: Pcb)
    requires KernelLow(s, kernel, p) && NPages(pcb) == NPages(p) && CopiedFrom(s, kernel, t, pcb)
    ensures Unlinked(t, pcb, 4) && !Present(t.mem[W(FrameOf(pcb.pageDirectory), Dir(s.top))])
  {
    hide Base, Present, Dirty, FrameOf, Addr, NPages, W;
  }

  lemma LayoutIsLow(pcb: Pcb, top: nat)
    requires Layout(pcb, top)
    ensures LowImage(pcb, top)
  {
  }

  lemma SameAbsRefl(s: State)
    requires Inv(s)
    ensures SameAbs(s, s)
  {
  }

  lemma KernelFacts(s: State, kernel: Pcb, p: Pcb)
    requires Inv(s) && KernelLow(s, kernel, p)
    ensures KernelDirectory(s, kernel) && Shape(s)
  {
  }

  lemma FreshAgain(s: State, pcb: Pcb, vpn: nat)
    requires FreshPage(s, SetUp(s, pcb), pcb, vpn)
    ensures FreshPage(SetUp(s, pcb), SetUp(s, pcb), pcb, vpn)
  {
  }

  /** The layout of an address space does not depend on where its directory is. */
  lemma OnlyDirectory(p: Pcb, pcb: Pcb, top: nat, s: State, t: State)
    requires pcb == p.(pageDirectory := pcb.pageDirectory) && SameRest(s, t)
    ensures NPages(pcb) == NPages(p) && Layout(pcb, top) == Layout(p, top)
    ensures forall q :: q in s.procs ==> Disjoint(s.procs[q], pcb) == Disjoint(t.procs[q], p)
    ensures ExtentOnDisk(pcb, t.disk) == ExtentOnDisk(p, s.disk)
  {
  }

  /** The number of image pages entered after i tables. */
  function PagesAfter(n: nat, i: nat): nat { if i * 1024 < n then i * 1024 else n }

  lemma NoPagesYet(n: nat)
    ensures PagesAfter(n, 0) == 0
  {
  }

  /** Since s, i tables of the image have been linked and filled. */
  ghost predicate ImagePartly(s: State, t: State, pcb: Pcb, i: nat) {
    && t.top >= 1 && SameAbs(s, t) && SameRest(s, t)
    && Building(t, pcb, LinkedTables(t.top, i), StackPages(t.top), PagesAfter(NPages(pcb), i))
    && Unlinked(t, pcb, 4 + i)
  }

  lemma ImageStarts(s: State, pcb: Pcb)
    requires s.top >= 1 && Building(s, pcb, {Dir(s.top)}, StackPages(s.top), 0) && Unlinked(s, pcb, 4)
    ensures ImagePartly(s, s, pcb, 0)
  {
    BuildingFacts(s, pcb, {Dir(s.top)}, StackPages(s.top), 0);
  }

  lemma ImageDone(s: State, t: State, pcb: Pcb)
    requires ImagePartly(s, t, pcb, NPages(pcb) / 1024 + 1)
    ensures t.top >= 1 && SameAbs(s, t) && SameRest(s, t) && t.handler.Idle?
    ensures exists ds :: Building(t, pcb, ds, StackPages(t.top), NPages(pcb))
  {
    assert Building(t, pcb, LinkedTables(t.top, NPages(pcb) / 1024 + 1), StackPages(t.top), NPages(pcb));
  }

  lemma NextTable(s: State, pcb: Pcb, i: nat)
    requires Shape(s) && DirectoryReady(s, pcb) && Unlinked(s, pcb, 4 + i) && LowImage(pcb, s.top)
    requires i * 1024 <= NPages(pcb)
    ensures 4 + i !in LinkedTables(s.top, i) && 4 + i < 1024
    ensures !Present(s.mem[W(FrameOf(pcb.pageDirectory), 4 + i)]) && Unlinked(s, pcb, 4 + i + 1)
  {
  }

  // ---- Image layout --------------------------------------------------------------------------

  const PROCESS_ENTRY: Word := 0x1000000

  /** a - b of unsigned 32-bit numbers. */
  function Minus32(a: nat, b: nat): nat { (a - b) % 0x1_0000_0000 }

  datatype Extent = Extent(location: nat, sectors: nat)

  /** The extent that get_entry_and_location computes for any address. */
  function ExtentAt(pcb: Pcb, vaddr: Word): Extent {
    var aligned := Minus32(vaddr, PROCESS_ENTRY) / 512 / SECTORS_PER_PAGE * SECTORS_PER_PAGE;
    Extent(pcb.swapLoc + aligned,
           if SECTORS_PER_PAGE + aligned > pcb.swapSize then Minus32(pcb.swapSize, aligned) else SECTORS_PER_PAGE)
  }

  lemma ImageExtent(pcb: Pcb, vaddr: Word)
    requires ImagePage(pcb, PageOf(vaddr))
    ensures ExtentAt(pcb, vaddr) == Extent(Location(pcb, PageOf(vaddr)), Sectors(pcb, PageOf(vaddr)))
  {
    assert vaddr >= PROCESS_ENTRY;
    assert (vaddr - PROCESS_ENTRY) / 512 / 8 == PageOf(vaddr) - ENTRY_PAGE;
  }

  /** An address outside the image gets an extent that is no part of the image: none, one of too
    * many sectors, or one behind the image. */
  lemma ExtentIffImage(pcb: Pcb, vaddr: Word)
    requires ENTRY_PAGE + NPages(pcb) <= 0x10_0000
    ensures var x := ExtentAt(pcb, vaddr);
            ImagePage(pcb, PageOf(vaddr)) <==>
            0 < x.sectors <= SECTORS_PER_PAGE && x.location + x.sectors <= pcb.swapLoc + pcb.swapSize
  {
    if ImagePage(pcb, PageOf(vaddr)) {
      ImageExtent(pcb, vaddr);
    } else {
      OutsideExtent(pcb, vaddr);
    }
  }

  lemma OutsideExtent(pcb: Pcb, vaddr: Word)
    requires ENTRY_PAGE + NPages(pcb) <= 0x10_0000 && !ImagePage(pcb, PageOf(vaddr))
    ensures var x := ExtentAt(pcb, vaddr); x.location >= pcb.swapLoc + pcb.swapSize && (x.sectors == 0 || x.sectors > SECTORS_PER_PAGE)
  {
    var offset := Minus32(vaddr, PROCESS_ENTRY);
    assert offset / 512 / 8 == offset / 4096;
    assert offset / 4096 >= NPages(pcb);
  }

  /** The extents of the pages of an image tile the image: every word of it lies in exactly one
    * page, each page begins where the one before ends, and the last one ends with the image. */
  lemma ExtentsTile(pcb: Pcb, i: nat)
    requires InExtent(pcb, i)
    ensures var k := i - pcb.swapLoc * 128; var v := ENTRY_PAGE + k / 1024;
      && ImagePage(pcb, v) && k % 1024 < Sectors(pcb, v) * 128 && DiskWord(pcb, v, k % 1024) == i
      && forall u: nat, j: nat :: ImagePage(pcb, u) && j < Sectors(pcb, u) * 128 && DiskWord(pcb, u, j) == i ==>
           u == v && j == k % 1024
  {
    var k := i - pcb.swapLoc * 128;
    forall u: nat, j: nat | ImagePage(pcb, u) && j < Sectors(pcb, u) * 128 && DiskWord(pcb, u, j) == i
      ensures u == ENTRY_PAGE + k / 1024 && j == k % 1024
    {
      assert k == (u - ENTRY_PAGE) * 1024 + j;
    }
  }

  lemma ExtentsAdjoin(pcb: Pcb, v: nat)
    requires ImagePage(pcb, v)
    ensures Location(pcb, ENTRY_PAGE) == pcb.swapLoc
    ensures Location(pcb, v) + Sectors(pcb, v) ==
      if ImagePage(pcb, v + 1) then Location(pcb, v + 1) else pcb.swapLoc + pcb.swapSize
  {
  }
}
