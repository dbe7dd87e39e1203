/** paging/memory.c: the frame records, the physical memory that holds page tables as well
  * as pages, and the disk, updated in place. Every method is proved against the steps of
  * module Paging. The ghost fields only say what the frames are used for.
  */
module Memory {
  import opened Paging
  import opened PagingProofs
  import opened PagingRuns
  import opened PagingCalls

  datatype Option<T> = None | Some(value: T)

  const KERNEL_RW: Word := 3            // PE_P | PE_RW

  function DirectoryIndex(vaddr: Word): (d: nat)
    ensures d == Dir(PageOf(vaddr)) && d < 1024
  {
    vaddr / 0x40_0000
  }

  function TableIndex(vaddr: Word): (i: nat)
    ensures i == Slot(PageOf(vaddr))
  {
    vaddr % 0x40_0000 / 4096
  }

  class MemoryManager {
    var mem: array<Word>
    var memoryblocks: array<Pms>
    var nalloc: nat
    var disk: array<Word>
    ghost var procs: map<int, Pcb>
    ghost var waiting: map<int, Word>
    ghost var exited: set<int>
    ghost var handler: Handler
    ghost var roles: seq<Role>
    ghost var tables: map<(int, nat), nat>
    const processStack: Word
    const kernel: Pcb

    const top: nat := processStack / 4096

    ghost function View(): State
      reads this, mem, memoryblocks, disk
    {
      State(mem[..], memoryblocks[..], nalloc, disk[..], procs, waiting, exited, handler, roles, tables, top)
    }

    ghost predicate Valid()
      reads this, mem, memoryblocks, disk
    {
      mem != disk && Inv(View())
    }

    /** The machine before any frame is handed out. */
    constructor (disk: array<Word>, kernel: Pcb, processStack: Word)
      requires processStack / 4096 % 1024 != 0
      ensures Valid() && Init(View()) && handler.Idle? && this.disk == disk
    {
      this.disk, this.kernel, this.processStack := disk, kernel, processStack;
      mem := new Word[MEM_WORDS](_ => 0);
      memoryblocks := new Pms[FRAMES](_ => Pms(0, 0, kernel, false));
      nalloc := 0;
      procs, waiting, exited, tables := map[], map[], {}, map[];
      handler, roles := Idle, seq(FRAMES, _ => Unused);
      new;
      InitInv(View());
    }

    /** update_entry. A table is given by its physical address. */
    method UpdateEntry(table: Word, index: nat, paddr: Word, flags: Word)
      requires 0 <= FrameOf(table) < FRAMES && Base(table) == table && index < 1024 && mem.Length == MEM_WORDS
      modifies mem
      ensures mem[..] == old(mem[..])[W(FrameOf(table), index) := Entry(paddr, flags)]
    {
      mem[(table - MEM_START) / 4 + index] := Entry(paddr, flags);
    }

    /** get_entry_and_location, in 32-bit arithmetic */
    method GetEntryAndLocation(vaddr: Word, pcb: Pcb) returns (entry: Word, location: nat, sectors: nat)
      requires mem.Length == MEM_WORDS
      requires 0 <= FrameOf(pcb.pageDirectory) < FRAMES && Base(pcb.pageDirectory) == pcb.pageDirectory
      ensures Base(entry) == entry && FrameOf(entry) == TableFrame(mem[..], pcb.pageDirectory, PageOf(vaddr))
      ensures location == ExtentAt(pcb, vaddr).location && sectors == ExtentAt(pcb, vaddr).sectors
      ensures ImagePage(pcb, PageOf(vaddr)) ==>
                location == Location(pcb, PageOf(vaddr)) && sectors == Sectors(pcb, PageOf(vaddr))
    {
      hide Location, Sectors, NPages, ImagePage, Base;
      DirectoryPlace(pcb, DirectoryIndex(vaddr));
      if ImagePage(pcb, PageOf(vaddr)) {
        ImageExtent(pcb, vaddr);
      }
      entry := Base(mem[(pcb.pageDirectory - MEM_START) / 4 + DirectoryIndex(vaddr)]);
      var sectorOffset := Minus32(vaddr, PROCESS_ENTRY) / 512;
      var alignedOffset := sectorOffset / SECTORS_PER_PAGE;
      alignedOffset := alignedOffset * SECTORS_PER_PAGE;
      sectors := if SECTORS_PER_PAGE + alignedOffset > pcb.swapSize
                 then Minus32(pcb.swapSize, alignedOffset) else SECTORS_PER_PAGE;
      location := pcb.swapLoc + alignedOffset;
    }

    /** bzero of a page */
    method Zero(paddr: Word)
      requires 0 <= FrameOf(paddr) < FRAMES && Base(paddr) == paddr && mem.Length == MEM_WORDS
      modifies mem
      ensures mem[..] == Zeroed(old(mem[..]), FrameOf(paddr))
    {
      var start := (paddr - MEM_START) / 4;
      forall i | start <= i < start + 1024 {
        mem[i] := 0;
      }
      assert mem[..] == Zeroed(old(mem[..]), FrameOf(paddr));
    }

    method ReadSectors(location: nat, sectors: nat, paddr: Word)
      requires 0 <= FrameOf(paddr) < FRAMES && Base(paddr) == paddr && mem.Length == MEM_WORDS
      requires sectors <= 8 && (location + sectors) * SECTOR_WORDS <= disk.Length && mem != disk
      modifies mem
      ensures mem[..] == ScsiRead(old(mem[..]), disk[..], FrameOf(paddr), location, sectors)
    {
      FrameStart(paddr);
      hide ScsiRead, W, FrameOf, Base;
      var start := (paddr - MEM_START) / 4;
      forall i | start <= i < start + sectors * 128 {
        mem[i] := disk[location * 128 + (i - start)];
      }
      IsScsiRead(old(mem[..]), disk[..], FrameOf(paddr), location, sectors, mem[..]);
    }

    method WriteSectors(location: nat, sectors: nat, paddr: Word)
      requires 0 <= FrameOf(paddr) < FRAMES && Base(paddr) == paddr && mem.Length == MEM_WORDS
      requires sectors <= 8 && (location + sectors) * SECTOR_WORDS <= disk.Length && mem != disk
      modifies disk
      ensures disk[..] == ScsiWrite(old(disk[..]), mem[..], FrameOf(paddr), location, sectors)
    {
      FrameStart(paddr);
      hide ScsiWrite, W, FrameOf, Base;
      var start := (paddr - MEM_START) / 4;
      forall i | location * 128 <= i < (location + sectors) * 128 {
        disk[i] := mem[start + (i - location * 128)];
      }
      IsScsiWrite(old(disk[..]), mem[..], FrameOf(paddr), location, sectors, disk[..]);
    }

    /** The frames that may be evicted: each of them, once, in order. */
    method CollectUnpinned() returns (unpinned: array<nat>, counter: nat)
      requires memoryblocks.Length == FRAMES
      ensures fresh(unpinned) && counter <= unpinned.Length == FRAMES
      ensures forall k :: 0 <= k < counter ==> unpinned[k] < FRAMES && !memoryblocks[unpinned[k]].pinned
      ensures forall i :: 0 <= i < FRAMES && !memoryblocks[i].pinned ==> i in unpinned[..counter]
      ensures forall j, k :: 0 <= j < k < counter ==> unpinned[j] < unpinned[k]
    {
      unpinned := new nat[FRAMES];
      counter := 0;
      for i := 0 to FRAMES
        invariant counter <= i
        invariant forall k :: 0 <= k < counter ==> unpinned[k] < i && !memoryblocks[unpinned[k]].pinned
        invariant forall j, k :: 0 <= j < k < counter ==> unpinned[j] < unpinned[k]
        invariant forall j :: 0 <= j < i && !memoryblocks[j].pinned ==> j in unpinned[..counter]
      {
        if !memoryblocks[i].pinned {
          ghost var listed := unpinned[..counter];
          unpinned[counter] := i;
          counter := counter + 1;
          assert unpinned[..counter] == listed + [i];
        }
      }
    }

    /** Takes frame i from its owner, writing the page back if it is dirty. */
    method EvictFrame(i: nat)
      requires Valid() && CanEvict(View(), i)
      modifies mem, disk, this`handler, this`roles
      ensures Valid() && View() == Emptied(old(View()), i)
    {
      hide Inv, Present, Dirty, Sectors, Location, Addr, NPages;
      ghost var s := View();
      VictimFacts(s, i);
      EvictKeeps(s, i);
      var vaddr := memoryblocks[i].vaddr;
      var entry, location, sectors := GetEntryAndLocation(vaddr, memoryblocks[i].pcb);
      var index := TableIndex(vaddr);
      var dirty := Dirty(mem[(entry - MEM_START) / 4 + index]);
      UpdateEntry(entry, index, memoryblocks[i].paddr, 0);
      handler := if dirty then WritingBack(handler.req, i, memoryblocks[i].pcb, PageOf(vaddr))
                 else Empty(handler.req, i);
      roles := roles[i := InTransit];
      assert View() == Evict(s, i);
      if dirty {
        WriteVictim(i, location, sectors);
      }
    }

    /** The dirty page of the victim goes back to its place on disk. */
    method WriteVictim(i: nat, location: nat, sectors: nat)
      requires Valid() && handler.WritingBack? && handler.frame == i < FRAMES
      requires location == Location(handler.victim, handler.vpn) && sectors == Sectors(handler.victim, handler.vpn)
      requires memoryblocks[i].paddr == Addr(i) && FrameOf(Addr(i)) == i && Base(Addr(i)) == Addr(i)
      requires (location + sectors) * SECTOR_WORDS <= disk.Length
      modifies disk, this`handler
      ensures Valid() && View() == WriteBack(old(View()))
    {
      hide Inv, Location, Addr, NPages, Base, FrameOf;
      WriteBackEnabled(View());
      WriteBackKeeps(View());
      WriteSectors(location, sectors, memoryblocks[i].paddr);
      handler := Empty(handler.req, i);
      assert View() == WriteBack(old(View()));
    }

    method TakeFreeFrame() returns (i: nat)
      requires Valid() && CanTakeFree(View())
      modifies this`nalloc, this`handler, this`roles, memoryblocks
      ensures Valid() && View() == TakeFree(old(View())) && i == old(nalloc)
    {
      hide Base, Present, Dirty, Sectors, Location, FrameOf, Addr, NPages, W;
      TakeFreeKeeps(View());
      i := nalloc;
      AddrIs(i);
      memoryblocks[i] := memoryblocks[i].(paddr := MEM_START + nalloc * PAGE_SIZE);
      nalloc := nalloc + 1;
      roles := roles[i := InTransit];
      handler := Empty(handler.req, i);
      assert View() == TakeFree(old(View()));
    }

    /** Fills in the record of a frame that nobody uses and zeroes the frame. */
    method ClaimFrame(i: nat, pinned: bool, vaddr: Word, pcb: Pcb) returns (paddr: Word)
      requires Valid() && handler.Empty? && handler.frame == i
      requires Asks(View(), handler.req, pinned, vaddr, pcb)
      modifies mem, memoryblocks, this`handler, this`roles, this`tables
      ensures Valid() && CanClaim(old(View())) && View() == Claim(old(View()))
      ensures i < FRAMES && paddr == Addr(i) && FrameOf(paddr) == i
    {
      hide Base, Present, Dirty, Sectors, Location, FrameOf, Addr, NPages, W;
      assert FrameOk(View(), i);
      ClaimKeeps(View());
      AddrIs(i);
      paddr := memoryblocks[i].paddr;
      memoryblocks[i] := Pms(vaddr, paddr, pcb, pinned);
      Zero(paddr);
      ghost var req := handler.req;
      if req.Fault? {
        handler := Claimed(req, i);
      } else {
        handler := Idle;
        roles := roles[i := req.role];
        tables := if req.role.Table? then tables[(req.role.pid, req.role.d) := i] else tables;
      }
      assert View() == Claim(old(View()));
    }

    /** Nothing can be evicted: memory_lock is released and the caller exits. */
    ghost method LeaveAndExit()
      requires Valid() && CanGiveUp(View())
      modifies this`handler, this`waiting, this`exited
      ensures Valid() && View() == GiveUp(old(View()))
    {
      GiveUpKeeps(View());
      if handler.req.Fault? {
        waiting, exited := waiting - {handler.req.pid}, exited + {handler.req.pid};
      }
      handler := Idle;
      assert View() == GiveUp(old(View()));
    }

    /** get_memory. The result is None when every frame is pinned; the caller has then exited. */
    method GetMemory(pinned: bool, vaddr: Word, pcb: Pcb) returns (page: Option<Word>)
      requires Valid() && handler.Held? && Asks(View(), handler.req, pinned, vaddr, pcb)
      modifies this`nalloc, this`handler, this`roles, this`tables, this`waiting, this`exited
      modifies mem, memoryblocks, disk
      ensures Valid()
      ensures page.None? ==> CanGiveUp(old(View())) && View() == GiveUp(old(View()))
      ensures page.Some? ==>
                Obtained(old(View()), FrameOf(page.value), View()) && page.value == Addr(FrameOf(page.value))
    {
      hide Inv, Base, Present, Dirty, Sectors, Location, FrameOf, Addr, NPages, W;
      ghost var s := View();
      ShapeOf(s);
      var i := nalloc;
      if nalloc < FRAMES {
        i := TakeFreeFrame();
      } else {
        var unpinned, counter := CollectUnpinned();
        if counter == 0 {
          LeaveAndExit();
          return None;
        }
        var r: nat :| r < counter;
        i := unpinned[r];
        EvictEnabled(s, i);
        EvictFrame(i);
      }
      var paddr := ClaimFrame(i, pinned, vaddr, pcb);
      return Some(paddr);
    }

    /** The end of page_fault_handler: the page is read in and mapped. */
    method LoadAndMap(faultAddr: Word, entry: Word, location: nat, sectors: nat, page: Word, ghost pid: int)
      requires Valid() && handler.Claimed? && handler.req == Fault(pid, faultAddr)
      requires pid in procs && ImagePage(procs[pid], PageOf(faultAddr))
      requires Base(entry) == entry
      requires FrameOf(entry) == TableFrame(mem[..], procs[pid].pageDirectory, PageOf(faultAddr))
      requires location == Location(procs[pid], PageOf(faultAddr)) && sectors == Sectors(procs[pid], PageOf(faultAddr))
      requires handler.frame < FRAMES && page == Addr(handler.frame)
      modifies mem, this`handler, this`roles, this`waiting
      ensures Valid() && CanReadIn(old(View())) && CanMapIn(ReadIn(old(View())))
      ensures View() == MapIn(ReadIn(old(View())))
    {
      hide Inv, Base, Present, Dirty, Sectors, Location, FrameOf, Addr, NPages, W;
      ghost var c, req, i := View(), handler.req, handler.frame;
      ClaimedPage(c);
      AddrIs(i);
      ReadInKeeps(c);
      ReadSectors(location, sectors, page);
      handler := Loaded(req, i);
      ghost var l := View();
      assert l == ReadIn(c);
      LoadedPage(l);
      MapInKeeps(l);
      SameTable(c);
      var index := TableIndex(faultAddr);
      UpdateEntry(entry, index, page, USER_RW);
      roles := roles[i := Page(pid, PageOf(faultAddr))];
      waiting := waiting - {pid};
      handler := Idle;
      assert View() == MapIn(l);
    }

    /** page_fault_handler. The result is false when the process has exited. */
    method PageFaultHandler(currentRunning: Pcb, faultAddr: Word, errorCode: Word) returns (resumed: bool)
      requires Valid() && handler.Idle?
      requires currentRunning.pid in procs && procs[currentRunning.pid] == currentRunning
      requires if faultAddr == 0 || Present(errorCode) then Running(View(), currentRunning.pid)
               else currentRunning.pid in waiting && waiting[currentRunning.pid] == faultAddr
      modifies this`nalloc, this`handler, this`roles, this`tables, this`waiting, this`exited
      modifies mem, memoryblocks, disk
      ensures Valid() && handler.Idle? && SameAbs(old(View()), View())
      ensures resumed <==>
        && faultAddr != 0 && !Present(errorCode)
        && (old(nalloc) < FRAMES || exists i :: 0 <= i < FRAMES && !old(memoryblocks[i]).pinned)
      ensures resumed ==> exists f :: MapsTo(View(), currentRunning.pid, PageOf(faultAddr), f)
      ensures !resumed ==> currentRunning.pid in exited
      ensures currentRunning.pid !in waiting
    {
      hide Inv, Base, Present, Dirty, Sectors, Location, FrameOf, Addr, NPages, W, SameAbs, User, Translate;
      ghost var s, pid := View(), currentRunning.pid;
      if faultAddr == 0 || Present(errorCode) {
        ExitKeeps(s, pid);
        exited := exited + {pid};
        assert View() == Exit(s, pid);
        return false;
      }
      ghost var req := Fault(pid, faultAddr);
      ShapeOf(s);
      EnterKeeps(s, req);
      handler := Held(req);
      ghost var h := View();
      assert h == Enter(s, req);
      FaultingPage(h, req);
      var entry, location, sectors := GetEntryAndLocation(faultAddr, currentRunning);
      var page := GetMemory(false, faultAddr, currentRunning);
      if page == None {
        GiveUpKeeps(h);
        SameAbsTrans(s, h, View());
        return false;
      }
      ghost var c, i := View(), FrameOf(page.value);
      ObtainedKeeps(h, i, c);
      ObtainedFault(h, i, c);
      FaultingPage(c, req);
      LoadAndMap(faultAddr, entry, location, sectors, page.value, pid);
      ReadInKeeps(c);
      FaultServed(ReadIn(c));
      MapInKeeps(ReadIn(c));
      SameAbsTrans(s, h, c);
      SameAbsTrans(s, c, ReadIn(c));
      SameAbsTrans(s, ReadIn(c), View());
      return true;
    }

    /** memory_lock is taken for a pinned frame. In the model it is free again when the frame is
      * handed out, so other processes may run in between; in the source it stays held until
      * set-up has finished. */
    ghost method Ask(req: Request)
      requires Valid() && CanEnter(View(), req)
      modifies this`handler
      ensures Valid() && View() == Enter(old(View()), req)
    {
      EnterKeeps(View(), req);
      handler := Held(req);
      assert View() == Enter(old(View()), req);
    }

    /** get_memory for the kernel, when frames are left. */
    method KernelFrame(vaddr: Word) returns (page: Word)
      requires Valid() && handler.Idle? && nalloc < FRAMES
      modifies this`nalloc, this`handler, this`roles, this`tables, this`waiting, this`exited
      modifies mem, memoryblocks, disk
      ensures Valid() && handler.Idle? && SameAbs(old(View()), View()) && SameRest(old(View()), View())
      ensures Shape(View()) && nalloc == old(nalloc) + 1 && page == Addr(old(nalloc)) && |old(roles)| == FRAMES
      ensures roles == old(roles)[old(nalloc) := Kernel] && tables == old(tables)
      ensures forall j :: 0 <= j < 1024 ==> View().mem[W(old(nalloc), j)] == 0
      ensures Shape(old(View())) && forall f, j :: 0 <= f < FRAMES && f != old(nalloc) && 0 <= j < 1024 && old(roles)[f].Kernel? ==>
                View().mem[W(f, j)] == old(View()).mem[W(f, j)]
    {
      hide Inv, Base, Present, Dirty, Sectors, Location, NPages, Addr, FrameOf, W, SameAbs;
      ghost var s, req := View(), Pin(Kernel, vaddr, kernel);
      ShapeOf(s);
      EnterKeeps(s, req);
      Ask(req);
      ghost var h := View();
      var obtained := GetMemory(true, vaddr, kernel);
      ObtainedPin(h, s.nalloc, View());
      ObtainedKeeps(h, s.nalloc, View());
      SameAbsTrans(s, h, View());
      return obtained.value;
    }

    /** One pass of the loop of init_memory: a page is mapped to itself, the screen for users as well. */
    method MapKernelPage(table: Word, x: nat, screen: Word, ghost kf: nat, ghost tf: nat)
      requires Valid() && OneTable(View(), kernel, kf, tf) && table == Addr(tf) && x < 1024
      modifies mem
      ensures Valid() && SameAbs(old(View()), View()) && SameRest(old(View()), View())
      ensures OneTable(View(), kernel, kf, tf) && OneTable(old(View()), kernel, kf, tf)
      ensures View().mem[W(tf, x)] == Entry(x * 4096, if x * 4096 == screen then USER_RW else KERNEL_RW)
      ensures forall j :: 0 <= j < 1024 && j != x ==> View().mem[W(tf, j)] == old(View()).mem[W(tf, j)]
    {
      hide Inv, Base, Present, Dirty, Sectors, Location, NPages, Addr, FrameOf, W, SameAbs, OneTable;
      ghost var s := View();
      OneTableFacts(s, kernel, kf, tf);
      var paddr := x * PAGE_SIZE;
      var index := TableIndex(paddr);
      IdentityIndex(x);
      var flags := if paddr == screen then USER_RW else KERNEL_RW;
      ghost var w := Entry(paddr, flags);
      OneTableWrite(s, kernel, kf, tf, tf, x, w);
      WriteTableKeeps(s, tf, x, w);
      UpdateEntry(table, index, paddr, flags);
      ghost var t := WriteTable(s, tf, x, w);
      assert View() == t;
      if paddr == screen {
        var l := DirectoryIndex(paddr);
        WordIndex(kf);
        WordFrom(kf, l);
        AllInPool();
        var e := mem[(kernel.pageDirectory - MEM_START) / 4 + l];
        UserEntry(t, kernel, kf, tf);
        OneTableWrite(t, kernel, kf, tf, kf, l, WithUser(e));
        WriteTableKeeps(t, kf, l, WithUser(e));
        mem[(kernel.pageDirectory - MEM_START) / 4 + l] := WithUser(e);
        assert View() == WriteTable(t, kf, l, WithUser(e));
        SameAbsTrans(s, t, View());
      }
    }

    /** init_memory: the kernel's directory and its table, which maps the first 4 MB to themselves. */
    method InitMemory(screen: Word)
      requires Valid() && Init(View()) && kernel.pageDirectory == MEM_START
      modifies this`nalloc, this`handler, this`roles, this`tables, this`waiting, this`exited
      modifies mem, memoryblocks, disk
      ensures Valid() && handler.Idle? && procs == map[] && OneTable(View(), kernel, 0, 1)
      ensures forall x :: 0 <= x < 1024 ==>
                View().mem[W(1, x)] == Entry(x * 4096, if x * 4096 == screen then USER_RW else KERNEL_RW)
      ensures forall pid :: FreshPid(View(), pid)
      ensures forall p: Pcb :: Layout(p, top) ==> KernelLow(View(), kernel, p)
    {
      hide Inv, Base, Present, Dirty, Sectors, Location, NPages, Addr, FrameOf, W, SameAbs, OneTable, Layout, KernelLow;
      AddrIs(0);
      AddrIs(1);
      AllInPool();
      var directory := KernelFrame(0);
      ghost var s := View();
      var table := KernelFrame(0);
      ghost var t, e := View(), Entry(table, KERNEL_RW);
      LinkTable(s, t, kernel, e);
      WriteTableKeeps(t, 0, 0, e);
      UpdateEntry(kernel.pageDirectory, DirectoryIndex(0), table, KERNEL_RW);
      assert View() == WriteTable(t, 0, 0, e);
      for x := 0 to 1024
        invariant Valid() && OneTable(View(), kernel, 0, 1) && View() == t.(mem := View().mem) && |View().mem| == MEM_WORDS
        invariant forall j :: 0 <= j < x ==>
                    View().mem[W(1, j)] == Entry(j * 4096, if j * 4096 == screen then USER_RW else KERNEL_RW)
      {
        MapKernelPage(table, x, screen, 0, 1);
      }
      forall p: Pcb | Layout(p, top)
        ensures KernelLow(View(), kernel, p)
      {
        OneTableIsLow(View(), kernel, 0, 1, p);
      }
    }

    /** create_table. For an entry that is present the table is the entry with its flag bits. */
    method CreateTable(addr: Word, pcb: Pcb, flags: Word, ghost ds: set<nat>, ghost vs: set<nat>, ghost n: nat)
        returns (table: Option<Word>)
      requires Valid() && Building(View(), pcb, ds, vs, n)
      requires DirectoryIndex(addr) !in ds && Present(flags)
      modifies this`nalloc, this`handler, this`roles, this`tables, this`waiting, this`exited
      modifies mem, memoryblocks, disk
      ensures Valid() && handler.Idle? && SameAbs(old(View()), View()) && SameRest(old(View()), View())
      ensures CanWriteTable(old(View()), FrameOf(pcb.pageDirectory), DirectoryIndex(addr))
      ensures var w := old(View().mem[W(FrameOf(pcb.pageDirectory), DirectoryIndex(addr))]);
              Present(w) ==>
                && table == Some(w)
                && View() == WriteTable(old(View()), FrameOf(pcb.pageDirectory), DirectoryIndex(addr), Entry(w, flags))
      ensures table.Some? && !Present(old(View().mem[W(FrameOf(pcb.pageDirectory), DirectoryIndex(addr))])) ==>
        && Advanced(old(View()), View(), pcb, ds + {DirectoryIndex(addr)}, vs, n,
                    FrameOf(pcb.pageDirectory), DirectoryIndex(addr))
        && (pcb.pid, DirectoryIndex(addr)) in tables
        && tables[(pcb.pid, DirectoryIndex(addr))] < FRAMES
        && table.value == Addr(tables[(pcb.pid, DirectoryIndex(addr))])
    {
      hide Inv, Base, Present, Dirty, Sectors, Location, NPages, Addr, FrameOf, W, SameAbs;
      var index := DirectoryIndex(addr);
      ghost var s, req := View(), Pin(Table(pcb.pid, index), addr, kernel);
      DirectoryWord(s, pcb, ds, vs, n, index);
      var entry := mem[(pcb.pageDirectory - MEM_START) / 4 + index];
      if Present(entry) {
        WriteTableKeeps(s, FrameOf(pcb.pageDirectory), index, Entry(entry, flags));
        UpdateEntry(pcb.pageDirectory, index, entry, flags);
        assert View() == WriteTable(s, FrameOf(pcb.pageDirectory), index, Entry(entry, flags));
        return Some(entry);
      }
      EnterBuilding(s, pcb, ds, vs, n, req);
      Ask(req);
      ghost var h := View();
      table := GetMemory(true, addr, kernel);
      if table == None {
        GiveUpKeeps(h);
        SameAbsTrans(s, h, View());
        return;
      }
      ghost var m, i := View(), FrameOf(table.value);
      TableAdded(s, pcb, ds, vs, n, index, addr, kernel, flags, i, m);
      WriteTableKeeps(m, FrameOf(pcb.pageDirectory), index, Entry(Addr(i), flags));
      DirectoryFacts(s, pcb, ds, vs, n);
      UpdateEntry(pcb.pageDirectory, index, table.value, flags);
      assert View() == WriteTable(m, FrameOf(pcb.pageDirectory), index, Entry(Addr(i), flags));
    }

    /** A directory with the kernel's entries, for a process that has none yet. */
    method NewDirectory(p: Pcb) returns (pageDirectory: Option<Word>)
      requires Valid() && handler.Idle? && p.pid !in procs && FreshPid(View(), p.pid)
      requires KernelDirectory(View(), kernel)
      modifies this`nalloc, this`handler, this`roles, this`tables, this`waiting, this`exited
      modifies mem, memoryblocks, disk
      ensures Valid() && handler.Idle? && SameAbs(old(View()), View()) && SameRest(old(View()), View())
      ensures pageDirectory.Some? ==>
        var pcb := p.(pageDirectory := pageDirectory.value);
        Building(View(), pcb, {}, {}, 0) && CopiedFrom(old(View()), kernel, View(), pcb)
    {
      hide Inv, Base, Present, Dirty, Sectors, Location, NPages, Addr, FrameOf, W, SameAbs;
      ghost var s := View();
      EnterFresh(s, p);
      Ask(Pin(Directory(p.pid), 0, p));
      ghost var h := View();
      pageDirectory := GetMemory(true, 0, p);
      if pageDirectory == None {
        GiveUpKeeps(h);
        SameAbsTrans(s, h, View());
        return;
      }
      DirectoryAdded(s, p, FrameOf(pageDirectory.value), View());
      ghost var m := View();
      CopyKernelEntries(p.(pageDirectory := pageDirectory.value));
      SameAbsTrans(s, m, View());
    }

    /** One entry of the kernel's directory is copied. */
    method CopyKernelEntry(pcb: Pcb, i: nat, ghost s: State)
      requires Valid() && Building(View(), pcb, {}, {}, 0) && KernelDirectory(s, kernel) && i < 1024
      requires SameAbs(s, View()) && SameRest(s, View()) && KernelWords(s, View())
      modifies mem
      ensures Valid() && Building(View(), pcb, {}, {}, 0)
      ensures SameAbs(s, View()) && SameRest(s, View()) && KernelWords(s, View())
      ensures View().mem == old(View().mem)[W(FrameOf(pcb.pageDirectory), i) := s.mem[W(FrameOf(kernel.pageDirectory), i)]]
    {
      hide Inv, Base, Present, Dirty, Sectors, Location, NPages, Addr, SameAbs, Building, FrameOf, KernelWords;
      ghost var v := View();
      BuildingFacts(v, pcb, {}, {}, 0);
      ghost var df, kf := FrameOf(pcb.pageDirectory), FrameOf(kernel.pageDirectory);
      WordIndex(df);
      WordIndex(kf);
      KernelWordIs(s, v, kf, i);
      var w := mem[(kernel.pageDirectory - MEM_START) / 4 + i];
      EntryCopied(v, pcb, i, w);
      WriteTableKeeps(v, df, i, w);
      KernelWordsTrans(s, v, WriteTable(v, df, i, w));
      mem[(pcb.pageDirectory - MEM_START) / 4 + i] := w;
      assert View() == WriteTable(v, df, i, w);
      SameAbsTrans(s, v, View());
    }

    method CopyKernelEntries(pcb: Pcb)
      requires Valid() && Building(View(), pcb, {}, {}, 0) && KernelDirectory(View(), kernel)
      modifies mem
      ensures Valid() && Building(View(), pcb, {}, {}, 0) && SameAbs(old(View()), View())
      ensures SameRest(old(View()), View())
      ensures CopiedFrom(old(View()), kernel, View(), pcb)
    {
      hide Inv, Base, Present, Dirty, Sectors, Location, NPages, Addr, SameAbs, Building, FrameOf, KernelWords;
      ghost var s := View();
      BuildingFacts(s, pcb, {}, {}, 0);
      ghost var df, kf := FrameOf(pcb.pageDirectory), FrameOf(kernel.pageDirectory);
      KernelWordsRefl(s);
      for i := 0 to 1024
        invariant Valid() && Building(View(), pcb, {}, {}, 0)
        invariant SameAbs(s, View()) && SameRest(s, View()) && KernelWords(s, View())
        invariant forall j :: 0 <= j < i ==> View().mem[W(df, j)] == s.mem[W(kf, j)]
      {
        CopyKernelEntry(pcb, i, s);
      }
      BuildingFacts(View(), pcb, {}, {}, 0);
    }

    /** One pass of the loop over the two stack pages. */
    method AddStackPage(pcb: Pcb, table: Word, j: nat) returns (ok: bool)
      requires Valid() && j < 2 && Building(View(), pcb, {Dir(top)}, StackPagesUpTo(top, j), 0)
      requires LowImage(pcb, top) ==> Unlinked(View(), pcb, 4)
      requires table == Addr(tables[(pcb.pid, Dir(top))])
      modifies this`nalloc, this`handler, this`roles, this`tables, this`waiting, this`exited
      modifies mem, memoryblocks, disk
      ensures Valid() && handler.Idle? && SameAbs(old(View()), View()) && SameRest(old(View()), View())
      ensures ok ==>
        && Building(View(), pcb, {Dir(top)}, StackPagesUpTo(top, j + 1), 0)
        && (LowImage(pcb, top) ==> Unlinked(View(), pcb, 4))
        && tables == old(tables)
    {
      hide Inv, Base, Present, Dirty, Sectors, Location, NPages, Addr, FrameOf, W, SameAbs, Unlinked, LowImage;
      hide DirectoryReady, TableReady, CanWriteTable, Grows, Built;
      ghost var s := View();
      ShapeOf(s);
      BuildingFacts(s, pcb, {Dir(top)}, StackPagesUpTo(top, j), 0);
      TableFacts(s, pcb, {Dir(top)}, StackPagesUpTo(top, j), 0, Dir(top));
      ghost var tf := tables[(pcb.pid, Dir(top))];
      AddrIs(tf);
      var stackaddr := processStack - j * PAGE_SIZE;
      var index := TableIndex(stackaddr);
      ghost var vpn: nat := PageOf(stackaddr);
      ghost var req := Pin(Page(pcb.pid, vpn), stackaddr, pcb);
      EnterBuilding(s, pcb, {Dir(top)}, StackPagesUpTo(top, j), 0, req);
      Ask(req);
      ghost var h := View();
      var page := GetMemory(true, stackaddr, pcb);
      if page == None {
        GiveUpKeeps(h);
        SameAbsTrans(s, h, View());
        return false;
      }
      ghost var m, i := View(), FrameOf(page.value);
      StackAdded(s, pcb, {Dir(top)}, StackPagesUpTo(top, j), vpn, stackaddr, pcb, i, m);
      WriteTableKeeps(m, tf, index, Entry(Addr(i), USER_RW));
      UpdateEntry(table, index, page.value, USER_RW);
      assert View() == WriteTable(m, tf, index, Entry(Addr(i), USER_RW));
      if LowImage(pcb, top) {
        BuildingFacts(View(), pcb, {Dir(top)}, StackPagesUpTo(top, j) + {vpn}, 0);
        StaysUnlinked(s, View(), pcb, 4, tf, index);
      }
      assert StackPagesUpTo(top, j) + {vpn} == StackPagesUpTo(top, j + 1);
      return true;
    }

    /** The stack: one table, and two pages that are present. */
    method AddStack(pcb: Pcb) returns (ok: bool)
      requires Valid() && Building(View(), pcb, {}, {}, 0) && Unlinked(View(), pcb, 4)
      requires !Present(View().mem[W(FrameOf(pcb.pageDirectory), Dir(top))])
      modifies this`nalloc, this`handler, this`roles, this`tables, this`waiting, this`exited
      modifies mem, memoryblocks, disk
      ensures Valid() && handler.Idle? && SameAbs(old(View()), View()) && SameRest(old(View()), View())
      ensures ok ==>
        && Building(View(), pcb, {Dir(top)}, StackPages(top), 0)
        && (LowImage(pcb, top) ==> Unlinked(View(), pcb, 4))
    {
      assert Present(USER_RW);
      hide Inv, Base, Present, Dirty, Sectors, Location, NPages, Addr, FrameOf, W, SameAbs, Unlinked;
      ghost var s := View();
      ShapeOf(s);
      var table := CreateTable(processStack, pcb, USER_RW, {}, {}, 0);
      if table == None {
        return false;
      }
      ghost var t := View();
      assert {} + {DirectoryIndex(processStack)} == {Dir(top)};
      BuildingFacts(t, pcb, {Dir(top)}, {}, 0);
      if LowImage(pcb, top) {
        StaysUnlinked(s, t, pcb, 4, FrameOf(pcb.pageDirectory), Dir(top));
      }
      hide LowImage;
      for j := 0 to 2
        invariant Valid() && Building(View(), pcb, {Dir(top)}, StackPagesUpTo(top, j), 0)
        invariant SameAbs(s, View()) && SameRest(s, View())
        invariant LowImage(pcb, top) ==> Unlinked(View(), pcb, 4)
        invariant tables == t.tables
      {
        ghost var v := View();
        var ok1 := AddStackPage(pcb, table.value, j);
        SameAbsTrans(s, v, View());
        if !ok1 {
          return false;
        }
      }
      return true;
    }

    /** The entry of page n of the image, in table i of the image. */
    method FillEntry(pcb: Pcb, table: Word, i: nat, n: nat, vaddr: Word)
      requires Valid() && Building(View(), pcb, LinkedTables(top, i + 1), StackPages(top), n)
      requires Unlinked(View(), pcb, 4 + i + 1) && LowImage(pcb, top) && i <= NPages(pcb) / 1024
      requires table == Addr(tables[(pcb.pid, 4 + i)])
      requires PageOf(vaddr) == ENTRY_PAGE + n && Dir(PageOf(vaddr)) == 4 + i
      modifies mem
      ensures Valid() && SameAbs(old(View()), View()) && SameRest(old(View()), View())
      ensures Building(View(), pcb, LinkedTables(top, i + 1), StackPages(top), n + 1)
      ensures Unlinked(View(), pcb, 4 + i + 1)
    {
      hide Dir, Slot, PageOf, Inv, Base, Present, Dirty, Sectors, Location, NPages, Addr, FrameOf, W, SameAbs;
      hide Unlinked, LowImage, Entry, Building, Shape, AbsentEntry, TableReady;
      ghost var v, ds := View(), LinkedTables(top, i + 1);
      FillFacts(v, pcb, i, n);
      ghost var tf := tables[(pcb.pid, 4 + i)];
      var index := TableIndex(vaddr);
      ImageAdded(v, pcb, ds, StackPages(top), n, PageOf(vaddr), 4 + i);
      WriteTableKeeps(v, tf, index, Entry(0, ABSENT_RW));
      UpdateEntry(table, index, 0, ABSENT_RW);
      assert View() == WriteTable(v, tf, index, Entry(0, ABSENT_RW));
      BuildingFacts(View(), pcb, ds, StackPages(top), n + 1);
      StaysUnlinked(v, View(), pcb, 4 + i + 1, tf, index);
    }

    /** The inner loop over one table of the image: the entries of up to 1024 pages. */
    method FillTable(pcb: Pcb, table: Word, i: nat, added: nat, nrOfPages: nat) returns (pagesAdded: nat)
      requires Valid() && Building(View(), pcb, LinkedTables(top, i + 1), StackPages(top), added)
      requires Unlinked(View(), pcb, 4 + i + 1) && LowImage(pcb, top)
      requires table == Addr(tables[(pcb.pid, 4 + i)])
      requires added == i * 1024 <= nrOfPages == NPages(pcb)
      modifies mem
      ensures Valid() && handler.Idle? && SameAbs(old(View()), View()) && SameRest(old(View()), View())
      ensures pagesAdded == if (i + 1) * 1024 < nrOfPages then (i + 1) * 1024 else nrOfPages
      ensures Building(View(), pcb, LinkedTables(top, i + 1), StackPages(top), pagesAdded)
      ensures Unlinked(View(), pcb, 4 + i + 1)
    {
      hide Dir, Slot, PageOf, Inv, Base, Present, Dirty, NPages, Addr, FrameOf, W, SameAbs;
      hide Unlinked, LowImage, Entry, Building;
      ghost var s, ds := View(), LinkedTables(top, i + 1);
      BuildingFacts(s, pcb, ds, StackPages(top), added);
      pagesAdded := added;
      var k := 0;
      ImageAddress(pcb, top, i, 0);
      var vaddr := PROCESS_ENTRY + added * PAGE_SIZE;
      while k < 1024 && pagesAdded < nrOfPages
        invariant k <= 1024 && pagesAdded == added + k <= nrOfPages
        invariant vaddr == PROCESS_ENTRY + pagesAdded * PAGE_SIZE
        invariant Valid() && Building(View(), pcb, ds, StackPages(top), pagesAdded)
        invariant SameAbs(s, View()) && SameRest(s, View())
        invariant DirectoryReady(View(), pcb) && Unlinked(View(), pcb, 4 + i + 1)
        invariant tables == s.tables && handler.Idle?
      {
        ghost var v := View();
        ImageAddress(pcb, top, i, k);
        FillEntry(pcb, table, i, pagesAdded, vaddr);
        BuildingFacts(View(), pcb, ds, StackPages(top), pagesAdded + 1);
        SameAbsTrans(s, v, View());
        ImageAddress(pcb, top, i, k + 1);
        vaddr := vaddr + PAGE_SIZE;
        pagesAdded := pagesAdded + 1;
        k := k + 1;
      }
    }

    /** The table number i of the image is created and linked. */
    method LinkImageTable(pcb: Pcb, i: nat, added: nat, vaddr: Word, ghost s0: State) returns (table: Option<Word>)
      requires Valid() && ImagePartly(s0, View(), pcb, i) && LowImage(pcb, top)
      requires added == PagesAfter(NPages(pcb), i) && i * 1024 <= NPages(pcb)
      requires vaddr == PROCESS_ENTRY + i * 1024 * PAGE_SIZE
      modifies this`nalloc, this`handler, this`roles, this`tables, this`waiting, this`exited
      modifies mem, memoryblocks, disk
      ensures Valid() && handler.Idle? && SameAbs(s0, View()) && SameRest(s0, View())
      ensures table.Some? ==>
        && Building(View(), pcb, LinkedTables(top, i + 1), StackPages(top), added) && Unlinked(View(), pcb, 4 + i + 1)
        && (pcb.pid, 4 + i) in tables && table.value == Addr(tables[(pcb.pid, 4 + i)])
    {
      hide Dir, Slot, PageOf, Inv, Base, Present, Dirty, NPages, Addr, FrameOf, W, SameAbs;
      hide LowImage, Building, Unlinked;
      BuildingFacts(View(), pcb, LinkedTables(top, i), StackPages(top), added);
      NextTable(View(), pcb, i);
      ImageTableSlot(pcb, top, i);
      assert vaddr == (ENTRY_PAGE + i * 1024) * PAGE_SIZE;
      ghost var s := View();
      table := CreateTable(vaddr, pcb, USER_RW, LinkedTables(top, i), StackPages(top), added);
      SameAbsTrans(s0, s, View());
      if table.Some? {
        ghost var t := View();
        BuildingFacts(t, pcb, LinkedTables(top, i) + {4 + i}, StackPages(top), added);
        assert LinkedTables(top, i) + {4 + i} == LinkedTables(top, i + 1);
        StaysUnlinked(s, t, pcb, 4 + i + 1, FrameOf(pcb.pageDirectory), 4 + i);
      }
    }

    /** One pass of the loop over the tables of the image. */
    method AddImageTable(pcb: Pcb, i: nat, added: nat, nrOfPages: nat, ghost s0: State)
        returns (ok: bool, pagesAdded: nat)
      requires Valid() && ImagePartly(s0, View(), pcb, i) && LowImage(pcb, top)
      requires added == PagesAfter(nrOfPages, i) && i * 1024 <= nrOfPages == NPages(pcb)
      modifies this`nalloc, this`handler, this`roles, this`tables, this`waiting, this`exited
      modifies mem, memoryblocks, disk
      ensures Valid() && handler.Idle? && SameAbs(s0, View()) && SameRest(s0, View())
      ensures ok ==> pagesAdded == PagesAfter(nrOfPages, i + 1) && ImagePartly(s0, View(), pcb, i + 1)
    {
      hide Inv, Present, NPages, Addr, FrameOf, SameAbs, LowImage, Building, Unlinked;
      ghost var s := View();
      pagesAdded := added;
      ImageAddress(pcb, top, i, 0);
      var vaddr := PROCESS_ENTRY + added * PAGE_SIZE;
      var table := LinkImageTable(pcb, i, added, vaddr, s0);
      if table == None {
        return false, pagesAdded;
      }
      ghost var t := View();
      pagesAdded := FillTable(pcb, table.value, i, added, nrOfPages);
      SameAbsTrans(s0, t, View());
      return true, pagesAdded;
    }

    /** The image: its tables, and an absent entry for every page. */
    method AddImage(pcb: Pcb) returns (ok: bool)
      requires Valid() && Building(View(), pcb, {Dir(top)}, StackPages(top), 0)
      requires Unlinked(View(), pcb, 4) && LowImage(pcb, top)
      modifies this`nalloc, this`handler, this`roles, this`tables, this`waiting, this`exited
      modifies mem, memoryblocks, disk
      ensures Valid() && handler.Idle? && SameAbs(old(View()), View()) && SameRest(old(View()), View())
      ensures ok ==> exists ds :: Building(View(), pcb, ds, StackPages(top), NPages(pcb))
    {
      hide Inv, ImagePartly, SameAbs, LowImage, Building, Unlinked, SameRest, NPages, PagesAfter, StackPages;
      var nrOfPages := (pcb.swapSize + SECTORS_PER_PAGE - 1) / SECTORS_PER_PAGE;
      PageCount(pcb);
      ghost var s := View();
      ShapeOf(s);
      ImageStarts(s, pcb);
      var nrOfTables := nrOfPages / ENTRIES + 1;
      var pagesAdded: nat := 0;
      assert pagesAdded == PagesAfter(nrOfPages, 0) by { NoPagesYet(nrOfPages); }
      for i := 0 to nrOfTables
        invariant Valid() && ImagePartly(s, View(), pcb, i) && pagesAdded == PagesAfter(nrOfPages, i)
      {
        TableBegins(nrOfPages, i);
        ok, pagesAdded := AddImageTable(pcb, i, pagesAdded, nrOfPages, s);
        if !ok {
          return;
        }
      }
      ImageDone(s, View(), pcb);
      return true;
    }

    /** setup_page_table. The result is the new page directory, or None when the caller has
      * exited for lack of memory. */
    method SetupPageTable(p: Pcb, isThread: bool) returns (pageDirectory: Option<Word>)
      requires Valid() && handler.Idle?
      requires !isThread ==>
        && p.pid !in procs && FreshPid(View(), p.pid) && KernelLow(View(), kernel, p)
        && ExtentOnDisk(p, View().disk) && Layout(p, top)
        && forall q :: q in procs ==> Disjoint(procs[q], p)
      modifies this`nalloc, this`handler, this`roles, this`tables, this`waiting, this`exited, this`procs
      modifies mem, memoryblocks, disk
      ensures Valid() && handler.Idle? && SameAbs(old(View()), View())
      ensures isThread ==> pageDirectory == Some(kernel.pageDirectory) && View() == old(View())
      ensures !isThread && pageDirectory == None ==> procs == old(procs)
      ensures !isThread && pageDirectory.Some? ==>
        var pcb := p.(pageDirectory := pageDirectory.value);
        && procs == old(procs)[p.pid := pcb]
        && forall vpn: nat :: ImagePage(pcb, vpn) ==>
             AbsentPage(View(), p.pid, vpn) && FreshPage(View(), View(), pcb, vpn)
    {
      hide Dir, Slot, PageOf, Inv, Base, Present, Dirty, NPages, Addr, FrameOf, W, SameAbs, Building, Layout, Disjoint;
      hide Unlinked, LowImage, KernelLow, AbsentPage, FreshPage;
      ghost var s := View();
      if isThread {
        SameAbsRefl(s);
        return Some(kernel.pageDirectory);
      }
      KernelFacts(s, kernel, p);
      pageDirectory := NewDirectory(p);
      if pageDirectory == None {
        return;
      }
      var pcb := p.(pageDirectory := pageDirectory.value);
      ghost var t := View();
      BuildingFacts(t, pcb, {}, {}, 0);
      OnlyDirectory(p, pcb, top, s, t);
      StartsUnlinked(s, kernel, p, t, pcb);
      LayoutIsLow(pcb, top);
      var ok := AddStack(pcb);
      ghost var u := View();
      SameAbsTrans(s, t, u);
      if !ok {
        return None;
      }
      ok := AddImage(pcb);
      ghost var b := View();
      SameAbsTrans(s, u, b);
      if !ok {
        return None;
      }
      ghost var ds :| Building(b, pcb, ds, StackPages(top), NPages(pcb));
      BuildingFacts(b, pcb, ds, StackPages(top), NPages(pcb));
      OnlyDirectory(p, pcb, top, s, b);
      BuiltReady(b, pcb, ds);
      SetUpKeeps(b, pcb);
      procs := procs[p.pid := pcb];
      assert View() == SetUp(b, pcb);
      SameAbsTrans(s, b, View());
      forall vpn: nat | ImagePage(pcb, vpn)
        ensures AbsentPage(View(), p.pid, vpn) && FreshPage(View(), View(), pcb, vpn)
      {
        ImagePageReady(b, pcb, ds, vpn);
        FreshAgain(b, pcb, vpn);
      }
    }
  }
}
