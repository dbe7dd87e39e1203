/** Demand paging: physical memory, two-level page tables, the frame records and the
  * disk, as one state machine. The fault handler is split at every point where other
  * processes can run, and page directories and tables live in the same physical words
  * that user stores go to. Module PagingProofs shows that all of this behaves like one
  * flat private memory per process; the class in module Memory is the C code.
  */
module Paging {

  type Word = w: int | 0 <= w < 0x1_0000_0000

  const PAGE_SIZE := 4096
  const ENTRIES := 1024                 // 32-bit words (and table entries) in a page
  const SECTORS_PER_PAGE := 8
  const SECTOR_WORDS := 128
  const MEM_START := 0x100000
  const FRAMES := 35                    // PAGEABLE_PAGES
  const MEM_WORDS := 35 * 1024
  const ENTRY_PAGE := 4096              // PROCESS_ENTRY / PAGE_SIZE
  const USER_RW: Word := 7              // PE_P | PE_RW | PE_US

  // ---- Table and directory entries ------------------------------------------------

  /** entry & PE_BASE_ADDR_MASK */
  function Base(w: Word): Word { w - w % 4096 }

  predicate Present(w: Word) { w % 2 == 1 }

  predicate Dirty(w: Word) { (w / 64) % 2 == 1 }

  /** (paddr & PE_BASE_ADDR_MASK) | (flags & MODE_MASK) */
  function Entry(paddr: Word, flags: Word): (r: Word)
    ensures Base(r) == Base(paddr)
    ensures Present(r) == Present(flags)
    ensures Dirty(r) == Dirty(flags)
  {
    EntryBits(paddr / 4096, flags / 1024, flags % 1024);
    paddr / 4096 * 4096 + flags % 1024
  }

  lemma EntryBits(q: nat, k: nat, f: nat)
    requires f < 1024
    ensures (q * 4096 + f) % 4096 == f
    ensures (q * 4096 + f) % 2 == (k * 1024 + f) % 2
    ensures ((q * 4096 + f) / 64) % 2 == ((k * 1024 + f) / 64) % 2
  {
    assert (q * 4096 + f) / 64 == 2 * (q * 32) + f / 64;
    assert (k * 1024 + f) / 64 == 2 * (k * 8) + f / 64;
    Parity(q * 32, f / 64);
    Parity(k * 8, f / 64);
    Parity(q * 2048, f);
    Parity(k * 512, f);
  }

  lemma Parity(a: int, x: int)
    ensures (2 * a + x) % 2 == x % 2
  {
  }

  /** Adding a clear low bit changes nothing but that bit. */
  lemma AccessedBit(w: Word)
    requires (w / 32) % 2 == 0
    ensures (w + 32) / 4096 == w / 4096
    ensures (w + 32) % 4096 == w % 4096 + 32
    ensures (w + 32) / 64 == w / 64
  {
    var q, r := w / 64, w % 64;
    assert w == q * 64 + r && r < 32;
    assert w % 4096 == (q - w / 4096 * 64) * 64 + r;
    assert w % 4096 + 32 < 4096;
  }

  lemma DirtyBit(w: Word)
    requires (w / 64) % 2 == 0
    ensures (w + 64) / 4096 == w / 4096
    ensures (w + 64) % 4096 == w % 4096 + 64
    ensures (w + 64) / 64 == w / 64 + 1
  {
    var q, r := w / 128, w % 128;
    assert w == q * 128 + r && r < 64;
    assert w % 4096 == (q - w / 4096 * 32) * 128 + r;
    assert w % 4096 + 64 < 4096;
  }

  lemma KeepsBase(w: Word, x: Word)
    requires x / 4096 == w / 4096 && x % 4096 == w % 4096 + (x - w)
    ensures Base(x) == Base(w)
  {
  }

  /** What the hardware does to an entry it walks through: the accessed bit is set, and
    * on a store through a page-table entry the dirty bit as well. */
  function Touch(w: Word, store: bool): (r: Word)
    ensures Base(r) == Base(w)
    ensures Present(r) == Present(w)
    ensures Dirty(r) == (store || Dirty(w))
  {
    SetDirty(SetAccessed(w), store)
  }

  function SetAccessed(w: Word): (r: Word)
    ensures Base(r) == Base(w)
    ensures Present(r) == Present(w)
    ensures Dirty(r) == Dirty(w)
  {
    if (w / 32) % 2 == 1 then w else AccessedBit(w); KeepsBase(w, w + 32); w + 32
  }

  function SetDirty(w: Word, store: bool): (r: Word)
    ensures Base(r) == Base(w)
    ensures Present(r) == Present(w)
    ensures Dirty(r) == (store || Dirty(w))
  {
    if !store || Dirty(w) then w else DirtyBit(w); KeepsBase(w, w + 64); w + 64
  }

  // ---- Frames ---------------------------------------------------------------------

  /** The page number of an address, and its indices in the directory and in a table. */
  function PageOf(vaddr: Word): nat { vaddr / 4096 }

  function Dir(vpn: nat): (d: nat)
    ensures vpn < 0x10_0000 ==> d < 1024
  {
    vpn / 1024
  }

  function Slot(vpn: nat): (i: nat)
    ensures i < 1024
  {
    vpn % 1024
  }

  lemma SamePage(v: nat, u: nat)
    requires Dir(v) == Dir(u) && Slot(v) == Slot(u)
    ensures v == u
  {
  }

  function W(frame: int, i: int): int { frame * 1024 + i }

  function Addr(frame: nat): (a: Word)
    requires frame < FRAMES
    ensures Base(a) == a
  {
    MEM_START + frame * 4096
  }

  function FrameOf(a: Word): int { (a - MEM_START) / 4096 }

  lemma FrameOfAddr(frame: nat)
    requires frame < FRAMES
    ensures FrameOf(Addr(frame)) == frame
  {
  }

  // ---- Processes, records and state -------------------------------------------------

  datatype Pcb = Pcb(pid: int, pageDirectory: Word, swapLoc: nat, swapSize: nat)

  /** struct PMS: one record for each frame; the pcb is a copy. */
  datatype Pms = Pms(vaddr: Word, paddr: Word, pcb: Pcb, pinned: bool)

  /** What a frame is used for. The code does not store this. */
  datatype Role =
    | Unused
    | Kernel
    | Directory(pid: int)
    | Table(pid: int, d: nat)
    | Page(pid: int, vpn: nat)
    | InTransit

  /** Why get_memory is running: for a page fault, or for a pinned frame. */
  datatype Request = Fault(pid: int, vaddr: Word) | Pin(role: Role, vaddr: Word, pcb: Pcb)

  /** Where the holder of memory_lock is. */
  datatype Handler =
    | Idle
    | Held(req: Request)
    | WritingBack(req: Request, frame: nat, victim: Pcb, vpn: nat)
    | Empty(req: Request, frame: nat)
    | Claimed(req: Request, frame: nat)
    | Loaded(req: Request, frame: nat)

  datatype State = State(
    mem: seq<Word>,                // the pageable physical memory
    blocks: seq<Pms>,              // memoryblocks
    nalloc: nat,
    disk: seq<Word>,
    procs: map<int, Pcb>,          // processes that have been set up
    waiting: map<int, Word>,       // processes inside the fault handler, by faultAddr
    exited: set<int>,
    handler: Handler,
    roles: seq<Role>,
    tables: map<(int, nat), nat>,  // frame of the table of (process, directory index)
    top: nat)                      // page number of PROCESS_STACK

  // ---- Address spaces ---------------------------------------------------------------

  function NPages(pcb: Pcb): nat { (pcb.swapSize + 7) / 8 }

  predicate ImagePage(pcb: Pcb, vpn: nat) { ENTRY_PAGE <= vpn < ENTRY_PAGE + NPages(pcb) }

  predicate StackPage(top: nat, vpn: nat) { vpn == top || vpn + 1 == top }

  /** Page vpn belongs to the user part of the address space of a set-up process. */
  predicate User(procs: map<int, Pcb>, top: nat, pid: int, vpn: nat) {
    pid in procs && (ImagePage(procs[pid], vpn) || StackPage(top, vpn))
  }

  /** What get_entry_and_location writes to *sectors and *location for a page of the image. */
  function Sectors(pcb: Pcb, vpn: nat): (n: nat)
    requires ImagePage(pcb, vpn)
    ensures 1 <= n <= 8 && (vpn - ENTRY_PAGE) * 8 + n <= pcb.swapSize
  {
    var aligned := (vpn - ENTRY_PAGE) * 8;
    if SECTORS_PER_PAGE + aligned > pcb.swapSize then pcb.swapSize - aligned else SECTORS_PER_PAGE
  }

  function Location(pcb: Pcb, vpn: nat): nat
    requires ENTRY_PAGE <= vpn
  {
    pcb.swapLoc + (vpn - ENTRY_PAGE) * 8
  }

  /** Where word j of a page of the image is on disk. */
  function DiskWord(pcb: Pcb, vpn: nat, j: nat): nat
    requires ENTRY_PAGE <= vpn
  {
    Location(pcb, vpn) * 128 + j
  }

  predicate ExtentOnDisk(pcb: Pcb, disk: seq<Word>) {
    (pcb.swapLoc + pcb.swapSize) * SECTOR_WORDS <= |disk|
  }

  /** The image lies below the 4 MB region of the stack (and so in the 32-bit space). */
  predicate Layout(pcb: Pcb, top: nat) {
    (ENTRY_PAGE + NPages(pcb)) / 1024 < Dir(top)
  }

  predicate Disjoint(p: Pcb, q: Pcb) {
    p.swapLoc + p.swapSize <= q.swapLoc || q.swapLoc + q.swapSize <= p.swapLoc
  }

  /** scsi_read into a frame and scsi_write from a frame: whole sectors of 128 words. */
  function ScsiRead(mem: seq<Word>, disk: seq<Word>, frame: nat, location: nat, sectors: nat): (r: seq<Word>)
    requires |mem| == MEM_WORDS && frame < FRAMES && sectors <= 8
    requires (location + sectors) * SECTOR_WORDS <= |disk|
    ensures |r| == |mem|
    ensures forall j :: 0 <= j < sectors * 128 ==> r[W(frame, j)] == disk[location * 128 + j]
    ensures forall j :: sectors * 128 <= j < 1024 ==> r[W(frame, j)] == mem[W(frame, j)]
    ensures forall g, j :: 0 <= g < FRAMES && g != frame && 0 <= j < 1024 ==> r[W(g, j)] == mem[W(g, j)]
  {
    mem[..W(frame, 0)] + disk[location * 128..(location + sectors) * 128] + mem[W(frame, sectors * 128)..]
  }

  function ScsiWrite(disk: seq<Word>, mem: seq<Word>, frame: nat, location: nat, sectors: nat): (r: seq<Word>)
    requires |mem| == MEM_WORDS && frame < FRAMES && sectors <= 8
    requires (location + sectors) * SECTOR_WORDS <= |disk|
    ensures |r| == |disk|
    ensures forall i :: 0 <= i < |disk| ==>
      r[i] == if location * 128 <= i < (location + sectors) * 128 then mem[W(frame, i - location * 128)] else disk[i]
  {
    disk[..location * 128] + mem[W(frame, 0)..W(frame, sectors * 128)] + disk[(location + sectors) * 128..]
  }

  /** bzero of a frame */
  function Zeroed(mem: seq<Word>, frame: nat): (r: seq<Word>)
    requires |mem| == MEM_WORDS && frame < FRAMES
    ensures |r| == |mem|
    ensures forall j :: 0 <= j < 1024 ==> r[W(frame, j)] == 0
    ensures forall g, j :: 0 <= g < FRAMES && g != frame && 0 <= j < 1024 ==> r[W(g, j)] == mem[W(g, j)]
  {
    mem[..W(frame, 0)] + seq(1024, _ => 0) + mem[W(frame, 1024)..]
  }

  // ---- Hardware address translation ---------------------------------------------------

  datatype Walk = NotMapped | Mapped(pde: int, pte: int, frame: nat)

  function Translate(mem: seq<Word>, pageDirectory: Word, vpn: nat): (w: Walk)
    requires |mem| == MEM_WORDS && vpn < 0x10_0000
    ensures w.Mapped? ==> 0 <= w.pde < MEM_WORDS && 0 <= w.pte < MEM_WORDS && w.frame < FRAMES
  {
    var df := FrameOf(pageDirectory);
    if !(0 <= df < FRAMES) || !Present(mem[W(df, Dir(vpn))]) then NotMapped else
    var pde := W(df, Dir(vpn));
    var tf := FrameOf(Base(mem[pde]));
    if !(0 <= tf < FRAMES) || !Present(mem[W(tf, Slot(vpn))]) then NotMapped else
    var pte := W(tf, Slot(vpn));
    var f := FrameOf(Base(mem[pte]));
    if !(0 <= f < FRAMES) then NotMapped else Mapped(pde, pte, f)
  }

  function Touched(mem: seq<Word>, w: Walk, store: bool): (r: seq<Word>)
    requires |mem| == MEM_WORDS
    requires w.Mapped? && 0 <= w.pde < MEM_WORDS && 0 <= w.pte < MEM_WORDS
    ensures |r| == |mem|
    ensures forall i :: 0 <= i < |mem| ==>
      && Base(r[i]) == Base(mem[i]) && Present(r[i]) == Present(mem[i])
      && Dirty(r[i]) == (Dirty(mem[i]) || (store && i == w.pte))
      && (i != w.pde && i != w.pte ==> r[i] == mem[i])
  {
    var m := mem[w.pde := Touch(mem[w.pde], false)];
    m[w.pte := Touch(m[w.pte], store)]
  }

  // ---- The invariant ------------------------------------------------------------------

  /** Index in mem of the directory entry and of the table entry of a user page. */
  ghost function PdeAt(s: State, pid: int, vpn: nat): int
    requires pid in s.procs
  {
    W(FrameOf(s.procs[pid].pageDirectory), Dir(vpn))
  }

  ghost function PteAt(s: State, pid: int, vpn: nat): int
    requires (pid, Dir(vpn)) in s.tables
  {
    W(s.tables[(pid, Dir(vpn))], Slot(vpn))
  }

  ghost predicate Reaches(s: State, pid: int, vpn: nat)
    requires Shape(s) && pid in s.procs
  {
    var d := Dir(vpn);
    var pcb := s.procs[pid];
    var df := FrameOf(pcb.pageDirectory);
    && vpn < 0x10_0000
    && 0 <= df < FRAMES && pcb.pageDirectory == Addr(df) && s.roles[df] == Directory(pid)
    && (pid, d) in s.tables && s.tables[(pid, d)] < FRAMES
    && s.roles[s.tables[(pid, d)]] == Table(pid, d)
    && Present(s.mem[W(df, d)]) && Base(s.mem[W(df, d)]) == Addr(s.tables[(pid, d)])
  }

  /** Directories and tables of every process are in place, in frames of their own. */
  ghost predicate TablesOk(s: State)
    requires Shape(s)
  {
    forall pid, vpn :: User(s.procs, s.top, pid, vpn) ==> Reaches(s, pid, vpn)
  }

  ghost predicate Resident(s: State, pid: int, vpn: nat)
    requires Shape(s) && User(s.procs, s.top, pid, vpn) && Reaches(s, pid, vpn)
  {
    Present(s.mem[PteAt(s, pid, vpn)])
  }

  /** The frame a page-table entry points to. */
  ghost function FrameFor(s: State, pid: int, vpn: nat): int
    requires Shape(s) && User(s.procs, s.top, pid, vpn) && Reaches(s, pid, vpn)
  {
    FrameOf(Base(s.mem[PteAt(s, pid, vpn)]))
  }

  ghost predicate PageOk(s: State, pid: int, vpn: nat)
    requires Shape(s) && User(s.procs, s.top, pid, vpn) && Reaches(s, pid, vpn)
    requires ExtentOnDisk(s.procs[pid], s.disk)
  {
    && (StackPage(s.top, vpn) ==> Resident(s, pid, vpn))
    && (Resident(s, pid, vpn) ==>
          var f := FrameFor(s, pid, vpn);
          && 0 <= f < FRAMES && Base(s.mem[PteAt(s, pid, vpn)]) == Addr(f)
          && s.roles[f] == Page(pid, vpn)
          // not dirty implies frame equals disk extent
          && (ImagePage(s.procs[pid], vpn) && !Dirty(s.mem[PteAt(s, pid, vpn)]) ==>
                forall j :: 0 <= j < Sectors(s.procs[pid], vpn) * 128 ==>
                  s.mem[W(f, j)] == s.disk[DiskWord(s.procs[pid], vpn, j)]))
  }

  ghost predicate PagesOk(s: State)
    requires Shape(s) && TablesOk(s) && ExtentsOk(s)
  {
    forall pid, vpn :: User(s.procs, s.top, pid, vpn) ==> PageOk(s, pid, vpn)
  }

  /** The record of a frame agrees with its role. */
  ghost predicate FrameOk(s: State, f: nat)
    requires Shape(s) && TablesOk(s) && f < FRAMES
  {
    && (s.roles[f].Unused? <==> s.nalloc <= f)
    && (f < s.nalloc ==> s.blocks[f].paddr == Addr(f))
    && match s.roles[f]
       case Unused => true
       case Kernel => s.blocks[f].pinned
       case Directory(_) => s.blocks[f].pinned
       case Table(_, _) => s.blocks[f].pinned
       case InTransit => HandlerFrame(s.handler, f)
       case Page(pid, vpn) =>
         && (s.blocks[f].pinned <==> StackPage(s.top, vpn))
         && (pid in s.procs ==>
               User(s.procs, s.top, pid, vpn) && Resident(s, pid, vpn) && FrameFor(s, pid, vpn) == f)
         && (!s.blocks[f].pinned ==>
               pid in s.procs && s.blocks[f].pcb == s.procs[pid] && PageOf(s.blocks[f].vaddr) == vpn)
  }

  predicate HandlerFrame(h: Handler, f: nat) {
    (h.WritingBack? || h.Empty? || h.Claimed? || h.Loaded?) && h.frame == f
  }

  ghost predicate FramesOk(s: State)
    requires Shape(s) && TablesOk(s)
  {
    forall f :: 0 <= f < FRAMES ==> FrameOk(s, f)
  }

  ghost predicate ExtentsOk(s: State) {
    && (forall pid :: pid in s.procs ==>
          s.procs[pid].pid == pid && ExtentOnDisk(s.procs[pid], s.disk) && Layout(s.procs[pid], s.top))
    && (forall p, q :: p in s.procs && q in s.procs && p != q ==> Disjoint(s.procs[p], s.procs[q]))
  }

  /** A process in the fault handler waits for a page of its own image that is absent. */
  ghost predicate Absent(s: State, pid: int, vpn: nat)
    requires Shape(s) && TablesOk(s)
  {
    && User(s.procs, s.top, pid, vpn) && ImagePage(s.procs[pid], vpn)
    && !Resident(s, pid, vpn)
  }

  ghost predicate WaitingOk(s: State)
    requires Shape(s) && TablesOk(s)
  {
    forall pid :: pid in s.waiting ==> Absent(s, pid, PageOf(s.waiting[pid]))
  }

  predicate PinnableRole(r: Role, top: nat) {
    r.Kernel? || r.Directory? || r.Table? || (r.Page? && StackPage(top, r.vpn))
  }

  ghost predicate RequestOk(s: State, req: Request) {
    match req
    case Fault(pid, vaddr) => pid in s.waiting && s.waiting[pid] == vaddr
    // frames are pinned for the kernel and for processes that are still being set up
    case Pin(role, _, _) =>
      PinnableRole(role, s.top) && (!role.Kernel? ==> role !in s.roles && role.pid !in s.procs)
  }

  ghost predicate HandlerOk(s: State)
    requires Shape(s) && TablesOk(s) && ExtentsOk(s)
  {
    match s.handler
    case Idle => true
    case Held(req) => RequestOk(s, req)
    case WritingBack(req, f, pcb, vpn) =>
      && RequestOk(s, req) && TransitOk(s, f)
      && Absent(s, pcb.pid, vpn) && s.procs[pcb.pid] == pcb
    case Empty(req, f) => RequestOk(s, req) && TransitOk(s, f)
    case Claimed(req, f) => RequestOk(s, req) && TransitOk(s, f) && RecordOk(s, req, f)
    case Loaded(req, f) =>
      && RequestOk(s, req) && TransitOk(s, f) && RecordOk(s, req, f)
      && WaitingOk(s)
      && (var pcb := s.procs[req.pid];
          forall j :: 0 <= j < Sectors(pcb, PageOf(req.vaddr)) * 128 ==>
            s.mem[W(f, j)] == s.disk[DiskWord(pcb, PageOf(req.vaddr), j)])
  }

  ghost predicate TransitOk(s: State, f: nat)
    requires Shape(s)
  {
    f < s.nalloc && s.roles[f] == InTransit
  }

  ghost predicate RecordOk(s: State, req: Request, f: nat)
    requires Shape(s) && f < FRAMES
  {
    && req.Fault? && req.pid in s.procs
    && !s.blocks[f].pinned && s.blocks[f].vaddr == req.vaddr && s.blocks[f].pcb == s.procs[req.pid]
  }

  ghost predicate Inv(s: State) {
    && Shape(s) && TablesOk(s) && ExtentsOk(s) && PagesOk(s) && FramesOk(s)
    && WaitingOk(s) && HandlerOk(s)
  }

  /** The frame of the table for a page, as get_entry_and_location finds it. */
  function TableFrame(mem: seq<Word>, pageDirectory: Word, vpn: nat): int
    requires |mem| == MEM_WORDS
  {
    var df := FrameOf(pageDirectory);
    if 0 <= df < FRAMES && vpn < 0x10_0000 then FrameOf(Base(mem[W(df, Dir(vpn))])) else -1
  }

  ghost predicate Shape(s: State) {
    && |s.mem| == MEM_WORDS && |s.blocks| == FRAMES && |s.roles| == FRAMES
    && s.nalloc <= FRAMES
    && 1 <= s.top < 0x10_0000 && s.top % 1024 != 0
  }

  // ---- Steps: user code -----------------------------------------------------------------
  // A user address is a page number and the index of a word in the page.

  predicate Running(s: State, pid: int) {
    pid in s.procs && pid !in s.waiting && pid !in s.exited
  }

  ghost predicate CanAccess(s: State, pid: int, vpn: nat, j: nat) {
    && Shape(s) && Running(s, pid)
    && User(s.procs, s.top, pid, vpn) && vpn < 0x10_0000 && j < 1024
    && Translate(s.mem, s.procs[pid].pageDirectory, vpn).Mapped?
  }

  ghost function LoadedWord(s: State, pid: int, vpn: nat, j: nat): Word
    requires CanAccess(s, pid, vpn, j)
  {
    s.mem[W(Translate(s.mem, s.procs[pid].pageDirectory, vpn).frame, j)]
  }

  ghost function LoadWord(s: State, pid: int, vpn: nat, j: nat): State
    requires CanAccess(s, pid, vpn, j)
  {
    s.(mem := Touched(s.mem, Translate(s.mem, s.procs[pid].pageDirectory, vpn), false))
  }

  ghost function StoreWord(s: State, pid: int, vpn: nat, j: nat, v: Word): State
    requires CanAccess(s, pid, vpn, j)
  {
    var w := Translate(s.mem, s.procs[pid].pageDirectory, vpn);
    s.(mem := Touched(s.mem, w, true)[W(w.frame, j) := v])
  }

  /** The hardware raises a page fault: nothing is mapped at a user address. */
  ghost predicate CanFault(s: State, pid: int, vaddr: Word) {
    && Shape(s) && Running(s, pid)
    && ImagePage(s.procs[pid], PageOf(vaddr))
    && Translate(s.mem, s.procs[pid].pageDirectory, PageOf(vaddr)).NotMapped?
  }

  ghost function PageFault(s: State, pid: int, vaddr: Word): State {
    s.(waiting := s.waiting[pid := vaddr])
  }

  /** A process ends, by itself or from the fault handler's error exits. */
  ghost function Exit(s: State, pid: int): State { s.(exited := s.exited + {pid}) }

  // ---- Steps: get_memory and the fault handler --------------------------------------------

  /** memory_lock is acquired. */
  ghost predicate CanEnter(s: State, req: Request) {
    && Shape(s) && s.handler.Idle?
    && RequestOk(s, req)
  }

  ghost function Enter(s: State, req: Request): State { s.(handler := Held(req)) }

  ghost predicate CanTakeFree(s: State) { Shape(s) && s.handler.Held? && s.nalloc < FRAMES }

  ghost function TakeFree(s: State): State
    requires CanTakeFree(s)
  {
    var i := s.nalloc;
    s.(nalloc := i + 1, blocks := s.blocks[i := s.blocks[i].(paddr := Addr(i))],
       roles := s.roles[i := InTransit], handler := Empty(s.handler.req, i))
  }

  /** Frame i may be taken from its owner: any frame that is not pinned. */
  ghost predicate CanEvict(s: State, i: nat) {
    && Shape(s) && s.handler.Held? && s.nalloc == FRAMES && i < FRAMES && !s.blocks[i].pinned
    && 0 <= TableFrame(s.mem, s.blocks[i].pcb.pageDirectory, PageOf(s.blocks[i].vaddr)) < FRAMES
  }

  ghost function VictimEntry(s: State, i: nat): int
    requires CanEvict(s, i)
  {
    W(TableFrame(s.mem, s.blocks[i].pcb.pageDirectory, PageOf(s.blocks[i].vaddr)), Slot(PageOf(s.blocks[i].vaddr)))
  }

  /** Reads the dirty bit and clears the entry, in one step. */
  ghost function Evict(s: State, i: nat): State
    requires CanEvict(s, i)
  {
    var e := VictimEntry(s, i);
    s.(mem := s.mem[e := Entry(s.blocks[i].paddr, 0)],
       roles := s.roles[i := InTransit],
       handler := if Dirty(s.mem[e])
                  then WritingBack(s.handler.req, i, s.blocks[i].pcb, PageOf(s.blocks[i].vaddr))
                  else Empty(s.handler.req, i))
  }

  /** Every frame is pinned: the caller exits. */
  ghost predicate CanGiveUp(s: State) {
    && Shape(s) && s.handler.Held? && s.nalloc == FRAMES
    && forall i :: 0 <= i < FRAMES ==> s.blocks[i].pinned
  }

  ghost function GiveUp(s: State): State
    requires CanGiveUp(s)
  {
    if s.handler.req.Pin? then s.(handler := Idle) else
    var pid := s.handler.req.pid;
    s.(handler := Idle, waiting := s.waiting - {pid}, exited := s.exited + {pid})
  }

  ghost predicate CanWriteBack(s: State) {
    && Shape(s) && s.handler.WritingBack? && s.handler.frame < FRAMES
    && ImagePage(s.handler.victim, s.handler.vpn) && ExtentOnDisk(s.handler.victim, s.disk)
  }

  ghost function WriteBack(s: State): State
    requires CanWriteBack(s)
  {
    var h := s.handler;
    s.(disk := ScsiWrite(s.disk, s.mem, h.frame, Location(h.victim, h.vpn), Sectors(h.victim, h.vpn)),
       handler := Empty(h.req, h.frame))
  }

  /** The record is filled in and the frame zeroed: get_memory returns. */
  ghost predicate CanClaim(s: State) {
    && Shape(s) && s.handler.Empty? && s.handler.frame < FRAMES
    && (s.handler.req.Fault? ==> s.handler.req.pid in s.procs)
  }

  ghost function Claim(s: State): State
    requires CanClaim(s)
  {
    var i, req := s.handler.frame, s.handler.req;
    var pcb := if req.Fault? then s.procs[req.pid] else req.pcb;
    var t := s.(mem := Zeroed(s.mem, i), blocks := s.blocks[i := Pms(req.vaddr, s.blocks[i].paddr, pcb, req.Pin?)]);
    if req.Fault? then t.(handler := Claimed(req, i)) else
    t.(handler := Idle, roles := s.roles[i := req.role],
       tables := if req.role.Table? then s.tables[(req.role.pid, req.role.d) := i] else s.tables)
  }

  ghost predicate CanReadIn(s: State) {
    && Shape(s) && s.handler.Claimed? && s.handler.frame < FRAMES && s.handler.req.Fault?
    && s.handler.req.pid in s.procs
    && (var pcb := s.procs[s.handler.req.pid];
        ImagePage(pcb, PageOf(s.handler.req.vaddr)) && ExtentOnDisk(pcb, s.disk))
  }

  ghost function ReadIn(s: State): State
    requires CanReadIn(s)
  {
    var req, i := s.handler.req, s.handler.frame;
    var pcb, vpn := s.procs[req.pid], PageOf(req.vaddr);
    s.(mem := ScsiRead(s.mem, s.disk, i, Location(pcb, vpn), Sectors(pcb, vpn)), handler := Loaded(req, i))
  }

  ghost predicate CanMapIn(s: State) {
    && Shape(s) && s.handler.Loaded? && s.handler.frame < FRAMES && s.handler.req.Fault?
    && s.handler.req.pid in s.procs
    && 0 <= TableFrame(s.mem, s.procs[s.handler.req.pid].pageDirectory, PageOf(s.handler.req.vaddr)) < FRAMES
  }

  /** The entry is set (accessed and dirty bits clear) and memory_lock is released. */
  ghost function MapIn(s: State): State
    requires CanMapIn(s)
  {
    var req, i := s.handler.req, s.handler.frame;
    var vpn := PageOf(req.vaddr);
    var e := W(TableFrame(s.mem, s.procs[req.pid].pageDirectory, vpn), Slot(vpn));
    s.(mem := s.mem[e := Entry(s.blocks[i].paddr, USER_RW)], roles := s.roles[i := Page(req.pid, vpn)],
       waiting := s.waiting - {req.pid}, handler := Idle)
  }

  // ---- Steps: setting up a process ------------------------------------------------------

  /** Only directories and tables of the kernel, and of processes that do not run yet, are written. */
  ghost predicate CanWriteTable(s: State, f: nat, i: nat) {
    && Shape(s) && f < FRAMES && i < 1024
    && (s.roles[f].Kernel? || ((s.roles[f].Directory? || s.roles[f].Table?) && s.roles[f].pid !in s.procs))
  }

  ghost function WriteTable(s: State, f: nat, i: nat, w: Word): State
    requires CanWriteTable(s, f, i)
  {
    s.(mem := s.mem[W(f, i) := w])
  }

  /** The address space of pcb is complete: the image absent, the stack present. */
  ghost predicate SpaceReady(s: State, pcb: Pcb)
    requires Shape(s) && ExtentOnDisk(pcb, s.disk)
  {
    var t := SetUp(s, pcb);
    && (forall vpn :: User(t.procs, t.top, pcb.pid, vpn) ==>
          Reaches(t, pcb.pid, vpn) && PageOk(t, pcb.pid, vpn)
          && (ImagePage(pcb, vpn) ==> !Resident(t, pcb.pid, vpn)))
    && (forall f :: 0 <= f < FRAMES && t.roles[f].Page? && t.roles[f].pid == pcb.pid ==>
          StackPage(t.top, t.roles[f].vpn) && FrameFor(t, pcb.pid, t.roles[f].vpn) == f)
  }

  ghost predicate CanSetUp(s: State, pcb: Pcb) {
    && Shape(s) && s.handler.Idle?
    && pcb.pid !in s.procs && pcb.pid !in s.waiting
    && ExtentOnDisk(pcb, s.disk) && Layout(pcb, s.top)
    && (forall p :: p in s.procs ==> Disjoint(s.procs[p], pcb))
    && SpaceReady(s, pcb)
  }

  ghost function SetUp(s: State, pcb: Pcb): State { s.(procs := s.procs[pcb.pid := pcb]) }

}
