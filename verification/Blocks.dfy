/** Inodes, block allocation and resize_inode of filesystem/fs.c, on values: the state that the
  * class in Files keeps in arrays and on disk, the effect of each operation on it, and the
  * conservation of data blocks.
  */
module Blocks {
  import opened Bitmap

  const BLOCK_SIZE: nat := 512
  const INODE_NDIRECT: nat := 8
  const MAX_FILESIZE: nat := 4096
  const NDATA_BLKS: nat := 479
  const MAX_INODES: nat := 512
  const INODE_SIZE: nat := 32
  const BITMAP_BLOCKS: nat := 2
  const INODE_BLOCKS: nat := 32
  const FS_BLOCKS: nat := 514

  // Of the error codes only FSE_OK is known; the others are negative.
  const FSE_OK: int := 0
  const FSE_FULL: int := -2
  const FSE_INODETABLEFULL: int := -3
  const FSE_NOMOREINODES: int := -4
  const FSE_NOTEXIST: int := -5

  datatype Kind = File | Directory

  datatype Inode = Inode(kind: Kind, size: int, nlinks: int, direct: seq<int>)

  /** The inodes and the two bitmaps in memory, and the bitmaps on disk. */
  datatype Fs = Fs(inodes: seq<Inode>, ibits: seq<bool>, dbits: seq<bool>, savedIbits: seq<bool>, savedDbits: seq<bool>)

  // ---------- Where things are on disk ----------

  function Ino2Blk(ino: int): int {
    if ino < 0 || ino > 512 then -1
    else BITMAP_BLOCKS + ino / (BLOCK_SIZE / INODE_SIZE) + 1
  }

  function Idx2Blk(index: int): int {
    if index < 0 || index > FS_BLOCKS - INODE_BLOCKS - BITMAP_BLOCKS - 1 then -1
    else BITMAP_BLOCKS + INODE_BLOCKS + index
  }

  /** The two ranges overlap for the inodes from 496 on, and only for those. */
  lemma RangesOverlap(ino: int, index: int)
    requires Ino2Blk(ino) != -1 && Idx2Blk(index) != -1
    ensures Ino2Blk(ino) == Idx2Blk(index) <==> (496 <= ino < 512 && index == 0) || (ino == 512 && index == 1)
  {
  }

  /** No inode and no data block that the allocator hands out share a block, with each other or
    * with the superblock and the bitmaps. */
  lemma HandedOutApart(ino: int, index: int)
    requires 0 <= ino < BITMAP_ENTRIES && 0 <= index < BITMAP_ENTRIES
    ensures 3 <= Ino2Blk(ino) < Idx2Blk(index) < FS_BLOCKS
  {
  }

  // ---------- The invariant ----------

  predicate InodeShape(i: Inode) {
    |i.direct| == INODE_NDIRECT && forall k :: 0 <= k < INODE_NDIRECT ==> -1 <= i.direct[k] < BITMAP_ENTRIES
  }

  predicate BitsShape(bits: seq<bool>) {
    |bits| == 8 * BITMAP_ENTRIES && forall i :: BITMAP_ENTRIES <= i < |bits| ==> !bits[i]
  }

  predicate Shape(fs: Fs) {
    && |fs.inodes| == MAX_INODES && (forall i :: 0 <= i < MAX_INODES ==> InodeShape(fs.inodes[i]))
    && BitsShape(fs.ibits) && BitsShape(fs.dbits) && BitsShape(fs.savedIbits) && BitsShape(fs.savedDbits)
  }

  predicate Live(fs: Fs, i: nat) {
    i < |fs.ibits| && i < |fs.inodes| && fs.ibits[i]
  }

  /** Slot k of the live inode i holds data block d. */
  predicate Holds(fs: Fs, i: nat, k: nat, d: nat) {
    Live(fs, i) && k < |fs.inodes[i].direct| && fs.inodes[i].direct[k] == d
  }

  ghost predicate Held(fs: Fs, d: nat) {
    exists i, k :: Holds(fs, i, k, d)
  }

  ghost predicate Unshared(fs: Fs) {
    forall i, k, j, l, d :: Holds(fs, i, k, d) && Holds(fs, j, l, d) ==> i == j && k == l
  }

  /** A data block is marked used exactly if it is in one slot of one live inode, and the bitmaps
    * on disk are those in memory. */
  ghost predicate Conserved(fs: Fs) {
    && Shape(fs) && fs.savedIbits == fs.ibits && fs.savedDbits == fs.dbits
    && (forall d: nat :: d < |fs.dbits| ==> (fs.dbits[d] <==> Held(fs, d)))
    && Unshared(fs)
  }

  // ---------- Space in use ----------

  /** The allocated slots that hold a block below n. */
  ghost function Slots(fs: Fs, n: nat): set<(nat, nat)>
    requires Shape(fs)
  {
    set i: nat, k: nat | i < MAX_INODES && k < INODE_NDIRECT && Live(fs, i) && 0 <= fs.inodes[i].direct[k] < n :: (i, k)
  }

  lemma SlotsWith(fs: Fs, n: nat, i: nat, k: nat)
    requires Conserved(fs) && Holds(fs, i, k, n)
    ensures Slots(fs, n + 1) == Slots(fs, n) + {(i, k)} && (i, k) !in Slots(fs, n)
  {
    forall j: nat, l: nat | (j, l) in Slots(fs, n + 1)
      ensures (j, l) in Slots(fs, n) + {(i, k)}
    {
      assert Holds(fs, j, l, fs.inodes[j].direct[l]);
    }
  }

  lemma SlotsWithout(fs: Fs, n: nat)
    requires Shape(fs) && !Held(fs, n)
    ensures Slots(fs, n + 1) == Slots(fs, n)
  {
    forall j: nat, l: nat | (j, l) in Slots(fs, n + 1)
      ensures (j, l) in Slots(fs, n)
    {
      assert Holds(fs, j, l, fs.inodes[j].direct[l]);
    }
  }

  lemma {:induction false} SlotsCount(fs: Fs, n: nat)
    requires Conserved(fs) && n <= |fs.dbits|
    ensures |Slots(fs, n)| == Count(fs.dbits, n)
  {
    if n == 0 {
      assert Slots(fs, 0) == {};
    } else {
      SlotsCount(fs, n - 1);
      assert fs.dbits[n - 1] <==> Held(fs, n - 1);
      hide Slots;
      if fs.dbits[n - 1] {
        var i, k :| Holds(fs, i, k, n - 1);
        SlotsWith(fs, n - 1, i, k);
      } else {
        SlotsWithout(fs, n - 1);
      }
    }
  }

  /** What bitmap_used_space counts is the number of allocated slots of all live inodes. */
  lemma UsedSpaceIsSlots(fs: Fs)
    requires Conserved(fs)
    ensures Count(fs.dbits, |fs.dbits|) ==
            |set i: nat, k: nat | i < MAX_INODES && k < INODE_NDIRECT && Live(fs, i) && fs.inodes[i].direct[k] != -1 :: (i, k)|
  {
    SlotsCount(fs, |fs.dbits|);
    assert Slots(fs, |fs.dbits|) ==
           set i: nat, k: nat | i < MAX_INODES && k < INODE_NDIRECT && Live(fs, i) && fs.inodes[i].direct[k] != -1 :: (i, k);
  }

  // ---------- resize_inode ----------

  /** The slots that a file of this size uses: one block more than it fills, but 8 at most. */
  function Wanted(size: nat): nat {
    if size / BLOCK_SIZE + 1 < INODE_NDIRECT then size / BLOCK_SIZE + 1 else INODE_NDIRECT
  }

  function Holes(direct: seq<int>, n: nat): nat
    requires n <= |direct|
  {
    if n == 0 then 0 else Holes(direct, n - 1) + if direct[n - 1] == -1 then 1 else 0
  }

  function Free(bits: seq<bool>): int
    requires |bits| >= BITMAP_ENTRIES
  {
    BITMAP_ENTRIES - Count(bits, BITMAP_ENTRIES)
  }

  /** The holes below n were filled with different blocks that were free, and nothing else changed. */
  ghost predicate Filled(was: seq<int>, bits: seq<bool>, now: seq<int>, n: nat)
    requires |was| == INODE_NDIRECT && |bits| >= BITMAP_ENTRIES && n <= INODE_NDIRECT
  {
    && |now| == INODE_NDIRECT
    && (forall k :: 0 <= k < INODE_NDIRECT && (was[k] != -1 || k >= n) ==> now[k] == was[k])
    && (forall k :: 0 <= k < n && was[k] == -1 ==> 0 <= now[k] < BITMAP_ENTRIES && !bits[now[k]])
    && (forall j, k :: 0 <= j < k < n && was[j] == -1 && was[k] == -1 ==> now[j] != now[k])
  }

  ghost function Taken(was: seq<int>, now: seq<int>, n: nat): set<int>
    requires |was| == INODE_NDIRECT && |now| == INODE_NDIRECT && n <= INODE_NDIRECT
  {
    set k | 0 <= k < n && was[k] == -1 :: now[k]
  }

  /** The blocks in the slots from n up to m. */
  ghost function Dropped(direct: seq<int>, n: nat, m: nat): set<int>
    requires |direct| == INODE_NDIRECT && m <= INODE_NDIRECT
  {
    set k | n <= k < m && direct[k] != -1 :: direct[k]
  }

  /** The bitmap after `taken` were allocated and then `dropped` were freed. */
  ghost predicate BitsAre(was: seq<bool>, now: seq<bool>, taken: set<int>, dropped: set<int>) {
    && |now| == |was|
    && (forall d :: 0 <= d < |was| ==> (now[d] <==> (was[d] || d in taken) && d !in dropped))
  }

  /** The effect of resize_inode, which works on the bitmaps as they are on disk. */
  ghost predicate Resized(was: Fs, now: Fs, id: nat, size: nat, r: int)
    requires Shape(was) && id < MAX_INODES
  {
    var i, n := was.inodes[id], Wanted(size);
    if size > MAX_FILESIZE then r == FSE_INODETABLEFULL && now == was
    else
      && Shape(now) && now.ibits == was.savedIbits && now.savedIbits == was.savedIbits
      && var j := now.inodes[id];
         && now.inodes == was.inodes[id := j] && j.kind == i.kind && j.nlinks == i.nlinks
         && if Holes(i.direct, n) <= Free(was.savedDbits) then
              && r == FSE_OK && j.size == size && Filled(i.direct, was.savedDbits, j.direct, n)
              && BitsAre(was.savedDbits, now.dbits, Taken(i.direct, j.direct, n), Dropped(i.direct, n, INODE_NDIRECT))
              && now.savedDbits == now.dbits
            else
              && r == FSE_FULL && j.size == i.size
              && now.savedDbits == was.savedDbits
              && exists m :: Stuck(was, now, id, n, m)
  }

  /** resize_inode gave up at the hole m: every block was in use by then. */
  ghost predicate Stuck(was: Fs, now: Fs, id: nat, n: nat, m: nat)
    requires Shape(was) && Shape(now) && id < MAX_INODES
  {
    var d, e := was.inodes[id].direct, now.inodes[id].direct;
    && m < n <= INODE_NDIRECT && d[m] == -1 && Holes(d, m) == Free(was.savedDbits)
    && Filled(d, was.savedDbits, e, m) && BitsAre(was.savedDbits, now.dbits, Taken(d, e, m), {})
  }

  /** No slot beyond the new size is allocated: resizing does not lower the block count. */
  predicate KeepsBlocks(i: Inode, size: nat)
    requires |i.direct| == INODE_NDIRECT
  {
    forall k :: Wanted(size) <= k < INODE_NDIRECT ==> i.direct[k] == -1
  }

  /** What the caller can check before the call: a resize that is refused for its size, or finds
    * the disk full at once, changes nothing; otherwise there must be blocks enough, and none
    * beyond the new size. */
  predicate SafeResize(fs: Fs, id: nat, size: nat)
    requires Shape(fs) && id < MAX_INODES
  {
    var needed, free := Holes(fs.inodes[id].direct, Wanted(size)), Free(fs.dbits);
    || size > MAX_FILESIZE
    || (if needed <= free then KeepsBlocks(fs.inodes[id], size) else free == 0)
  }

  lemma {:induction false} NoHoles(direct: seq<int>, n: nat, k: nat)
    requires n <= |direct| && k < n && direct[k] == -1
    ensures Holes(direct, n) > 0
  {
    if k < n - 1 {
      NoHoles(direct, n - 1, k);
    }
  }

  lemma {:induction false} HoleBelow(direct: seq<int>, n: nat) returns (k: nat)
    requires n <= |direct| && Holes(direct, n) > 0
    ensures k < n && direct[k] == -1
  {
    if direct[n - 1] == -1 {
      k := n - 1;
    } else {
      k := HoleBelow(direct, n - 1);
    }
  }

  /** The inode id got blocks for its holes below n, and everything was saved. */
  ghost predicate Grows(was: Fs, now: Fs, id: nat, n: nat) {
    && Conserved(was) && Live(was, id) && id < MAX_INODES && n <= INODE_NDIRECT
    && Shape(now) && now.ibits == was.ibits == now.savedIbits && now.savedDbits == now.dbits
    && now.inodes == was.inodes[id := now.inodes[id]]
    && var d, e := was.inodes[id].direct, now.inodes[id].direct;
       Filled(d, was.dbits, e, n) && BitsAre(was.dbits, now.dbits, Taken(d, e, n), {})
  }

  /** Slot k of id is new. */
  predicate NewSlot(was: Fs, now: Fs, id: nat, n: nat, k: nat, d: nat)
    requires Shape(was) && Shape(now) && id < MAX_INODES && n <= INODE_NDIRECT
  {
    k < n && was.inodes[id].direct[k] == -1 && now.inodes[id].direct[k] == d
  }

  lemma GrownHolds(was: Fs, now: Fs, id: nat, n: nat, i: nat, k: nat, d: nat)
    requires Grows(was, now, id, n)
    ensures Holds(now, i, k, d) <==> Holds(was, i, k, d) || (i == id && NewSlot(was, now, id, n, k, d))
    ensures Holds(was, i, k, d) ==> d < |was.dbits| && was.dbits[d]
    ensures NewSlot(was, now, id, n, k, d) ==> d < |was.dbits| && !was.dbits[d] && now.dbits[d]
  {
    if Holds(was, i, k, d) {
      assert InodeShape(was.inodes[i]) && Held(was, d);
    }
  }

  lemma GrowConserves(was: Fs, now: Fs, id: nat, n: nat)
    requires Grows(was, now, id, n)
    ensures Conserved(now)
  {
    forall d: nat | d < |now.dbits|
      ensures now.dbits[d] <==> Held(now, d)
    {
      if now.dbits[d] {
        if was.dbits[d] {
          var i, k :| Holds(was, i, k, d);
          GrownHolds(was, now, id, n, i, k, d);
        } else {
          var k: nat :| k < n && was.inodes[id].direct[k] == -1 && now.inodes[id].direct[k] == d;
          GrownHolds(was, now, id, n, id, k, d);
        }
      } else if Held(now, d) {
        var i, k :| Holds(now, i, k, d);
        GrownHolds(was, now, id, n, i, k, d);
      }
    }
    forall i, k, j, l, d | Holds(now, i, k, d) && Holds(now, j, l, d)
      ensures i == j && k == l
    {
      GrownHolds(was, now, id, n, i, k, d);
      GrownHolds(was, now, id, n, j, l, d);
    }
  }

  /** A resize that lowers the block count leaves a freed block in a slot. */
  lemma ShrinkLoses(was: Fs, now: Fs, id: nat, size: nat, k: nat)
    requires Conserved(was) && Live(was, id) && id < MAX_INODES && size <= MAX_FILESIZE
    requires Resized(was, now, id, size, FSE_OK)
    requires Wanted(size) <= k < INODE_NDIRECT && was.inodes[id].direct[k] != -1
    ensures !Conserved(now)
  {
    var d := was.inodes[id].direct[k];
    assert InodeShape(was.inodes[id]);
    assert d in Dropped(was.inodes[id].direct, Wanted(size), INODE_NDIRECT);
    assert !now.dbits[d] && Holds(now, id, k, d);
    assert Held(now, d);
  }

  /** A resize that finds the disk full keeps what it took, but not on disk. */
  lemma FullLoses(was: Fs, now: Fs, id: nat, n: nat, m: nat)
    requires Conserved(was) && id < MAX_INODES && Shape(now) && Stuck(was, now, id, n, m)
    requires now.inodes == was.inodes[id := now.inodes[id].(size := was.inodes[id].size)]
    requires now.inodes[id] == was.inodes[id].(direct := now.inodes[id].direct)
    requires now.ibits == was.ibits == now.savedIbits && now.savedDbits == was.savedDbits
    ensures Conserved(now) <==> Free(was.dbits) == 0
    ensures Conserved(now) ==> now == was
  {
    var d, e := was.inodes[id].direct, now.inodes[id].direct;
    if Free(was.dbits) == 0 {
      forall k | 0 <= k < INODE_NDIRECT
        ensures e[k] == d[k] && (k < m ==> d[k] != -1)
      {
        if k < m && d[k] == -1 {
          NoHoles(d, m, k);
        }
      }
      assert e == d && Taken(d, e, m) == {};
      assert now.dbits == was.dbits;
      assert now == was;
    } else {
      var k := HoleBelow(d, m);
      assert e[k] in Taken(d, e, m);
      assert now.dbits[e[k]] && !now.savedDbits[e[k]];
    }
  }

  /** resize_inode conserves the data blocks if and only if the condition holds that its caller can check. */
  lemma ResizeConservesIff(was: Fs, now: Fs, id: nat, size: nat, r: int)
    requires Conserved(was) && Live(was, id) && id < MAX_INODES && Resized(was, now, id, size, r)
    ensures Conserved(now) <==> SafeResize(was, id, size)
  {
    var i, n := was.inodes[id], Wanted(size);
    if size <= MAX_FILESIZE {
      if Holes(i.direct, n) <= Free(was.dbits) {
        if KeepsBlocks(i, size) {
          assert Dropped(i.direct, n, INODE_NDIRECT) == {};
          GrowConserves(was, now, id, n);
        } else {
          var k :| Wanted(size) <= k < INODE_NDIRECT && i.direct[k] != -1;
          ShrinkLoses(was, now, id, size, k);
        }
      } else {
        var m :| Stuck(was, now, id, n, m);
        assert now.inodes[id] == i.(direct := now.inodes[id].direct);
        FullLoses(was, now, id, n, m);
      }
    }
  }

  // ---------- The loop of resize_inode ----------

  /** The state of the loop when the slots below x were visited: now and bits come from was and old. */
  ghost predicate Growing(was: seq<int>, before: seq<bool>, now: seq<int>, bits: seq<bool>, n: nat, x: nat) {
    && |was| == INODE_NDIRECT && |before| >= BITMAP_ENTRIES && n <= INODE_NDIRECT && x <= INODE_NDIRECT
    && var m := if x < n then x else n;
       && Filled(was, before, now, m)
       && BitsAre(before, bits, Taken(was, now, m), Dropped(was, n, x))
       && Holes(was, m) <= Free(before)
       && (x <= n ==> Count(bits, BITMAP_ENTRIES) == Count(before, BITMAP_ENTRIES) + Holes(was, x))
  }

  lemma {:induction false} CountAtMost(bits: seq<bool>, n: nat)
    requires n <= |bits|
    ensures Count(bits, n) <= n
    ensures Count(bits, n) == n <==> forall d :: 0 <= d < n ==> bits[d]
  {
    if n > 0 {
      CountAtMost(bits, n - 1);
    }
  }

  lemma GrowLengths(was: seq<int>, before: seq<bool>, now: seq<int>, bits: seq<bool>, n: nat, x: nat)
    requires Growing(was, before, now, bits, n, x)
    ensures |now| == INODE_NDIRECT && |bits| == |before|
  {
  }

  lemma GrowStart(was: seq<int>, bits: seq<bool>, n: nat)
    requires |was| == INODE_NDIRECT && |bits| >= BITMAP_ENTRIES && n <= INODE_NDIRECT
    ensures Growing(was, bits, was, bits, n, 0)
  {
    CountAtMost(bits, BITMAP_ENTRIES);
    assert Taken(was, was, 0) == {} && Dropped(was, n, 0) == {};
  }

  lemma FilledTake(was: seq<int>, before: seq<bool>, now: seq<int>, x: nat, entry: nat)
    requires |was| == INODE_NDIRECT && |before| >= BITMAP_ENTRIES && x < INODE_NDIRECT
    requires Filled(was, before, now, x) && was[x] == -1 && entry < BITMAP_ENTRIES && !before[entry]
    requires entry !in Taken(was, now, x)
    ensures Filled(was, before, now[x := entry], x + 1)
    ensures Taken(was, now[x := entry], x + 1) == Taken(was, now, x) + {entry}
  {
    var next := now[x := entry];
    assert forall k :: 0 <= k < x ==> next[k] == now[k];
    assert forall k :: 0 <= k < x && was[k] == -1 ==> now[k] in Taken(was, now, x) && now[k] != entry;
    assert next[x] == entry;
  }

  lemma GrowTake(was: seq<int>, before: seq<bool>, now: seq<int>, bits: seq<bool>, n: nat, x: nat, entry: nat)
    requires Growing(was, before, now, bits, n, x) && x < n && now[x] == -1 && entry < BITMAP_ENTRIES && !bits[entry]
    ensures Growing(was, before, now[x := entry], bits[entry := true], n, x + 1)
  {
    CountWrite(bits, BITMAP_ENTRIES, entry, true);
    CountAtMost(bits[entry := true], BITMAP_ENTRIES);
    assert Dropped(was, n, x) == {} && Dropped(was, n, x + 1) == {};
    assert was[x] == now[x];
    assert !before[entry] && entry !in Taken(was, now, x);
    FilledTake(was, before, now, x, entry);
    hide Filled, Count, Taken, Dropped;
  }

  /** Every hole was filled with the least block that was free at its turn. */
  ghost predicate LeastFirst(was: seq<int>, bits: seq<bool>, now: seq<int>, n: nat)
    requires |was| == INODE_NDIRECT && |bits| >= BITMAP_ENTRIES && |now| == INODE_NDIRECT
  {
    forall k, b :: 0 <= k < n && k < INODE_NDIRECT && was[k] == -1 && 0 <= b < now[k] && b < BITMAP_ENTRIES ==>
      bits[b] || b in Taken(was, now, k)
  }

  lemma LeastTake(was: seq<int>, before: seq<bool>, now: seq<int>, bits: seq<bool>, n: nat, x: nat, entry: nat)
    requires Growing(was, before, now, bits, n, x) && x < n && now[x] == -1 && entry < BITMAP_ENTRIES
    requires LeastFirst(was, before, now, x) && forall b :: 0 <= b < entry ==> bits[b]
    ensures LeastFirst(was, before, now[x := entry], x + 1)
  {
    var next := now[x := entry];
    forall k: nat | k <= x
      ensures Taken(was, next, k) == Taken(was, now, k)
    {
      assert forall j :: 0 <= j < k ==> next[j] == now[j];
    }
  }

  lemma LeastKeep(was: seq<int>, before: seq<bool>, now: seq<int>, bits: seq<bool>, n: nat, x: nat)
    requires Growing(was, before, now, bits, n, x) && x < INODE_NDIRECT && (x < n ==> now[x] != -1)
    requires LeastFirst(was, before, now, if x < n then x else n)
    ensures LeastFirst(was, before, now, if x < n then x + 1 else n)
  {
  }

  lemma GrowKeep(was: seq<int>, before: seq<bool>, now: seq<int>, bits: seq<bool>, n: nat, x: nat)
    requires Growing(was, before, now, bits, n, x) && x < n && now[x] != -1
    ensures Growing(was, before, now, bits, n, x + 1)
  {
    assert was[x] == now[x];
    assert Taken(was, now, x + 1) == Taken(was, now, x) && Dropped(was, n, x) == {} && Dropped(was, n, x + 1) == {};
  }

  lemma GrowRange(was: seq<int>, before: seq<bool>, now: seq<int>, bits: seq<bool>, n: nat, x: nat)
    requires Growing(was, before, now, bits, n, x) && n <= x < INODE_NDIRECT
    ensures now[x] == was[x]
  {
  }

  lemma GrowDrop(was: seq<int>, before: seq<bool>, now: seq<int>, bits: seq<bool>, n: nat, x: nat)
    requires Growing(was, before, now, bits, n, x) && n <= x < INODE_NDIRECT && 0 <= now[x] < |bits|
    ensures Growing(was, before, now, bits[now[x] := false], n, x + 1)
  {
    assert was[x] == now[x];
    assert Dropped(was, n, x + 1) == Dropped(was, n, x) + {now[x]};
  }

  lemma GrowSkip(was: seq<int>, before: seq<bool>, now: seq<int>, bits: seq<bool>, n: nat, x: nat)
    requires Growing(was, before, now, bits, n, x) && n <= x < INODE_NDIRECT && now[x] == -1
    ensures Growing(was, before, now, bits, n, x + 1)
  {
    assert was[x] == now[x];
    assert Dropped(was, n, x + 1) == Dropped(was, n, x);
  }

  /** The inode and the bitmap of now are in shape, when those of was are. */
  lemma GrowShape(was: seq<int>, before: seq<bool>, now: seq<int>, bits: seq<bool>, n: nat, x: nat)
    requires Growing(was, before, now, bits, n, x) && BitsShape(before)
    requires forall k :: 0 <= k < INODE_NDIRECT ==> -1 <= was[k] < BITMAP_ENTRIES
    ensures BitsShape(bits) && forall k :: 0 <= k < INODE_NDIRECT ==> -1 <= now[k] < BITMAP_ENTRIES
  {
  }

  lemma {:induction false} HolesMonotone(direct: seq<int>, m: nat, n: nat)
    requires m <= n <= |direct|
    ensures Holes(direct, m) <= Holes(direct, n)
  {
    if m < n {
      HolesMonotone(direct, m, n - 1);
    }
  }

  lemma GrowStuck(was: Fs, now: Fs, id: nat, size: nat, x: nat)
    requires Shape(was) && id < MAX_INODES && size <= MAX_FILESIZE && x < Wanted(size)
    requires |now.inodes| == MAX_INODES
    requires now.inodes == was.inodes[id := was.inodes[id].(direct := now.inodes[id].direct)]
    requires now.ibits == was.savedIbits == now.savedIbits && now.savedDbits == was.savedDbits
    requires Growing(was.inodes[id].direct, was.savedDbits, now.inodes[id].direct, now.dbits, Wanted(size), x)
    requires now.inodes[id].direct[x] == -1 && forall d :: 0 <= d < BITMAP_ENTRIES ==> now.dbits[d]
    ensures Shape(now) && Resized(was, now, id, size, FSE_FULL)
  {
    var d := was.inodes[id].direct;
    assert InodeShape(was.inodes[id]);
    GrowShape(d, was.savedDbits, now.inodes[id].direct, now.dbits, Wanted(size), x);
    CountAtMost(now.dbits, BITMAP_ENTRIES);
    HolesMonotone(d, x + 1, Wanted(size));
    assert Dropped(d, Wanted(size), x) == {};
    assert Stuck(was, now, id, Wanted(size), x);
  }

  lemma GrowDone(was: Fs, now: Fs, id: nat, size: nat)
    requires Shape(was) && id < MAX_INODES && size <= MAX_FILESIZE
    requires |now.inodes| == MAX_INODES
    requires now.inodes == was.inodes[id := was.inodes[id].(direct := now.inodes[id].direct, size := size)]
    requires now.ibits == was.savedIbits == now.savedIbits && now.savedDbits == now.dbits
    requires Growing(was.inodes[id].direct, was.savedDbits, now.inodes[id].direct, now.dbits, Wanted(size), INODE_NDIRECT)
    ensures Shape(now) && Resized(was, now, id, size, FSE_OK)
  {
    assert InodeShape(was.inodes[id]);
    GrowShape(was.inodes[id].direct, was.savedDbits, now.inodes[id].direct, now.dbits, Wanted(size), INODE_NDIRECT);
  }

  // ---------- create_inode and free_inode ----------

  function NewInode(): Inode {
    Inode(File, 0, 0, seq(INODE_NDIRECT, _ => -1))
  }

  /** create_inode takes the least free inode; both bitmaps are saved. */
  ghost predicate Created(was: Fs, now: Fs, r: int)
    requires Shape(was)
  {
    if forall i :: 0 <= i < BITMAP_ENTRIES ==> was.ibits[i] then r == FSE_NOMOREINODES && now == was
    else
      && 0 <= r < BITMAP_ENTRIES && !was.ibits[r] && (forall i :: 0 <= i < r ==> was.ibits[i])
      && now.inodes == was.inodes[r := NewInode()]
      && now.ibits == was.ibits[r := true] && now.dbits == was.dbits
      && now.savedIbits == now.ibits && now.savedDbits == now.dbits
  }

  /** free_inode gives back the blocks in all slots, and the inode; both bitmaps are saved. */
  ghost predicate Freed(was: Fs, now: Fs, id: nat)
    requires Shape(was) && id < BITMAP_ENTRIES
  {
    && now.inodes == was.inodes && now.ibits == was.ibits[id := false]
    && BitsAre(was.dbits, now.dbits, {}, Dropped(was.inodes[id].direct, 0, INODE_NDIRECT))
    && now.savedIbits == now.ibits && now.savedDbits == now.dbits
  }

  lemma CreateConserves(was: Fs, now: Fs, r: int)
    requires Conserved(was) && Created(was, now, r)
    ensures Conserved(now)
  {
    if r != FSE_NOMOREINODES {
      forall i: nat, k: nat, d: nat
        ensures Holds(now, i, k, d) <==> Holds(was, i, k, d)
      {
        assert i == r ==> !Live(was, i);
      }
      forall d: nat | d < |now.dbits|
        ensures Held(now, d) <==> Held(was, d)
      {
        if Held(was, d) {
          var i, k :| Holds(was, i, k, d);
          assert Holds(now, i, k, d);
        }
      }
      assert Shape(now);
    }
  }

  lemma FreeConserves(was: Fs, now: Fs, id: nat)
    requires Conserved(was) && id < BITMAP_ENTRIES && Live(was, id) && Freed(was, now, id)
    ensures Conserved(now)
  {
    forall i: nat, k: nat, d: nat
      ensures Holds(now, i, k, d) <==> i != id && Holds(was, i, k, d)
    {
    }
    forall d: nat | d < |now.dbits|
      ensures now.dbits[d] <==> Held(now, d)
    {
      if was.dbits[d] {
        var i, k :| Holds(was, i, k, d);
        if i == id {
          assert d in Dropped(was.inodes[id].direct, 0, INODE_NDIRECT);
          assert !Held(now, d);
        } else {
          assert Holds(now, i, k, d);
          if d in Dropped(was.inodes[id].direct, 0, INODE_NDIRECT) {
            var l: nat :| l < INODE_NDIRECT && was.inodes[id].direct[l] == d;
            assert Holds(was, id, l, d);
          }
        }
      } else {
        assert !Held(was, d);
        assert !Held(now, d);
      }
    }
  }

  // ---------- The loop of free_inode ----------

  lemma DropNone(bits: seq<bool>, direct: seq<int>)
    requires |direct| == INODE_NDIRECT
    ensures BitsAre(bits, bits, {}, Dropped(direct, 0, 0))
  {
  }

  lemma DropOne(was: seq<bool>, bits: seq<bool>, direct: seq<int>, x: nat)
    requires |direct| == INODE_NDIRECT && x < INODE_NDIRECT && 0 <= direct[x] < |bits|
    requires BitsAre(was, bits, {}, Dropped(direct, 0, x))
    ensures BitsAre(was, bits[direct[x] := false], {}, Dropped(direct, 0, x + 1))
  {
    assert Dropped(direct, 0, x + 1) == Dropped(direct, 0, x) + {direct[x]};
  }

  lemma FreedShape(was: Fs, now: Fs, id: nat)
    requires Shape(was) && id < BITMAP_ENTRIES && Freed(was, now, id)
    ensures Shape(now)
  {
  }

  // ---------- Runs ----------

  datatype Op = Resize(id: nat, size: nat, r: int) | Create(r: int) | FreeInode(id: nat)

  ghost predicate Does(was: Fs, op: Op, now: Fs) {
    && Shape(was)
    && match op
       case Resize(id, size, r) => id < MAX_INODES && Live(was, id) && Resized(was, now, id, size, r)
       case Create(r) => Created(was, now, r)
       case FreeInode(id) => id < BITMAP_ENTRIES && Live(was, id) && Freed(was, now, id)
  }

  ghost predicate Runs(states: seq<Fs>, ops: seq<Op>) {
    |states| == |ops| + 1 && forall i :: 0 <= i < |ops| ==> Does(states[i], ops[i], states[i + 1])
  }

  /** In every run whose resizes meet that condition, no data block is leaked or shared, and the
    * used space is the number of allocated slots. */
  lemma {:induction false} RunConserves(states: seq<Fs>, ops: seq<Op>, n: nat)
    requires Runs(states, ops) && Conserved(states[0]) && n <= |ops|
    requires forall i :: 0 <= i < n && ops[i].Resize? ==>
              Does(states[i], ops[i], states[i + 1]) && SafeResize(states[i], ops[i].id, ops[i].size)
    ensures Conserved(states[n])
    ensures Count(states[n].dbits, |states[n].dbits|) == |Slots(states[n], |states[n].dbits|)|
  {
    if n > 0 {
      RunConserves(states, ops, n - 1);
      var was, op, now := states[n - 1], ops[n - 1], states[n];
      assert Does(was, op, now);
      match op {
        case Resize(id, size, r) => ResizeConservesIff(was, now, id, size, r);
        case Create(r) => CreateConserves(was, now, r);
        case FreeInode(id) => FreeConserves(was, now, id);
      }
    }
    SlotsCount(states[n], |states[n].dbits|);
  }

  // ---------- What a resize does to the blocks of files ----------

  /** Every block that holds bytes of the file is allocated. */
  predicate Mapped(i: Inode) {
    && |i.direct| == INODE_NDIRECT && 0 <= i.size <= MAX_FILESIZE
    && forall k :: 0 <= k < INODE_NDIRECT && k * BLOCK_SIZE < i.size ==> 0 <= i.direct[k] < BITMAP_ENTRIES
  }

  /** A resize that fails leaves the size and all allocated slots as they were. */
  lemma FullKeepsSlots(was: Fs, now: Fs, id: nat, size: nat, r: int)
    requires Shape(was) && id < MAX_INODES && size <= MAX_FILESIZE && Resized(was, now, id, size, r) && r != FSE_OK
    ensures r == FSE_FULL && now.inodes[id].size == was.inodes[id].size
    ensures forall k :: 0 <= k < INODE_NDIRECT && was.inodes[id].direct[k] != -1 ==>
              now.inodes[id].direct[k] == was.inodes[id].direct[k]
  {
    var m :| Stuck(was, now, id, Wanted(size), m);
  }

  // ---------- A shrinking resize that loses a block ----------

  /** One live file with the first m blocks in its slots; the bitmap has the first b blocks in use. */
  function OneFile(size: int, m: nat, b: nat): Fs {
    var bits := (n: nat) => seq(8 * BITMAP_ENTRIES, d => d < n);
    var file := Inode(File, size, 1, seq(INODE_NDIRECT, k => if k < m then k else -1));
    Fs(seq(MAX_INODES, i => if i == 0 then file else NewInode()), bits(1), bits(b), bits(1), bits(b))
  }

  lemma OneFileConserved(size: int, m: nat)
    requires m <= INODE_NDIRECT
    ensures Conserved(OneFile(size, m, m))
  {
    var fs := OneFile(size, m, m);
    assert fs.inodes[0].direct == seq(INODE_NDIRECT, k => if k < m then k else -1);
    forall i | 0 <= i < MAX_INODES
      ensures InodeShape(fs.inodes[i])
    {
      assert fs.inodes[i] == if i == 0 then fs.inodes[0] else NewInode();
    }
    forall i: nat, k: nat, d: nat
      ensures Holds(fs, i, k, d) <==> i == 0 && k < m && k == d
    {
    }
    forall d: nat | d < |fs.dbits|
      ensures fs.dbits[d] <==> Held(fs, d)
    {
      if d < m {
        assert Holds(fs, 0, d, d);
      }
    }
  }

  /** A file of 600 bytes in blocks 0 and 1 is cut to 100 bytes: block 1 is free, and still in its slot. */
  lemma ShrinkExample()
    ensures Conserved(OneFile(600, 2, 2)) && Live(OneFile(600, 2, 2), 0)
    ensures Resized(OneFile(600, 2, 2), OneFile(100, 2, 1), 0, 100, FSE_OK)
    ensures !Conserved(OneFile(100, 2, 1))
  {
    var was, now := OneFile(600, 2, 2), OneFile(100, 2, 1);
    OneFileConserved(600, 2);
    var d := was.inodes[0].direct;
    assert now.inodes[0].direct == d && d[0] == 0 && d[1] == 1;
    assert Holes(d, 1) == 0;
    CountAtMost(was.dbits, BITMAP_ENTRIES);
    assert Taken(d, d, 1) == {};
    assert Dropped(d, 1, INODE_NDIRECT) == {1};
    assert now.inodes == was.inodes[0 := now.inodes[0]];
    assert Resized(was, now, 0, 100, FSE_OK);
    hide Conserved, Resized;
    ShrinkLoses(was, now, 0, 100, 1);
  }
}
