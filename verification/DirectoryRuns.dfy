/** Runs of the directory operations of filesystem/fs.c: when trees, link counts and blocks stay
  * right. remove_directory_entry leaves the number of a freed block in the directory whenever it
  * lowers the directory's block count. The next directory that is made can take the block, and
  * then two directories have it.
  */
module DirectoryRuns {
  import opened Bitmap
  import opened Blocks
  import opened Stale
  import opened Files
  import opened Directory
  import opened Entries
  import opened Directories

  datatype State = State(fs: Fs, disk: seq<Block>)

  datatype Op =
    | Create(dir: nat, name: Name)
    | AddLink(dir: nat, id: nat, name: Name)
    | Mkdir(dir: nat, name: Name)
    | Remove(dir: nat, id: nat)
    | Write(id: nat, data: seq<Byte>, pos: nat)

  /** Blocks are conserved, the directories form trees, and every file counts its links. */
  ghost predicate Well(s: State, depth: seq<nat>) {
    Consistent(s.fs) && |s.disk| == FS_BLOCKS && Sound(Nodes(s.fs, s.disk), depth)
  }

  /** What the operations ask of their arguments. */
  ghost predicate Asks(s: State, op: Op, depth: seq<nat>)
    requires Well(s, depth)
  {
    var nodes := Nodes(s.fs, s.disk);
    match op
    case Create(dir, name) => IsDir(nodes, dir) && NoZero(name)
    case AddLink(dir, id, name) => IsDir(nodes, dir) && NoZero(name) && id < |nodes| && !nodes[id].Unused?
    case Mkdir(dir, name) => IsDir(nodes, dir) && NoZero(name)
    case Remove(dir, id) => Lists(nodes, dir, id)
    case Write(id, _, _) => id < |nodes| && nodes[id].Regular?
  }

  /** What they do, as the methods of Directories promise. */
  ghost predicate Step(s: State, op: Op, t: State, depth: seq<nat>)
    requires Well(s, depth) && Asks(s, op, depth)
  {
    && |t.disk| == FS_BLOCKS
    && if op.Remove? then exists next :: RemoveStep(s, op.dir, op.id, t, depth, next)
       else if op.Write? then exists r :: WriteStep(s, op.id, op.data, op.pos, t, r)
       else Consistent(t.fs) && AddStep(Nodes(s.fs, s.disk), op, Nodes(t.fs, t.disk))
  }

  /** The size to which db_write resizes. */
  function EndOf(data: seq<Byte>, pos: nat): nat {
    Min(|data| + pos, MAX_FILESIZE)
  }

  ghost predicate WriteStep(s: State, id: nat, data: seq<Byte>, pos: nat, t: State, r: int)
    requires Shape(s.fs) && FilesMapped(s.fs) && |s.disk| == |t.disk| == FS_BLOCKS && id < MAX_INODES
  {
    && Shape(t.fs) && FilesMapped(t.fs) && Resized(s.fs, t.fs, id, EndOf(data, pos), r)
    && forall j :: 0 <= j < MAX_INODES && j != id && Live(s.fs, j) ==>
         Live(t.fs, j) && FileBytes(t.disk, t.fs.inodes[j]) == FileBytes(s.disk, s.fs.inodes[j])
  }

  ghost predicate AddStep(nodes: seq<Node>, op: Op, now: seq<Node>)
    requires !op.Write? && IsDir(nodes, op.dir)
  {
    || now == nodes
    || match op
       case Create(dir, name) =>
         exists file: nat :: file < |nodes| && nodes[file].Unused? && now == Linked(nodes, dir, file, Short(name))
       case AddLink(dir, id, name) => id < |nodes| && nodes[id].Regular? && now == Linked(nodes, dir, id, Short(name))
       case Mkdir(dir, name) =>
         || now == nodes[dir := OneMore(nodes[dir])]
         || exists d: nat :: d < |nodes| && nodes[d].Unused? && now == WithDirectory(nodes, dir, d, Short(name))
       case Remove(dir, id) => false
  }

  ghost predicate RemoveStep(s: State, dir: nat, id: nat, t: State, depth: seq<nat>, next: set<Slot>)
    requires Well(s, depth) && |t.disk| == FS_BLOCKS && Lists(Nodes(s.fs, s.disk), dir, id)
  {
    && Tidy(t.fs, next) && Removed(Nodes(s.fs, s.disk), Nodes(t.fs, t.disk), depth, dir, id)
    && Live(t.fs, dir) && Shrunk(s.fs, t.fs, dir)
    && t.fs.inodes[dir].size == s.fs.inodes[dir].size - DIRENT > 0
    && |s.fs.inodes[dir].direct| == INODE_NDIRECT
    && Leaves({}, next, s.fs.inodes[dir].direct, dir, Wanted(t.fs.inodes[dir].size))
  }

  // ---------- One step ----------

  /** A removal keeps the blocks conserved if and only if the block count of the directory does not
    * fall, and then trees and link counts stay right as well. What is freed below the removed
    * entry does no harm. */
  lemma RemovalConservesIff(s: State, dir: nat, id: nat, t: State, depth: seq<nat>)
    requires Well(s, depth) && Asks(s, Remove(dir, id), depth) && Step(s, Remove(dir, id), t, depth)
    ensures s.fs.inodes[dir].size >= 2 * DIRENT
    ensures Conserved(t.fs) <==> Wanted(s.fs.inodes[dir].size - DIRENT) == Wanted(s.fs.inodes[dir].size)
    ensures Conserved(t.fs) <==> Well(t, depth)
  {
    hide Sound, Removed, Conserved, Loose, Lists;
    var next :| RemoveStep(s, dir, id, t, depth, next);
    TidyReadable(s.fs, {});
    TidyReadable(t.fs, next);
    RemovedSound(Nodes(s.fs, s.disk), Nodes(t.fs, t.disk), depth, dir, id);
    DirFacts(s.fs, s.disk, dir, {});
    NextStale(s.fs, t.fs, dir, next);
    LooseConserved(t.fs, next);
    if next == {} {
      forall j | 0 <= j < MAX_INODES && Live(t.fs, j)
        ensures KeepsBlocks(t.fs.inodes[j], t.fs.inodes[j].size)
      {
        ConsistentFile(s.fs, j);
      }
    }
  }

  lemma RemovedSound(nodes: seq<Node>, now: seq<Node>, depth: seq<nat>, dir: nat, id: nat)
    requires Sound(nodes, depth) && Lists(nodes, dir, id) && Removed(nodes, now, depth, dir, id)
    ensures Sound(now, depth) && IsDir(nodes, dir)
  {
  }

  /** No slot is stale after a removal exactly if the block count did not fall. */
  lemma NextStale(was: Fs, now: Fs, dir: nat, next: set<Slot>)
    requires Consistent(was) && Live(was, dir) && dir < |now.inodes|
    requires was.inodes[dir].size >= now.inodes[dir].size > 0 && |was.inodes[dir].direct| == INODE_NDIRECT
    requires Leaves({}, next, was.inodes[dir].direct, dir, Wanted(now.inodes[dir].size))
    ensures next == {} <==> Wanted(now.inodes[dir].size) == Wanted(was.inodes[dir].size)
  {
    var i, n := was.inodes[dir], Wanted(now.inodes[dir].size);
    ConsistentFile(was, dir);
    assert next == Beyond(i.direct, dir, n);
    if n < Wanted(i.size) {
      assert i.direct[n] != -1;
      assert (dir, n) in next;
    }
  }

  /** That is, exactly when its size is no multiple of the block size, or the largest there is. */
  lemma BlockCountFalls(size: nat)
    requires DIRENT <= size <= MAX_FILESIZE && size % DIRENT == 0
    ensures Wanted(size - DIRENT) == Wanted(size) <==> size % BLOCK_SIZE != 0 || size == MAX_FILESIZE
  {
  }

  lemma AddSound(nodes: seq<Node>, op: Op, now: seq<Node>, depth: seq<nat>) returns (deep: seq<nat>)
    requires Sound(nodes, depth) && !op.Write? && IsDir(nodes, op.dir) && AddStep(nodes, op, now)
    ensures Sound(now, deep)
  {
    hide Sound, WithDirectory, Linked;
    deep := depth;
    if now != nodes {
      match op {
        case Create(dir, name) =>
          var file: nat :| file < |nodes| && nodes[file].Unused? && now == Linked(nodes, dir, file, Short(name));
          LinkedSound(nodes, depth, dir, file, Short(name));
        case AddLink(dir, id, name) =>
          LinkedSound(nodes, depth, dir, id, Short(name));
        case Mkdir(dir, name) =>
          if now == nodes[dir := OneMore(nodes[dir])] {
            CountedSound(nodes, depth, dir);
          } else {
            var d: nat :| d < |nodes| && nodes[d].Unused? && now == WithDirectory(nodes, dir, d, Short(name));
            WithDirectorySound(nodes, depth, dir, d, Short(name));
            deep := depth[d := depth[dir] + 1];
          }
      }
    }
  }

  // ---------- Runs ----------

  ghost predicate Runs(states: seq<State>, ops: seq<Op>) {
    && |states| == |ops| + 1
    && forall i, depth :: 0 <= i < |ops| && Well(states[i], depth) ==>
         Asks(states[i], ops[i], depth) && Step(states[i], ops[i], states[i + 1], depth)
  }

  /** A write keeps the blocks conserved if and only if its resize is one of the safe ones, and then
    * it leaves the tree alone. */
  lemma WriteConservesIff(s: State, id: nat, data: seq<Byte>, pos: nat, t: State, depth: seq<nat>, r: int)
    requires Well(s, depth) && Asks(s, Write(id, data, pos), depth) && |t.disk| == FS_BLOCKS
    requires WriteStep(s, id, data, pos, t, r)
    ensures Conserved(t.fs) <==> SafeResize(s.fs, id, EndOf(data, pos))
    ensures Conserved(t.fs) <==> Well(t, depth)
    ensures Nodes(t.fs, t.disk) == Nodes(s.fs, s.disk)
  {
    hide Sound, Conserved, Loose, ByteAt, Mapped;
    ConsistentFile(s.fs, id);
    ResizeConservesIff(s.fs, t.fs, id, EndOf(data, pos), r);
    NodesUpdate(s.fs, s.disk, t.fs, t.disk, id);
    assert Nodes(t.fs, t.disk) == Nodes(s.fs, s.disk);
    if Conserved(t.fs) {
      ConservedLoose(t.fs);
      WrittenFiles(s.fs, t.fs, id, EndOf(data, pos), r);
    }
  }

  lemma WrittenFiles(was: Fs, now: Fs, id: nat, size: nat, r: int)
    requires Consistent(was) && id < MAX_INODES && Live(was, id) && was.inodes[id].kind == File && size <= MAX_FILESIZE
    requires Resized(was, now, id, size, r) && SafeResize(was, id, size)
    ensures forall j :: 0 <= j < MAX_INODES && Live(now, j) ==>
              Orderly(now.inodes[j]) && KeepsBlocks(now.inodes[j], now.inodes[j].size)
  {
    hide Conserved, Loose;
    ConsistentFile(was, id);
    if r != FSE_OK {
      StuckAtOnce(was, now, id, size, r);
    }
    forall j | 0 <= j < MAX_INODES && Live(now, j)
      ensures Orderly(now.inodes[j]) && KeepsBlocks(now.inodes[j], now.inodes[j].size)
    {
      ConsistentFile(was, j);
    }
  }

  lemma StuckAtOnce(was: Fs, now: Fs, id: nat, size: nat, r: int)
    requires Consistent(was) && id < MAX_INODES && Live(was, id) && size <= MAX_FILESIZE
    requires Resized(was, now, id, size, r) && SafeResize(was, id, size) && r != FSE_OK
    ensures now == was
  {
    ResizeConservesIff(was, now, id, size, r);
    var m :| Stuck(was, now, id, Wanted(size), m);
    FullLoses(was, now, id, Wanted(size), m);
  }

  /** No removal lowers the block count of the directory that it removes from, and no write resizes
    * its file in a way that is not safe. */
  predicate KeepsCount(s: State, op: Op) {
    match op
    case Remove(dir, _) =>
      dir < |s.fs.inodes| && s.fs.inodes[dir].size >= DIRENT ==>
        Wanted(s.fs.inodes[dir].size - DIRENT) == Wanted(s.fs.inodes[dir].size)
    case Write(id, data, pos) => Shape(s.fs) && id < MAX_INODES ==> SafeResize(s.fs, id, EndOf(data, pos))
    case _ => true
  }

  /** In every run of files and directories being made, linked, written and removed, as long as no
    * removal lowers the block count of its directory and the writes are safe, the blocks are
    * conserved, the directories form trees, and each file counts the entries that name it. */
  lemma {:induction false} RunKeepsLinks(states: seq<State>, ops: seq<Op>, depth: seq<nat>, n: nat) returns (deep: seq<nat>)
    requires Runs(states, ops) && Well(states[0], depth) && n <= |ops|
    requires forall i :: 0 <= i < n ==> KeepsCount(states[i], ops[i])
    ensures Well(states[n], deep)
    ensures forall f :: 0 <= f < MAX_INODES && Live(states[n].fs, f) && states[n].fs.inodes[f].kind == File ==>
              states[n].fs.inodes[f].nlinks == Links(Nodes(states[n].fs, states[n].disk), f) > 0
  {
    hide Well, Step, Asks, KeepsCount, Nodes, Links;
    deep := depth;
    if n > 0 {
      deep := RunKeepsLinks(states, ops, depth, n - 1);
      var s, op, t := states[n - 1], ops[n - 1], states[n];
      deep := StepKeeps(s, op, t, deep);
    }
    LinksCounted(states[n], deep);
  }

  lemma StepKeeps(s: State, op: Op, t: State, depth: seq<nat>) returns (deep: seq<nat>)
    requires Well(s, depth) && Asks(s, op, depth) && Step(s, op, t, depth) && KeepsCount(s, op)
    ensures Well(t, deep)
  {
    if op.Remove? {
      RemovalConservesIff(s, op.dir, op.id, t, depth);
      deep := depth;
    } else if op.Write? {
      var r :| WriteStep(s, op.id, op.data, op.pos, t, r);
      WriteConservesIff(s, op.id, op.data, op.pos, t, depth, r);
      deep := depth;
    } else {
      deep := AddSound(Nodes(s.fs, s.disk), op, Nodes(t.fs, t.disk), depth);
    }
  }

  lemma LinksCounted(s: State, depth: seq<nat>)
    requires Well(s, depth)
    ensures forall f :: 0 <= f < MAX_INODES && Live(s.fs, f) && s.fs.inodes[f].kind == File ==>
              s.fs.inodes[f].nlinks == Links(Nodes(s.fs, s.disk), f) > 0
  {
    forall f | 0 <= f < MAX_INODES && Live(s.fs, f) && s.fs.inodes[f].kind == File
      ensures s.fs.inodes[f].nlinks == Links(Nodes(s.fs, s.disk), f) > 0
    {
      assert NodeAt(s.fs, s.disk, f) == Regular(s.fs.inodes[f].nlinks);
    }
  }

  // ---------- A removal after which two directories have the same block ----------

  /** Nothing was allocated or freed. So it is between those calls that matter here, which set links
    * and kinds, and resize directories to sizes that need no other blocks. */
  ghost predicate Quiet(was: Fs, now: Fs, root: nat) {
    && Shape(was) && Shape(now) && now.ibits == was.ibits && now.savedIbits == was.savedIbits
    && now.dbits == was.dbits && now.savedDbits == was.savedDbits
    && (forall i :: 0 <= i < MAX_INODES ==> now.inodes[i].direct == was.inodes[i].direct)
    && (root < MAX_INODES ==> now.inodes[root].size == was.inodes[root].size)
  }

  /** The calls that count when an entry is removed from root and a directory d made there:
    * remove_directory_entry shrinks root, create_inode takes d, create_directory_entry makes room
    * for "." in d and for d in root. */
  ghost predicate UnlinkThenMkdir(s: seq<Fs>, root: nat, d: int, r1: int, r2: int, r3: int) {
    && |s| == 8 && root < BITMAP_ENTRIES && 0 <= d < MAX_INODES
    && Shape(s[0]) && Resized(s[0], s[1], root, BLOCK_SIZE - DIRENT, r1) && Quiet(s[1], s[2], root)
    && Created(s[2], s[3], d) && Quiet(s[3], s[4], root)
    && Resized(s[4], s[5], d, DIRENT, r2) && Quiet(s[5], s[6], root)
    && (r2 == FSE_OK ==> LeastFirst(s[4].inodes[d].direct, s[4].savedDbits, s[5].inodes[d].direct, 1))
    && Resized(s[6], s[7], root, BLOCK_SIZE, r3)
  }

  /** When root has 32 entries in two blocks, and all blocks before the second are in use, the two
    * directories then share that block. */
  lemma SharedBlock(s: seq<Fs>, root: nat, d: int, r1: int, r2: int, r3: int)
    requires UnlinkThenMkdir(s, root, d, r1, r2, r3) && Consistent(s[0]) && Live(s[0], root)
    requires s[0].inodes[root].size == BLOCK_SIZE && s[0].inodes[root].kind == Directory
    requires forall c :: 0 <= c < s[0].inodes[root].direct[1] && c < BITMAP_ENTRIES ==> s[0].dbits[c]
    ensures r1 == r2 == r3 == FSE_OK && root != d
    ensures var b := s[0].inodes[root].direct[1];
            && 0 <= b < BITMAP_ENTRIES && !s[1].dbits[b] && !s[1].savedDbits[b] && s[1].inodes[root].direct[1] == b
            && Holds(s[7], root, 1, b) && Holds(s[7], d, 0, b) && s[7].inodes[root].size == BLOCK_SIZE
    ensures !Unshared(s[7])
  {
    hide Loose, Conserved;
    var b := Freed1(s[0], s[1], root, r1);
    Taken3(s[2], s[3], s[4], s[5], root, d, r2, b);
    assert root != d;
    var direct := s[6].inodes[root].direct;
    assert direct == s[0].inodes[root].direct;
    TwoSlots(direct);
    CountAtMost(s[6].savedDbits, BITMAP_ENTRIES);
    assert s[7].inodes[root].direct[1] == b;
    assert s[7].inodes[d] == s[6].inodes[d];
    assert Holds(s[7], root, 1, b) && Holds(s[7], d, 0, b);
  }

  lemma TwoSlots(direct: seq<int>)
    requires |direct| == INODE_NDIRECT && direct[0] != -1 && direct[1] != -1
    ensures Holes(direct, 2) == 0
  {
    assert Holes(direct, 1) == 0;
  }

  lemma Freed1(was: Fs, now: Fs, root: nat, r: int) returns (b: nat)
    requires Consistent(was) && root < BITMAP_ENTRIES && Live(was, root) && Shape(now)
    requires was.inodes[root].size == BLOCK_SIZE && was.inodes[root].kind == Directory
    requires forall c :: 0 <= c < was.inodes[root].direct[1] && c < BITMAP_ENTRIES ==> was.dbits[c]
    requires Resized(was, now, root, BLOCK_SIZE - DIRENT, r)
    ensures r == FSE_OK && now.inodes == was.inodes[root := was.inodes[root].(size := BLOCK_SIZE - DIRENT)]
    ensures now.ibits == was.ibits && now.savedDbits == now.dbits
    ensures b == was.inodes[root].direct[1] && b < BITMAP_ENTRIES && was.inodes[root].direct[0] != -1
    ensures !now.dbits[b] && forall c :: 0 <= c < b ==> now.dbits[c]
  {
    ConsistentFile(was, root);
    assert InodeShape(was.inodes[root]);
    var direct := was.inodes[root].direct;
    ShrinkTidy(was, now, root, BLOCK_SIZE - DIRENT, r, {});
    b := direct[1];
    assert direct[1] in Dropped(direct, 1, INODE_NDIRECT);
    assert Dropped(direct, 1, INODE_NDIRECT) == {b};
  }

  lemma Taken3(was: Fs, mid: Fs, next: Fs, now: Fs, root: nat, d: int, r: int, b: nat)
    requires Shape(was) && 0 <= d < MAX_INODES && Created(was, mid, d) && Quiet(mid, next, root)
    requires Resized(next, now, d, DIRENT, r) && Shape(now)
    requires r == FSE_OK ==> LeastFirst(next.inodes[d].direct, next.savedDbits, now.inodes[d].direct, 1)
    requires b < BITMAP_ENTRIES && !was.dbits[b] && forall c :: 0 <= c < b ==> was.dbits[c]
    ensures r == FSE_OK && now.inodes[d].direct[0] == b && now.ibits == was.ibits[d := true] && now.savedIbits == now.ibits
    ensures forall i :: 0 <= i < MAX_INODES && i != d ==>
              now.inodes[i] == next.inodes[i] && next.inodes[i].direct == was.inodes[i].direct
    ensures !was.ibits[d]
  {
    var direct, after := next.inodes[d].direct, now.inodes[d].direct;
    assert Holes(direct, 1) == Holes(direct, 0) + 1;
    CountAtMost(next.savedDbits, BITMAP_ENTRIES);
    assert Taken(direct, after, 0) == {};
    assert !next.savedDbits[b] && b !in Taken(direct, after, 0);
  }

  /** A root with 32 entries in the blocks 0 and 1, and 29 files without blocks: what there is when
    * the last of 30 empty files in the root is being unlinked. */
  function Start(): Fs {
    var bits := (n: nat) => seq(8 * BITMAP_ENTRIES, i => i < n);
    var root := Inode(Directory, BLOCK_SIZE, 2, seq(INODE_NDIRECT, k => if k < 2 then k else -1));
    Fs(seq(MAX_INODES, i => if i == 0 then root else NewInode().(nlinks := 1)), bits(30), bits(2), bits(30), bits(2))
  }

  lemma StartConsistent()
    ensures Consistent(Start()) && Live(Start(), 0)
    ensures Start().inodes[0].size == BLOCK_SIZE && Start().inodes[0].kind == Directory && Start().inodes[0].direct[1] == 1
    ensures forall c :: 0 <= c < 1 ==> Start().dbits[c]
  {
    var fs := Start();
    forall i | 0 <= i < MAX_INODES
      ensures InodeShape(fs.inodes[i]) && Orderly(fs.inodes[i]) && KeepsBlocks(fs.inodes[i], fs.inodes[i].size)
    {
      assert fs.inodes[i] == if i == 0 then fs.inodes[0] else NewInode().(nlinks := 1);
    }
    forall i: nat, k: nat, b: nat
      ensures Holds(fs, i, k, b) <==> i == 0 && k < 2 && k == b
    {
      assert i < MAX_INODES ==> fs.inodes[i] == if i == 0 then fs.inodes[0] else NewInode().(nlinks := 1);
    }
    forall b: nat | b < |fs.dbits|
      ensures fs.dbits[b] <==> Held(fs, b)
    {
      if b < 2 {
        assert Holds(fs, 0, b, b);
      }
    }
    ConservedLoose(fs);
  }

  /** From that input: the new directory gets block 1, which the root still has. */
  lemma SharingExample(s: seq<Fs>, d: int, r1: int, r2: int, r3: int)
    requires UnlinkThenMkdir(s, 0, d, r1, r2, r3) && s[0] == Start()
    ensures r1 == r2 == r3 == FSE_OK && !s[1].dbits[1] && !s[1].savedDbits[1] && s[1].inodes[0].direct[1] == 1
    ensures Holds(s[7], 0, 1, 1) && Holds(s[7], d, 0, 1) && !Unshared(s[7])
  {
    StartConsistent();
    SharedBlock(s, 0, d, r1, r2, r3);
  }

  lemma SharedEntry(disk: seq<Block>, i: Inode, j: Inode, k: nat)
    requires |disk| == FS_BLOCKS && Mapped(i) && Mapped(j) && k < INODE_NDIRECT && i.direct[k] == j.direct[0]
    requires i.size >= BLOCK_SIZE * k + DIRENT && j.size >= DIRENT
    ensures EntryAt(FileBytes(disk, i), 32 * k) == EntryAt(FileBytes(disk, j), 0)
  {
    hide EntryIn;
    var x, y := FileBytes(disk, i), FileBytes(disk, j);
    forall o | 0 <= o < DIRENT
      ensures x[BLOCK_SIZE * k + o] == y[o]
    {
      Locate(k, o);
    }
    assert x[BLOCK_SIZE * k..BLOCK_SIZE * k + DIRENT] == y[0..DIRENT];
  }

  /** When the block in slot k of directory a is the first block of directory b, the first entry of
    * b is an entry of a. If that names a file, as it does once the file was created in a, then "."
    * of b names the file as well: the tree is not sound, and a new file with one link is named twice. */
  lemma SharedBreaks(fs: Fs, disk: seq<Block>, a: nat, k: nat, b: nat, h: nat)
    requires Readable(fs, disk) && a < MAX_INODES && b < MAX_INODES && a != b && h < MAX_INODES && h != b
    requires Live(fs, a) && Live(fs, b) && fs.inodes[a].kind == fs.inodes[b].kind == Directory
    requires k < INODE_NDIRECT && fs.inodes[a].direct[k] == fs.inodes[b].direct[0]
    requires fs.inodes[a].size >= BLOCK_SIZE * k + DIRENT && fs.inodes[b].size >= DIRENT
    requires EntryAt(FileBytes(disk, fs.inodes[a]), 32 * k).inode == h
    ensures NodeAt(fs, disk, b).entries[0] == NodeAt(fs, disk, a).entries[32 * k]
    ensures Links(Nodes(fs, disk), h) >= 2
    ensures forall depth :: !Sound(Nodes(fs, disk), depth)
  {
    hide Sound, Shape, Mapped, ByteAt, EntryAt, Links, IsDir;
    SharedEntry(disk, fs.inodes[a], fs.inodes[b], k);
    var nodes := Nodes(fs, disk);
    assert nodes[a].entries[32 * k].inode == nodes[b].entries[0].inode == h;
    OccursNamed(nodes[a].entries, h);
    OccursNamed(nodes[b].entries, h);
    TwoLinks(nodes, h, a, b);
    forall depth
      ensures !Sound(nodes, depth)
    {
      if Sound(nodes, depth) {
        FirstIsSelf(nodes, depth, b);
      }
    }
  }

  lemma FirstIsSelf(nodes: seq<Node>, depth: seq<nat>, d: nat)
    requires Sound(nodes, depth) && d < |nodes| && nodes[d].Dir?
    ensures nodes[d].entries != [] && nodes[d].entries[0].inode == d
  {
    DirIsOk(nodes, depth, d);
  }

  lemma TwoLinks(nodes: seq<Node>, f: nat, a: nat, b: nat)
    requires a < |nodes| && b < |nodes| && a != b && nodes[a].Dir? && nodes[b].Dir?
    requires Occurs(nodes[a].entries, f) > 0 && Occurs(nodes[b].entries, f) > 0
    ensures Links(nodes, f) >= 2
  {
    TwoRefs(nodes, |nodes|, f, a, b);
  }

  lemma {:induction false} TwoRefs(nodes: seq<Node>, n: nat, f: nat, a: nat, b: nat)
    requires a < n <= |nodes| && b < n && a != b
    ensures Refs(nodes, n, f) >= NodeRefs(nodes[a], f) + NodeRefs(nodes[b], f)
  {
    if a == n - 1 {
      RefsAtLeast(nodes, n - 1, f, b);
    } else if b == n - 1 {
      RefsAtLeast(nodes, n - 1, f, a);
    } else {
      TwoRefs(nodes, n - 1, f, a, b);
    }
  }

  // ---------- The methods take these steps ----------

  ghost function Now(fs: FileSystem): State
    requires fs.Allocated()
    reads fs, fs.inodeBmap, fs.dblkBmap, fs.inodes, fs.disk
  {
    State(fs.View(), fs.disk[..])
  }

  function Deepest(depth: seq<nat>): (bound: nat)
    ensures forall d :: 0 <= d < |depth| ==> depth[d] <= bound
  {
    if depth == [] then 0
    else
      var rest := Deepest(depth[1..]);
      assert forall d :: 0 < d < |depth| ==> depth[d] == depth[1..][d - 1];
      if rest > depth[0] then rest else depth[0]
  }

  lemma ResizedLive(was: Fs, now: Fs, id: nat, size: nat, r: int)
    requires Consistent(was) && id < MAX_INODES && Resized(was, now, id, size, r)
    ensures forall j :: Live(now, j) <==> Live(was, j)
  {
  }

  /** The part of fs_write that is about the file: db_write from a buffer. */
  method WriteFile(fs: FileSystem, id: nat, data: seq<Byte>, pos: nat)
    requires fs.Valid() && Consistent(fs.View()) && id < MAX_INODES && Live(fs.View(), id)
    modifies fs.inodes, fs.disk, fs.inodeBmap, fs.dblkBmap
    ensures fs.Valid() && exists r :: WriteStep(old(Now(fs)), id, data, pos, Now(fs), r)
  {
    hide Loose, Conserved, Resized, ByteAt, Bits;
    ghost var s := Now(fs);
    TidyReadable(s.fs, {});
    ConsistentFile(s.fs, id);
    CanResizeSame(s.fs, id, EndOf(data, pos));
    var buffer := new Byte[|data|](i requires 0 <= i < |data| => data[i]);
    var r := fs.DbWrite(id, buffer, |data|, pos, {});
    ResizedLive(s.fs, fs.View(), id, EndOf(data, pos), if r >= 0 then FSE_OK else r);
    assert WriteStep(s, id, data, pos, Now(fs), if r >= 0 then FSE_OK else r);
  }

  /** Each operation is a step, from every state that is well. */
  method Perform(fs: FileSystem, op: Op, junk: seq<Byte>, ghost depth: seq<nat>)
    requires fs.Valid() && Well(Now(fs), depth) && Asks(Now(fs), op, depth) && |junk| == MAX_FILENAME_LEN
    modifies fs.inodes, fs.disk, fs.inodeBmap, fs.dblkBmap
    ensures fs.Valid() && Step(old(Now(fs)), op, Now(fs), depth)
  {
    hide Sound, Conserved, Loose, Linked, WithDirectory, Removed, Lists, Room, Cost, NoInode, Free, Holes;
    ghost var s := Now(fs);
    TidyReadable(s.fs, {});
    match op {
      case Create(dir, name) =>
        var file := CreateFile(fs, dir, name, junk);
      case AddLink(dir, id, name) =>
        var r := Link(fs, dir, id, name, junk);
      case Mkdir(dir, name) =>
        var r, d := MakeDirectory(fs, dir, name, junk);
        assert r == FSE_OK ==> d >= 0;
      case Remove(dir, id) =>
        ghost var next := RemoveDirectoryEntry(fs, dir, id, depth, Deepest(depth), {});
        assert RemoveStep(s, dir, id, Now(fs), depth, next);
      case Write(id, data, pos) =>
        WriteFile(fs, id, data, pos);
    }
  }
}
