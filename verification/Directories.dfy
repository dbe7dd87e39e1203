/** The directory operations of filesystem/fs.c on inodes, bitmaps and disk blocks. What they make
  * of the tree is said in the terms of module Directory, what they make of the blocks in those
  * of Blocks and Stale.
  */
module Directories {
  import opened Bitmap
  import opened Blocks
  import opened Stale
  import opened Files
  import opened Directory
  import opened Entries

  /** The tree that the file system holds. */
  ghost function Tree(fs: FileSystem): (nodes: seq<Node>)
    requires fs.Valid() && FilesMapped(fs.View())
    reads fs, fs.inodeBmap, fs.dblkBmap, fs.inodes, fs.disk
    ensures |nodes| == MAX_INODES
  {
    Nodes(fs.View(), fs.disk[..])
  }

  /** What is left of the inodes when things were removed from dir. */
  ghost predicate Shrunk(was: Fs, now: Fs, dir: nat) {
    && |was.inodes| == |now.inodes| == MAX_INODES
    && forall i :: 0 <= i < MAX_INODES && Live(now, i) ==>
         && Live(was, i) && now.inodes[i].direct == was.inodes[i].direct && now.inodes[i].kind == was.inodes[i].kind
         && (i != dir ==> now.inodes[i].size == was.inodes[i].size)
  }

  // ---------- name2inode_f ----------

  /** strncmp of the name and a name field, up to the length of the name. */
  method BeginsWith(buffer: array<Byte>, x: nat, name: Name) returns (begins: bool)
    requires DIRENT * x + DIRENT <= buffer.Length && NoZero(name)
    ensures begins <==> name <= EntryAt(buffer[..], x).name
  {
    ghost var field := buffer[..][DIRENT * x..DIRENT * x + DIRENT][2..];
    for i := 0 to |name|
      invariant i <= MAX_FILENAME_LEN && name[..i] == field[..i]
    {
      if i == MAX_FILENAME_LEN || buffer[DIRENT * x + 2 + i] != name[i] {
        PrefixEnds(field, name, i);
        return false;
      }
    }
    PrefixWhole(field, name);
    return true;
  }

  /** The entry of dir whose name begins with the given one, the first of them. */
  method FindName(fs: FileSystem, dir: nat, name: Name) returns (inode: int)
    requires fs.Valid() && FilesMapped(fs.View()) && dir < MAX_INODES && Tree(fs)[dir].Dir? && NoZero(name)
    ensures inode == Lookup(Tree(fs)[dir].entries, name)
  {
    hide EntryIn, Lookup, Bits;
    var buffer := ReadAll(fs, dir);
    ghost var entries := Tree(fs)[dir].entries;
    assert entries == EntriesOf(buffer[..]);
    for x := 0 to buffer.Length / DIRENT
      invariant buffer[..] == fs.Contents(dir)
      invariant forall j :: 0 <= j < x ==> !(name <= entries[j].name)
    {
      var begins := BeginsWith(buffer, x, name);
      if begins {
        LookupFirst(entries, name, x);
        return EntryAt(buffer[..], x).inode;
      }
    }
    LookupFirst(entries, name, |entries|);
    return -1;
  }

  // ---------- reduce_links ----------

  /** One link less; an inode without links, or of a directory, is freed. */
  method ReduceLinks(fs: FileSystem, id: nat)
    requires fs.Valid() && id < BITMAP_ENTRIES
    modifies fs.inodes, fs.disk, fs.inodeBmap, fs.dblkBmap
    ensures fs.Valid() && LinkReduced(old(fs.View()), fs.View(), id) && SameData(old(fs.disk[..]), fs.disk[..])
  {
    hide Bits, Freed;
    ghost var was := fs.View();
    fs.inodes[id] := fs.inodes[id].(nlinks := fs.inodes[id].nlinks - 1);
    ghost var less := fs.View();
    assert less == was.(inodes := was.inodes[id := fs.inodes[id]]);
    if fs.inodes[id].nlinks <= 0 || fs.inodes[id].kind == Directory {
      fs.FreeInode(id);
    } else {
      fs.SaveInode(id);
      assert fs.View() == less;
    }
  }

  // ---------- remove_directory_entry ----------

  /** One entry is copied. */
  method CopyEntry(from: array<Byte>, x: nat, to: array<Byte>, j: nat)
    requires from != to && DIRENT * x + DIRENT <= from.Length && DIRENT * j + DIRENT <= to.Length
    modifies to
    ensures EntryAt(to[..], j) == EntryAt(from[..], x)
    ensures forall m :: 0 <= m && DIRENT * m + DIRENT <= to.Length && m != j ==> EntryAt(to[..], m) == old(EntryAt(to[..], m))
  {
    forall i | 0 <= i < DIRENT {
      to[DIRENT * j + i] := from[DIRENT * x + i];
    }
    assert to[..][DIRENT * j..DIRENT * j + DIRENT] == from[..][DIRENT * x..DIRENT * x + DIRENT];
    forall m | 0 <= m && DIRENT * m + DIRENT <= to.Length && m != j
      ensures EntryAt(to[..], m) == old(EntryAt(to[..], m))
    {
      assert to[..][DIRENT * m..DIRENT * m + DIRENT] == old(to[..][DIRENT * m..DIRENT * m + DIRENT]);
    }
  }

  method ReadAll(fs: FileSystem, id: nat) returns (buffer: array<Byte>)
    requires fs.Valid() && id < MAX_INODES && Mapped(fs.inodes[id])
    ensures fresh(buffer) && fs.Foreign(buffer) && buffer[..] == fs.Contents(id)
  {
    buffer := new Byte[fs.inodes[id].size];
    var read := fs.DbRead(id, buffer, fs.inodes[id].size, 0);
    assert buffer[..] == buffer[..read];
  }

  /** The loop of remove_directory_entry: the first entry for id is not copied, and its links are reduced. */
  method CopyOthers(fs: FileSystem, id: nat, buffer: array<Byte>, newBuffer: array<Byte>)
    requires fs.Valid() && id < BITMAP_ENTRIES && fs.Foreign(buffer) && fs.Foreign(newBuffer) && buffer != newBuffer
    requires buffer.Length % DIRENT == 0 && newBuffer.Length == buffer.Length - DIRENT
    requires exists k :: 0 <= k < |EntriesOf(buffer[..])| && EntriesOf(buffer[..])[k].inode == id
    modifies newBuffer, fs.inodes, fs.disk, fs.inodeBmap, fs.dblkBmap
    ensures fs.Valid() && LinkReduced(old(fs.View()), fs.View(), id) && SameData(old(fs.disk[..]), fs.disk[..])
    ensures EntriesOf(newBuffer[..]) == Without(EntriesOf(old(buffer[..])), id)
  {
    hide LinkReduced, Without, EntryAt, Bits, Shape;
    var entries := buffer.Length / DIRENT;
    ghost var listed := EntriesOf(buffer[..]);
    ghost var at :| 0 <= at < |listed| && listed[at].inode == id;
    ghost var first := WithoutSplits(listed, id, at);
    ghost var was, d := fs.View(), fs.disk[..];
    var j, found := 0, 0;
    for x := 0 to entries
      invariant fs.Valid() && buffer[..] == old(buffer[..])
      invariant x <= first ==> found == 0 && j == x && fs.View() == was && fs.disk[..] == d
      invariant x > first ==> found == 1 && j == x - 1 && LinkReduced(was, fs.View(), id) && SameData(d, fs.disk[..])
      invariant forall m :: 0 <= m < j ==> EntryAt(newBuffer[..], m) == listed[if m < first then m else m + 1]
    {
      if EntryAt(buffer[..], x).inode == id && found < 1 {
        found := found + 1;
        ReduceLinks(fs, id);
      } else {
        CopyEntry(buffer, x, newBuffer, j);
        j := j + 1;
      }
    }
    assert EntriesOf(newBuffer[..]) == listed[..first] + listed[first + 1..];
  }

  /** The end of remove_directory_entry: the directory shrinks to what was left of it. */
  method WriteEntries(fs: FileSystem, dir: nat, newBuffer: array<Byte>, ghost stale: set<Slot>)
      returns (ghost next: set<Slot>)
    requires fs.Valid() && Tidy(fs.View(), stale) && dir < BITMAP_ENTRIES && Live(fs.View(), dir)
    requires fs.inodes[dir].kind == Directory && newBuffer.Length == fs.inodes[dir].size - DIRENT > 0
    requires fs.Foreign(newBuffer)
    modifies fs.inodes, fs.disk, fs.inodeBmap, fs.dblkBmap
    ensures fs.Valid() && next == stale + Beyond(old(fs.inodes[dir]).direct, dir, Wanted(newBuffer.Length)) && Tidy(fs.View(), next)
    ensures fs.inodes[..] == old(fs.inodes[..])[dir := old(fs.inodes[dir]).(size := newBuffer.Length)]
    ensures fs.View().ibits == old(fs.View().ibits)
    ensures Tree(fs) == old(Tree(fs))[dir := Dir(old(fs.inodes[dir]).nlinks, EntriesOf(newBuffer[..]))]
  {
    hide Bits, Resized, Loose, CanResize, Mapped;
    ghost var was, d := fs.View(), fs.disk[..];
    ghost var n, direct := Wanted(newBuffer.Length), fs.inodes[dir].direct;
    var newSize := fs.inodes[dir].size - DIRENT;
    var resized := fs.ResizeInode(dir, newSize);
    ghost var mid, e := fs.View(), fs.disk[..];
    ShrinkTidy(was, mid, dir, newSize, resized, stale);
    next := stale + Beyond(direct, dir, n);
    ShrinkFits(mid, dir, newSize, next);
    var written := fs.DbWrite(dir, newBuffer, newSize, 0, next);
    ShrinkTidy(mid, fs.View(), dir, newSize, if written >= 0 then FSE_OK else written, next);
    assert next + Beyond(direct, dir, n) == next;
    forall j | 0 <= j < MAX_INODES && j != dir
      ensures SameNode(was, d, fs.View(), fs.disk[..], j)
    {
      SameInodeSameNode(was, d, mid, e, j);
      assert Live(mid, j) ==> fs.Contents(j) == FileBytes(e, mid.inodes[j]);
    }
    assert newBuffer[..written] == newBuffer[..] && fs.Contents(dir) == newBuffer[..];
    NodesUpdate(was, d, fs.View(), fs.disk[..], dir);
  }

  /** What remains of the entries of dir without the first one for id, whose links are reduced. */
  method LeaveOut(fs: FileSystem, dir: nat, id: nat, ghost stale: set<Slot>) returns (newBuffer: array<Byte>)
    requires fs.Valid() && Tidy(fs.View(), stale) && id < MAX_INODES && id != dir
    requires IsDir(Tree(fs), dir) && !Tree(fs)[id].Unused?
    requires exists k :: 0 <= k < |Tree(fs)[dir].entries| && Tree(fs)[dir].entries[k].inode == id
    modifies fs.inodes, fs.disk, fs.inodeBmap, fs.dblkBmap
    ensures fs.Valid() && Tidy(fs.View(), StaleReduced(old(fs.View()), fs.View(), id, stale))
    ensures Tree(fs) == old(Tree(fs))[id := Reduced(old(Tree(fs))[id])]
    ensures Shrunk(old(fs.View()), fs.View(), dir) && Live(fs.View(), dir) && fs.inodes[dir] == old(fs.inodes[dir])
    ensures fs.inodes[dir].kind == Directory && fs.inodes[dir].size >= 2 * DIRENT && dir < BITMAP_ENTRIES
    ensures Live(fs.View(), id) ==> fs.inodes[id].kind == File
    ensures fresh(newBuffer) && fs.Foreign(newBuffer) && newBuffer.Length == fs.inodes[dir].size - DIRENT
    ensures EntriesOf(newBuffer[..]) == Without(old(Tree(fs))[dir].entries, id)
  {
    hide Bits, Loose, Without, EntryAt, LinkReduced, Mapped;
    ghost var was, d := fs.View(), fs.disk[..];
    ghost var at: nat :| at < |Tree(fs)[dir].entries| && Tree(fs)[dir].entries[at].inode == id;
    DirFacts(was, d, dir, stale);
    LiveBelow(was, id, stale);
    var buffer := ReadAll(fs, dir);
    newBuffer := new Byte[fs.inodes[dir].size - DIRENT];
    assert EntriesOf(buffer[..])[at].inode == id;
    CopyOthers(fs, id, buffer, newBuffer);
    ReducedTidy(was, fs.View(), id, stale);
    ReducedNodes(was, d, fs.View(), fs.disk[..], id, stale);
  }

  /** The second half of remove_directory_entry. */
  method DropEntry(fs: FileSystem, dir: nat, id: nat, ghost stale: set<Slot>) returns (ghost next: set<Slot>)
    requires fs.Valid() && Tidy(fs.View(), stale) && id < MAX_INODES && id != dir
    requires IsDir(Tree(fs), dir) && !Tree(fs)[id].Unused?
    requires exists k :: 0 <= k < |Tree(fs)[dir].entries| && Tree(fs)[dir].entries[k].inode == id
    modifies fs.inodes, fs.disk, fs.inodeBmap, fs.dblkBmap
    ensures fs.Valid() && Tidy(fs.View(), next) && Tree(fs) == AfterDrop(old(Tree(fs)), dir, id)
    ensures fs.inodes[dir].size == old(fs.inodes[dir].size) - DIRENT > 0
    ensures Live(fs.View(), dir) && Shrunk(old(fs.View()), fs.View(), dir)
    ensures Live(fs.View(), id) ==> fs.inodes[id].kind == File
    ensures next == StaleReduced(old(fs.View()), fs.View(), id, stale) +
                    Beyond(old(fs.inodes[dir]).direct, dir, Wanted(fs.inodes[dir].size))
  {
    hide Bits, Loose, Without, EntriesOf, Mapped, Orderly, Wanted, Beyond;
    ghost var was := fs.View();
    var newBuffer := LeaveOut(fs, dir, id, stale);
    next := WriteEntries(fs, dir, newBuffer, StaleReduced(was, fs.View(), id, stale));
  }

  /** The stale slots after things were removed from dir, which has n slots left: slots of dir
    * that hold a block beyond them, and otherwise only slots that were stale before. */
  ghost predicate Leaves(stale: set<Slot>, next: set<Slot>, direct: seq<int>, dir: nat, n: nat)
    requires |direct| == INODE_NDIRECT
  {
    Beyond(direct, dir, n) <= next <= stale + Beyond(direct, dir, n)
  }

  /** An emptied directory is freed with its stale slots. */
  lemma RemovalLeaves(was: Fs, mid: Fs, now: Fs, dir: nat, id: nat, stale: set<Slot>, mids: set<Slot>, next: set<Slot>)
    requires Shape(was) && Shape(now) && dir < MAX_INODES && id < MAX_INODES && Live(now, dir)
    requires Shrunk(was, mid, id) && Shrunk(mid, now, dir) && (Live(now, id) ==> now.inodes[id].kind == File)
    requires mid == was || was.inodes[id].kind == Directory
    requires forall p :: p in mids ==> p in stale || (p.0 == id && was.inodes[id].kind == Directory)
    requires now.inodes[dir].size >= 0 && mid.inodes[dir].direct == was.inodes[dir].direct
    requires next == StaleReduced(mid, now, id, mids) + Beyond(was.inodes[dir].direct, dir, Wanted(now.inodes[dir].size))
    ensures Shrunk(was, now, dir) && Leaves(stale, next, was.inodes[dir].direct, dir, Wanted(now.inodes[dir].size))
  {
  }

  lemma ShrunkRefl(fs: Fs, dir: nat)
    requires Shape(fs)
    ensures Shrunk(fs, fs, dir)
  {
  }

  lemma ShrunkTrans(a: Fs, b: Fs, c: Fs, dir: nat)
    requires Shrunk(a, b, dir) && Shrunk(b, c, dir)
    ensures Shrunk(a, c, dir)
  {
  }

  lemma ChildDirectory(nodes: seq<Node>, depth: seq<nat>, dir: nat, id: nat)
    requires Sound(nodes, depth) && Lists(nodes, dir, id) && IsDir(nodes, id)
    ensures |depth| == |nodes| && dir < |nodes| && depth[id] == depth[dir] + 1
    ensures nodes[id].entries[0].inode == id && nodes[id].entries[1].inode == dir && IsDir(nodes, dir) && dir != id
  {
    var at := ChildIsDropped(nodes, depth, dir, id);
    assert DirOk(nodes, depth, id);
  }

  /** The first half of remove_directory_entry: everything in the directory id is removed. */
  method EmptyDirectory(fs: FileSystem, dir: nat, id: nat, ghost depth: seq<nat>, ghost bound: nat, ghost stale: set<Slot>)
      returns (ghost next: set<Slot>)
    requires fs.Valid() && Tidy(fs.View(), stale) && Sound(Tree(fs), depth) && Lists(Tree(fs), dir, id)
    requires IsDir(Tree(fs), id) && forall d :: 0 <= d < |depth| ==> depth[d] <= bound
    modifies fs.inodes, fs.disk, fs.inodeBmap, fs.dblkBmap
    ensures fs.Valid() && Tidy(fs.View(), next)
    ensures Emptying(old(Tree(fs)), Tree(fs), depth, id, |old(Tree(fs))[id].entries|)
    ensures Shrunk(old(fs.View()), fs.View(), id) && forall p :: p in next ==> p in stale || p.0 == id
    decreases bound - depth[dir], 0
  {
    hide Bits, Loose, Below, Without, AfterDrop, InodeAfter, Emptying, EntryAt, Mapped, Orderly, Shrunk, Sound;
    ghost var was := Tree(fs);
    ghost var view := fs.View();
    ChildDirectory(was, depth, dir, id);
    DirFacts(view, fs.disk[..], id, stale);
    EmptyingStart(was, depth, id);
    var entries := fs.inodes[id].size / DIRENT;
    var buffer := ReadAll(fs, id);
    ghost var listed := was[id].entries;
    assert EntriesOf(buffer[..]) == listed;
    next := stale;
    assert Shrunk(view, view, id) by {
      ShrunkRefl(view, id);
    }
    for x := 0 to entries
      invariant fs.Valid() && Tidy(fs.View(), next) && Emptying(was, Tree(fs), depth, id, x)
      invariant Shrunk(view, fs.View(), id) && forall p :: p in next ==> p in stale || p.0 == id
      invariant EntriesOf(buffer[..]) == listed
    {
      ghost var now, before := Tree(fs), fs.View();
      var inode := EntryAt(buffer[..], x).inode;
      assert inode == listed[x].inode;
      if inode != dir && inode != id {
        EmptyingEntries(was, now, depth, id, x);
        next := RemoveDirectoryEntry(fs, id, inode, depth, bound, next);
        ShrunkTrans(view, before, fs.View(), id);
        EmptyingStep(was, now, Tree(fs), depth, id, x);
      } else {
        EmptyingSkip(was, now, depth, dir, id, x);
      }
    }
  }

  /** remove_directory_entry, for an entry of dir besides "." and "..". */
  method RemoveDirectoryEntry(fs: FileSystem, dir: nat, id: nat, ghost depth: seq<nat>, ghost bound: nat, ghost stale: set<Slot>)
      returns (ghost next: set<Slot>)
    requires fs.Valid() && Tidy(fs.View(), stale) && Sound(Tree(fs), depth) && Lists(Tree(fs), dir, id)
    requires forall d :: 0 <= d < |depth| ==> depth[d] <= bound
    modifies fs.inodes, fs.disk, fs.inodeBmap, fs.dblkBmap
    ensures fs.Valid() && Tidy(fs.View(), next) && Removed(old(Tree(fs)), Tree(fs), depth, dir, id)
    ensures fs.inodes[dir].size == old(fs.inodes[dir].size) - DIRENT > 0
    ensures Live(fs.View(), dir) && Shrunk(old(fs.View()), fs.View(), dir)
    ensures |old(fs.inodes[dir]).direct| == INODE_NDIRECT
    ensures Leaves(stale, next, old(fs.inodes[dir]).direct, dir, Wanted(fs.inodes[dir].size))
    decreases bound - depth[dir], 1
  {
    hide Bits, Loose, Below, Without, AfterDrop, InodeAfter, Emptying, Beyond, EntryAt, Mapped, Orderly, Sound;
    ghost var was := Tree(fs);
    ghost var view := fs.View();
    ghost var at := ChildIsDropped(was, depth, dir, id);
    next := stale;
    if fs.inodes[id].kind == Directory {
      next := EmptyDirectory(fs, dir, id, depth, bound, stale);
      RemoveDone(was, Tree(fs), depth, dir, id);
    } else {
      RemoveFile(was, depth, dir, id);
    }
    CanDropFacts(Tree(fs), depth, dir, id);
    ghost var mid, mids := fs.View(), next;
    next := DropEntry(fs, dir, id, next);
    RemovalLeaves(view, mid, fs.View(), dir, id, stale, mids, next);
  }

  // ---------- create_directory_entry ----------

  /** The first half of create_directory_entry: the directory grows, and the entry is written. */
  method AppendEntry(fs: FileSystem, dir: nat, inode: nat, name: Name, junk: seq<Byte>) returns (r: int)
    requires fs.Valid() && Consistent(fs.View()) && dir < MAX_INODES && Tree(fs)[dir].Dir? && inode < BITMAP_ENTRIES
    requires NoZero(name) && |junk| == MAX_FILENAME_LEN
    modifies fs.inodes, fs.disk, fs.inodeBmap, fs.dblkBmap
    ensures fs.Valid() && Consistent(fs.View()) && fs.View().ibits == old(fs.View().ibits)
    ensures old(fs.inodes[dir].size) >= 0 && r == Room(old(fs.View()), dir)
    ensures r != FSE_OK ==> fs.View() == old(fs.View()) && Tree(fs) == old(Tree(fs))
    ensures r == FSE_OK ==> Tree(fs) == old(Tree(fs))[dir := Appended(old(Tree(fs))[dir], Entry(Short(name), inode))]
    ensures r == FSE_OK ==> forall j :: 0 <= j < MAX_INODES && j != dir ==> fs.inodes[j] == old(fs.inodes[j])
    ensures r == FSE_OK ==> fs.inodes[dir].size == old(fs.inodes[dir].size) + DIRENT
    ensures r == FSE_OK ==> Free(fs.View().dbits) == Free(old(fs.View().dbits)) - Cost(old(fs.View()), dir)
  {
    hide Bits, Resized, Loose, CanResize, Mapped, Conserved, EntryIn, Short, EntryBytes, Holes, Free;
    ghost var was, d := fs.View(), fs.disk[..];
    DirFacts(was, d, dir, {});
    var grown := fs.inodes[dir].size + DIRENT;
    r := fs.ResizeInode(dir, grown);
    ghost var mid, e := fs.View(), fs.disk[..];
    GrowConsistent(was, mid, dir, grown, r);
    if r != FSE_OK {
      SameNodes(was, d, mid, e);
      return r;
    }
    var bytes := EntryBytes(inode, name, junk);
    var entry := new Byte[DIRENT](i requires 0 <= i < DIRENT => bytes[i]);
    assert entry[..] == bytes;
    CanResizeSame(mid, dir, grown);
    r := fs.DbWrite(dir, entry, DIRENT, fs.inodes[dir].size - DIRENT, {});
    GrowConsistent(mid, fs.View(), dir, grown, if r >= 0 then FSE_OK else r);
    assert entry[..r] == bytes;
    EntryRoundTrip(inode, name, junk);
    AppendedNodes(was, d, mid, e, fs.disk[..], dir, bytes);
    return FSE_OK;
  }

  lemma CanResizeSame(fs: Fs, id: nat, size: nat)
    requires Consistent(fs) && id < BITMAP_ENTRIES && Live(fs, id)
    ensures CanResize(fs, {}, id, size)
  {
  }

  /** The end of create_directory_entry: one link more. */
  method CountLink(fs: FileSystem, inode: nat)
    requires fs.Valid() && Consistent(fs.View()) && inode < MAX_INODES && !Tree(fs)[inode].Unused?
    modifies fs.inodes, fs.disk
    ensures fs.Valid() && Consistent(fs.View()) && fs.View() == old(fs.View()).(inodes := fs.inodes[..])
    ensures fs.inodes[..] == old(fs.inodes[..])[inode := old(fs.inodes[inode]).(nlinks := old(fs.inodes[inode]).nlinks + 1)]
    ensures Tree(fs) == old(Tree(fs))[inode := OneMore(old(Tree(fs))[inode])]
  {
    hide Bits, Loose, KeepsBlocks, Orderly;
    ghost var was, d := fs.View(), fs.disk[..];
    ConsistentFile(was, inode);
    fs.inodes[inode] := fs.inodes[inode].(nlinks := fs.inodes[inode].nlinks + 1);
    fs.SaveInode(inode);
    assert fs.View() == was.(inodes := was.inodes[inode := fs.inodes[inode]]);
    ConsistentFields(was, fs.View(), inode);
    FieldNodes(was, d, fs.View(), fs.disk[..], inode);
  }

  /** The entry is the last one of dir and counted as a link, or nothing changed. */
  method CreateDirectoryEntry(fs: FileSystem, dir: nat, inode: nat, name: Name, junk: seq<Byte>) returns (r: int)
    requires fs.Valid() && Consistent(fs.View()) && dir < MAX_INODES && Tree(fs)[dir].Dir?
    requires inode < MAX_INODES && !Tree(fs)[inode].Unused? && NoZero(name) && |junk| == MAX_FILENAME_LEN
    modifies fs.inodes, fs.disk, fs.inodeBmap, fs.dblkBmap
    ensures fs.Valid() && Consistent(fs.View()) && fs.View().ibits == old(fs.View().ibits)
    ensures old(fs.inodes[dir].size) >= 0 && r == Room(old(fs.View()), dir)
    ensures r != FSE_OK ==> fs.View() == old(fs.View()) && Tree(fs) == old(Tree(fs))
    ensures r == FSE_OK ==> Tree(fs) == EntryAdded(old(Tree(fs)), dir, inode, name)
    ensures r == FSE_OK ==> forall j :: 0 <= j < MAX_INODES && j != dir ==>
              fs.inodes[j].(nlinks := 0) == old(fs.inodes[j]).(nlinks := 0)
    ensures r == FSE_OK ==> fs.inodes[dir].size == old(fs.inodes[dir].size) + DIRENT
    ensures r == FSE_OK ==> Free(fs.View().dbits) == Free(old(fs.View().dbits)) - Cost(old(fs.View()), dir)
  {
    hide Bits, Holes, Free, Conserved, Tidy, Loose, KeepsBlocks, Orderly;
    r := AppendEntry(fs, dir, inode, name, junk);
    if r == FSE_OK {
      CountLink(fs, inode);
    }
  }

  // ---------- create_file and fs_link ----------

  /** Every inode that the bitmap has a bit for is in use. */
  predicate NoInode(fs: Fs)
    requires Shape(fs)
  {
    forall i :: 0 <= i < BITMAP_ENTRIES ==> fs.ibits[i]
  }

  /** create_inode, seen from the tree: a file without links. */
  method NewFile(fs: FileSystem) returns (file: int)
    requires fs.Valid() && Consistent(fs.View())
    modifies fs.inodes, fs.disk, fs.inodeBmap
    ensures fs.Valid() && Consistent(fs.View()) && fs.View().dbits == old(fs.View().dbits)
    ensures if NoInode(old(fs.View())) then file == FSE_NOMOREINODES && Tree(fs) == old(Tree(fs))
            else
              && 0 <= file < BITMAP_ENTRIES && old(Tree(fs))[file].Unused? && (forall i :: 0 <= i < file ==> old(fs.View().ibits)[i])
              && Tree(fs) == old(Tree(fs))[file := Regular(0)] && fs.inodes[..] == old(fs.inodes[..])[file := NewInode()]
  {
    hide Bits, Loose, Conserved, Tidy, Orderly;
    ghost var was, d := fs.View(), fs.disk[..];
    TidyOf(was);
    file := fs.CreateInode();
    CreatedConsistent(was, d, fs.View(), fs.disk[..], file);
    TidyOf(fs.View());
  }

  lemma TidyOf(fs: Fs)
    requires Consistent(fs)
    ensures Shape(fs) && FilesMapped(fs) && fs.savedIbits == fs.ibits && fs.savedDbits == fs.dbits
  {
  }

  /** free_inode, seen from the tree. */
  method DropInode(fs: FileSystem, id: nat)
    requires fs.Valid() && Consistent(fs.View()) && id < MAX_INODES && !Tree(fs)[id].Unused?
    modifies fs.disk, fs.inodeBmap, fs.dblkBmap
    ensures fs.Valid() && Consistent(fs.View()) && Tree(fs) == old(Tree(fs))[id := Unused]
  {
    hide Bits, Loose, Conserved, Tidy, Orderly, Freed;
    ghost var was, d := fs.View(), fs.disk[..];
    TidyOf(was);
    ConsistentFile(was, id);
    fs.FreeInode(id);
    FreedConsistent(was, d, fs.View(), fs.disk[..], id);
    TidyOf(fs.View());
  }

  /** Saving changes nothing that is in the tree. */
  method SaveNode(fs: FileSystem, id: nat)
    requires fs.Valid() && FilesMapped(fs.View()) && id < BITMAP_ENTRIES
    modifies fs.disk
    ensures fs.Valid() && fs.View() == old(fs.View()) && Tree(fs) == old(Tree(fs))
  {
    hide Bits, FilesMapped;
    ghost var view, d := fs.View(), fs.disk[..];
    fs.SaveInode(id);
    assert fs.View() == view;
    SameNodes(view, d, view, fs.disk[..]);
  }

  method SaveBits(fs: FileSystem)
    requires fs.Valid() && Consistent(fs.View())
    modifies fs.disk
    ensures fs.Valid() && fs.View() == old(fs.View()) && Tree(fs) == old(Tree(fs))
  {
    hide Bits, FilesMapped, Conserved, Loose;
    ghost var view, d := fs.View(), fs.disk[..];
    TidyOf(view);
    fs.SaveBitmaps();
    assert fs.View() == view;
    SameNodes(view, d, view, fs.disk[..]);
  }

  lemma AddedIsLinked(nodes: seq<Node>, mid: seq<Node>, dir: nat, id: nat, name: Name)
    requires IsDir(nodes, dir) && id < |nodes| && !nodes[id].Dir?
    requires mid == nodes[id := if nodes[id].Unused? then Regular(0) else nodes[id]]
    ensures EntryAdded(mid, dir, id, name) == Linked(nodes, dir, id, Short(name))
  {
  }

  /** A new file with one link. */
  method CreateFile(fs: FileSystem, dir: nat, name: Name, junk: seq<Byte>) returns (file: int)
    requires fs.Valid() && Consistent(fs.View()) && IsDir(Tree(fs), dir) && NoZero(name) && |junk| == MAX_FILENAME_LEN
    modifies fs.inodes, fs.disk, fs.inodeBmap, fs.dblkBmap
    ensures fs.Valid() && Consistent(fs.View())
    ensures file < 0 ==> Tree(fs) == old(Tree(fs))
    ensures file >= 0 ==> file < MAX_INODES && old(Tree(fs))[file].Unused?
    ensures file >= 0 ==> Tree(fs) == Linked(old(Tree(fs)), dir, file, Short(name))
    ensures old(fs.inodes[dir].size) >= 0
    ensures var room := Room(old(fs.View()), dir);
            if NoInode(old(fs.View())) then file == FSE_NOMOREINODES
            else if room != FSE_OK then file == room < 0
            else 0 <= file < BITMAP_ENTRIES && forall i :: 0 <= i < file ==> old(fs.View().ibits)[i]
  {
    hide Bits, Loose, Conserved, FilesMapped, Orderly, Holes, Free, EntryAdded, Linked, Live, NewInode;
    ghost var was, nodes := fs.View(), Tree(fs);
    TidyOf(was);
    ConsistentFile(was, dir);
    file := NewFile(fs);
    if file < 0 {
      return file;
    }
    ghost var mid := Tree(fs);
    var en := CreateDirectoryEntry(fs, dir, file, name, junk);
    if en != FSE_OK {
      DropInode(fs, file);
      assert mid[file := Unused] == nodes;
      return en;
    }
    SaveNode(fs, file);
    SaveBits(fs);
    AddedIsLinked(nodes, mid, dir, file, name);
  }

  /** fs_link: only regular files can get another link. */
  method Link(fs: FileSystem, dir: nat, id: nat, name: Name, junk: seq<Byte>) returns (r: int)
    requires fs.Valid() && Consistent(fs.View()) && IsDir(Tree(fs), dir) && NoZero(name) && |junk| == MAX_FILENAME_LEN
    requires id < MAX_INODES && !Tree(fs)[id].Unused?
    modifies fs.inodes, fs.disk, fs.inodeBmap, fs.dblkBmap
    ensures fs.Valid() && Consistent(fs.View()) && old(fs.inodes[dir].size) >= 0
    ensures r == if old(Tree(fs))[id].Dir? then FSE_NOTEXIST else Room(old(fs.View()), dir)
    ensures r != FSE_OK ==> Tree(fs) == old(Tree(fs))
    ensures r == FSE_OK ==> Tree(fs) == Linked(old(Tree(fs)), dir, id, Short(name))
  {
    hide Bits, Loose, Conserved, FilesMapped, Orderly, Holes, Free, EntryAdded, Linked, Live, NewInode;
    ghost var was, nodes := fs.View(), Tree(fs);
    TidyOf(was);
    ConsistentFile(was, dir);
    if fs.inodes[id].kind == Directory {
      return FSE_NOTEXIST;
    }
    r := CreateDirectoryEntry(fs, dir, id, name, junk);
    AddedIsLinked(nodes, nodes, dir, id, name);
  }

  // ---------- create_directory and fs_mkdir ----------

  /** The tree with the new directory dir, which has "." and ".."; without a parent it is its own. */
  function NewDirectory(nodes: seq<Node>, dir: nat, parent: int): (r: seq<Node>)
    requires dir < |nodes| && -1 <= parent < |nodes|
    ensures |r| == |nodes|
  {
    var p := if parent == -1 then dir else parent;
    var made := nodes[dir := Dir(1, [Entry(DOT, dir), Entry(DOTS, p)])];
    made[p := OneMore(made[p])]
  }

  /** The first entry of a directory takes a block, and the second does not. */
  lemma FirstRoom(fs: Fs, dir: nat)
    requires Consistent(fs) && Live(fs, dir) && (fs.inodes[dir].size == 0 || fs.inodes[dir].size == DIRENT)
    requires fs.inodes[dir].size == 0 ==> fs.inodes[dir].direct == NewInode().direct
    ensures Cost(fs, dir) == if fs.inodes[dir].size == 0 then 1 else 0
    ensures Room(fs, dir) == if fs.inodes[dir].size == 0 && Free(fs.dbits) == 0 then FSE_FULL else FSE_OK
    ensures Free(fs.dbits) >= 0
  {
    ConsistentFile(fs, dir);
    CountAtMost(fs.dbits, BITMAP_ENTRIES);
    var direct := fs.inodes[dir].direct;
    assert Holes(direct, 1) == Holes(direct, 0) + if direct[0] == -1 then 1 else 0;
  }

  /** An empty file becomes an empty directory. */
  method SetDirectory(fs: FileSystem, dir: nat)
    requires fs.Valid() && Consistent(fs.View()) && dir < MAX_INODES && Tree(fs)[dir] == Regular(0) && fs.inodes[dir].size == 0
    modifies fs.inodes
    ensures fs.Valid() && Consistent(fs.View()) && fs.View() == old(fs.View()).(inodes := fs.inodes[..])
    ensures fs.inodes[..] == old(fs.inodes[..])[dir := old(fs.inodes[dir]).(kind := Directory)]
    ensures Tree(fs) == old(Tree(fs))[dir := Dir(0, [])]
  {
    hide Bits, Loose, Conserved, Orderly, KeepsBlocks;
    ghost var was, d := fs.View(), fs.disk[..];
    fs.inodes[dir] := fs.inodes[dir].(kind := Directory);
    assert fs.View() == was.(inodes := was.inodes[dir := fs.inodes[dir]]);
    ConsistentFields(was, fs.View(), dir);
    FieldNodes(was, d, fs.View(), d, dir);
  }

  lemma DotsAdded(nodes: seq<Node>, dir: nat, parent: int)
    requires dir < |nodes| && -1 <= parent < |nodes| && parent != dir
    requires parent >= 0 ==> nodes[parent].Dir?
    ensures EntryAdded(EntryAdded(nodes[dir := Dir(0, [])], dir, dir, DOT), dir, if parent == -1 then dir else parent, DOTS) ==
            NewDirectory(nodes, dir, parent)
  {
    var p := if parent == -1 then dir else parent;
    var made := EntryAdded(nodes[dir := Dir(0, [])], dir, dir, DOT);
    assert made[dir] == Dir(1, [Entry(DOT, dir)]);
    assert [Entry(DOT, dir)] + [Entry(DOTS, p)] == [Entry(DOT, dir), Entry(DOTS, p)];
  }

  /** The two entries of a new directory take one block, or there is none and nothing changes. */
  method AddDots(fs: FileSystem, dir: nat, parent: nat, junk: seq<Byte>) returns (i: int)
    requires fs.Valid() && Consistent(fs.View()) && |junk| == MAX_FILENAME_LEN
    requires dir < MAX_INODES && Tree(fs)[dir] == Dir(0, []) && parent < MAX_INODES && !Tree(fs)[parent].Unused?
    requires fs.inodes[dir].size == 0 && fs.inodes[dir].direct == NewInode().direct
    modifies fs.inodes, fs.disk, fs.inodeBmap, fs.dblkBmap
    ensures fs.Valid() && Consistent(fs.View())
    ensures i != FSE_OK <==> Free(old(fs.View().dbits)) == 0
    ensures i != FSE_OK ==> Tree(fs) == old(Tree(fs))
    ensures i == FSE_OK ==>
              && Tree(fs) == EntryAdded(EntryAdded(old(Tree(fs)), dir, dir, DOT), dir, parent, DOTS)
              && Free(fs.View().dbits) == Free(old(fs.View().dbits)) - 1
              && forall j :: 0 <= j < MAX_INODES && j != dir ==> fs.inodes[j].(nlinks := 0) == old(fs.inodes[j]).(nlinks := 0)
  {
    hide Bits, Loose, Conserved, FilesMapped, Orderly, Holes, Free, Room, Cost, NewInode;
    FirstRoom(fs.View(), dir);
    var first := CreateDirectoryEntry(fs, dir, dir, DOT, junk);
    FirstRoom(fs.View(), dir);
    var second := CreateDirectoryEntry(fs, dir, parent, DOTS, junk);
    i := first + second;
  }

  /** A new directory with "." and "..". It needs an inode and a block; without them nothing changes. */
  method CreateDirectory(fs: FileSystem, parent: int, junk: seq<Byte>) returns (dir: int)
    requires fs.Valid() && Consistent(fs.View()) && |junk| == MAX_FILENAME_LEN
    requires -1 <= parent < MAX_INODES && (parent >= 0 ==> Tree(fs)[parent].Dir?)
    modifies fs.inodes, fs.disk, fs.inodeBmap, fs.dblkBmap
    ensures fs.Valid() && Consistent(fs.View())
    ensures if NoInode(old(fs.View())) then dir == FSE_NOMOREINODES && Tree(fs) == old(Tree(fs))
            else if Free(old(fs.View().dbits)) == 0 then dir == FSE_FULL && Tree(fs) == old(Tree(fs))
            else
              && 0 <= dir < BITMAP_ENTRIES && old(Tree(fs))[dir].Unused? && (forall i :: 0 <= i < dir ==> old(fs.View().ibits)[i])
              && Tree(fs) == NewDirectory(old(Tree(fs)), dir, parent)
              && Free(fs.View().dbits) == Free(old(fs.View().dbits)) - 1
              && forall j :: 0 <= j < MAX_INODES && j != dir ==> fs.inodes[j].(nlinks := 0) == old(fs.inodes[j]).(nlinks := 0)
  {
    hide Bits, Loose, Conserved, FilesMapped, Orderly, Holes, Free, KeepsBlocks, InodeShape;
    hide EntryAdded, NewDirectory, NoInode, EntriesOf;
    ghost var was, nodes := fs.View(), Tree(fs);
    dir := NewFile(fs);
    var p := if parent == -1 then dir else parent;
    if dir < 0 {
      return FSE_NOMOREINODES;
    }
    SetDirectory(fs, dir);
    assert Tree(fs) == nodes[dir := Dir(0, [])];
    DotsAdded(nodes, dir, parent);
    var i := AddDots(fs, dir, p, junk);
    if i != FSE_OK {
      DropInode(fs, dir);
      assert nodes[dir := Dir(0, [])][dir := Unused] == nodes;
      return FSE_FULL;
    }
    SaveNode(fs, dir);
  }

  /** fs_mkdir makes the tree of WithDirectory. */
  lemma AddedIsDirectory(nodes: seq<Node>, dir: nat, d: nat, name: Name)
    requires IsDir(nodes, dir) && d < |nodes| && nodes[d].Unused?
    ensures var made := NewDirectory(nodes, d, dir);
            && made[dir].Dir? && !made[d].Unused?
            && EntryAdded(made, dir, d, name) == WithDirectory(nodes, dir, d, Short(name))
            && made[d := Unused] == nodes[dir := OneMore(nodes[dir])]
  {
  }

  lemma CountedDir(nodes: seq<Node>, depth: seq<nat>, dir: nat, d: nat)
    requires Sound(nodes, depth) && IsDir(nodes, dir) && d < |nodes| && nodes[d].Dir?
    ensures DirOk(nodes[dir := OneMore(nodes[dir])], depth, d)
  {
    hide Sound, Links;
    DirIsOk(nodes, depth, d);
    var now, p := nodes[dir := OneMore(nodes[dir])], Parent(nodes, d);
    if p != d {
      var k :| 2 <= k < |nodes[p].entries| && nodes[p].entries[k].inode == d;
      assert now[p].entries[k].inode == d;
    }
    forall k | 2 <= k < |now[d].entries|
      ensures ChildOk(now, depth, d, k)
    {
      assert ChildOk(nodes, depth, d, k);
    }
  }

  /** More links of a directory are nothing that matters to the tree. */
  lemma CountedSound(nodes: seq<Node>, depth: seq<nat>, dir: nat)
    requires Sound(nodes, depth) && IsDir(nodes, dir)
    ensures Sound(nodes[dir := OneMore(nodes[dir])], depth)
  {
    hide DirOk;
    var now := nodes[dir := OneMore(nodes[dir])];
    forall d | 0 <= d < |now| && now[d].Dir?
      ensures DirOk(now, depth, d)
    {
      CountedDir(nodes, depth, dir, d);
    }
    forall f | 0 <= f < |now| && now[f].Regular?
      ensures now[f].nlinks == Links(now, f) > 0
    {
      RefsUpdate(nodes, |nodes|, f, dir, now[dir]);
    }
  }

  /** A directory with the entry for it in dir; d is its inode. When the entry finds no room the
    * new directory is freed, and one link of dir too many is left. */
  method MakeDirectory(fs: FileSystem, dir: nat, name: Name, junk: seq<Byte>) returns (r: int, ghost d: int)
    requires fs.Valid() && Consistent(fs.View()) && IsDir(Tree(fs), dir) && NoZero(name) && |junk| == MAX_FILENAME_LEN
    modifies fs.inodes, fs.disk, fs.inodeBmap, fs.dblkBmap
    ensures fs.Valid() && Consistent(fs.View())
    ensures old(fs.inodes[dir].size) >= 0
    ensures var was := old(fs.View());
            if NoInode(was) || Free(was.dbits) == 0 then r == FSE_NOMOREINODES && Tree(fs) == old(Tree(fs))
            else if was.inodes[dir].size + DIRENT > MAX_FILESIZE || Cost(was, dir) >= Free(was.dbits) then
              r == FSE_FULL && Tree(fs) == old(Tree(fs))[dir := OneMore(old(Tree(fs))[dir])]
            else
              && r == FSE_OK && 0 <= d < MAX_INODES && old(Tree(fs))[d].Unused?
              && Tree(fs) == WithDirectory(old(Tree(fs)), dir, d, Short(name))
  {
    hide Bits, Loose, Conserved, FilesMapped, Orderly, Holes, Free, InodeShape;
    hide EntryAdded, NewDirectory, WithDirectory, NoInode, EntriesOf;
    ghost var was, nodes := fs.View(), Tree(fs);
    DirFacts(was, fs.disk[..], dir, {});
    var made := CreateDirectory(fs, dir, junk);
    d := made;
    if made >= 0 {
      AddedIsDirectory(nodes, dir, made, name);
      var entry := CreateDirectoryEntry(fs, dir, made, name, junk);
      if entry != FSE_OK {
        DropInode(fs, made);
        return FSE_FULL, d;
      }
      return FSE_OK, d;
    }
    return FSE_NOMOREINODES, d;
  }

  /** fs_mkfs: an empty file system with a root directory, which is its own parent. */
  method MakeFileSystem(encode: Inode -> seq<Byte>, junk: seq<Byte>) returns (fs: FileSystem, root: int)
    requires (forall i :: |encode(i)| <= INODE_SIZE) && |junk| == MAX_FILENAME_LEN
    ensures fresh(fs) && fs.Valid() && Consistent(fs.View()) && root == 0
    ensures Tree(fs) == seq(MAX_INODES, i => if i == 0 then Dir(2, [Entry(DOT, 0), Entry(DOTS, 0)]) else Unused)
    ensures Sound(Tree(fs), seq(MAX_INODES, _ => 0))
  {
    hide Bits;
    fs := new FileSystem(encode);
    EmptyTree(fs.View(), fs.disk[..]);
    ghost var nodes := Tree(fs);
    root := CreateDirectory(fs, -1, junk);
    RootSound(nodes);
  }

  lemma EmptyTree(fs: Fs, disk: seq<Block>)
    requires Conserved(fs) && FilesMapped(fs) && |disk| == FS_BLOCKS && forall i: nat :: !Live(fs, i)
    ensures Consistent(fs) && Nodes(fs, disk) == seq(MAX_INODES, _ => Unused) && !NoInode(fs) && Free(fs.dbits) > 0
    ensures !fs.ibits[0]
  {
    ConservedLoose(fs);
    assert !Live(fs, 0);
    CountAtMost(fs.dbits, BITMAP_ENTRIES);
    assert !fs.dbits[0] by {
      assert !Held(fs, 0);
    }
  }

  lemma RootSound(nodes: seq<Node>)
    requires nodes == seq(MAX_INODES, _ => Unused)
    ensures var made := NewDirectory(nodes, 0, -1);
            && made == seq(MAX_INODES, i => if i == 0 then Dir(2, [Entry(DOT, 0), Entry(DOTS, 0)]) else Unused)
            && Sound(made, seq(MAX_INODES, _ => 0))
  {
  }
}
