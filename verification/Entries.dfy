/** How directories lie in the files that hold them: struct dirent of filesystem/fs.h, a two-byte
  * inode number and a name field of 14 bytes. The tree of module Directory is read off the
  * inodes and the bytes on disk.
  */
module Entries {
  import opened Bitmap
  import opened Blocks
  import opened Stale
  import opened Files
  import opened Directory

  const DIRENT: nat := 16
  const MAX_FILENAME_LEN: nat := 14

  // ---------- Bytes and numbers ----------

  /** The byte of value n < 16. */
  function Digit(n: nat): Byte
    requires n < 16
  {
    if n < 8 then
      if n < 4 then if n < 2 then if n == 0 then 0 else 1 else if n == 2 then 2 else 3
      else if n < 6 then if n == 4 then 4 else 5 else if n == 6 then 6 else 7
    else
      if n < 12 then if n < 10 then if n == 8 then 8 else 9 else if n == 10 then 10 else 11
      else if n < 14 then if n == 12 then 12 else 13 else if n == 14 then 14 else 15
  }

  function Weight(b: Byte, m: Byte, n: nat): nat {
    if b & m != 0 then n else 0
  }

  function DigitValue(b: Byte): nat {
    Weight(b, 8, 8) + Weight(b, 4, 4) + Weight(b, 2, 2) + Weight(b, 1, 1)
  }

  function ByteOf(n: nat): Byte
    requires n < 256
  {
    (Digit(n / 16) << 4) | Digit(n % 16)
  }

  function ByteValue(b: Byte): nat {
    16 * DigitValue(b >> 4) + DigitValue(b & 15)
  }

  lemma DigitRoundTrip(n: nat)
    requires n < 16
    ensures DigitValue(Digit(n)) == n && Digit(n) < 16
  {
  }

  lemma Halves(high: Byte, low: Byte)
    requires high < 16 && low < 16
    ensures ((high << 4) | low) >> 4 == high && ((high << 4) | low) & 15 == low
  {
  }

  lemma ByteRoundTrip(n: nat)
    requires n < 256
    ensures ByteValue(ByteOf(n)) == n
  {
    hide Digit, DigitValue;
    DigitRoundTrip(n / 16);
    DigitRoundTrip(n % 16);
    Halves(Digit(n / 16), Digit(n % 16));
  }

  // ---------- Names and entries ----------

  /** The bytes before the first zero. */
  function CString(field: seq<Byte>): Name {
    if field == [] || field[0] == 0 then [] else [field[0]] + CString(field[1..])
  }

  predicate NoZero(name: Name) {
    forall k :: 0 <= k < |name| ==> name[k] != 0
  }

  /** The part of a name that an entry has room for. */
  function Short(name: Name): Name {
    if |name| < MAX_FILENAME_LEN then name else name[..MAX_FILENAME_LEN - 1]
  }

  /** The name field that create_directory_entry fills in; junk is what was there before. */
  function NameField(name: Name, junk: seq<Byte>): (field: seq<Byte>)
    requires |junk| == MAX_FILENAME_LEN
    ensures |field| == MAX_FILENAME_LEN
  {
    var len := if |name| + 1 > MAX_FILENAME_LEN then MAX_FILENAME_LEN else |name| + 1;
    name[..len - 1] + [0] + junk[len..]
  }

  function InodeBytes(id: nat): seq<Byte>
    requires id < 65536
  {
    [ByteOf(id % 256), ByteOf(id / 256)]
  }

  function EntryBytes(id: nat, name: Name, junk: seq<Byte>): (bytes: seq<Byte>)
    requires id < 65536 && |junk| == MAX_FILENAME_LEN
    ensures |bytes| == DIRENT
  {
    InodeBytes(id) + NameField(name, junk)
  }

  /** What 16 bytes say. */
  function EntryIn(bytes: seq<Byte>): Entry
    requires |bytes| == DIRENT
  {
    Entry(CString(bytes[2..]), ByteValue(bytes[0]) + 256 * ByteValue(bytes[1]))
  }

  function EntryAt(bytes: seq<Byte>, k: nat): Entry
    requires DIRENT * k + DIRENT <= |bytes|
  {
    EntryIn(bytes[DIRENT * k..DIRENT * k + DIRENT])
  }

  /** The entries that a file of whole entries consists of. */
  function EntriesOf(bytes: seq<Byte>): (entries: seq<Entry>)
    ensures |entries| == |bytes| / DIRENT
    ensures forall k :: 0 <= k < |entries| ==> entries[k] == EntryAt(bytes, k)
  {
    seq(|bytes| / DIRENT, k requires 0 <= k < |bytes| / DIRENT => EntryAt(bytes, k))
  }

  lemma {:induction false} CStringEnds(name: Name, rest: seq<Byte>)
    requires NoZero(name) && |rest| > 0 && rest[0] == 0
    ensures CString(name + rest) == name
  {
    if name == [] {
      assert name + rest == rest;
    } else {
      assert (name + rest)[1..] == name[1..] + rest;
      CStringEnds(name[1..], rest);
    }
  }

  /** An entry reads back as it was made, with a name that is too long cut off. */
  lemma EntryRoundTrip(id: nat, name: Name, junk: seq<Byte>)
    requires id < 65536 && |junk| == MAX_FILENAME_LEN && NoZero(name)
    ensures EntryIn(EntryBytes(id, name, junk)) == Entry(Short(name), id)
  {
    ByteRoundTrip(id % 256);
    ByteRoundTrip(id / 256);
    var len := if |name| + 1 > MAX_FILENAME_LEN then MAX_FILENAME_LEN else |name| + 1;
    assert EntryBytes(id, name, junk)[2..] == NameField(name, junk) == Short(name) + ([0] + junk[len..]);
    CStringEnds(Short(name), [0] + junk[len..]);
  }

  // ---------- Looking up a name ----------

  /** The string in a field is no longer than what it has in common with the name. */
  lemma {:induction false} PrefixEnds(field: seq<Byte>, name: Name, i: nat)
    requires i < |name| && i <= |field| && NoZero(name) && name[..i] == field[..i]
    requires i == |field| || field[i] != name[i]
    ensures !(name <= CString(field))
  {
    if i > 0 {
      assert field[0] == name[0] && name[1..][..i - 1] == field[1..][..i - 1];
      assert CString(field) == [field[0]] + CString(field[1..]);
      assert name == [name[0]] + name[1..];
      PrefixEnds(field[1..], name[1..], i - 1);
    }
  }

  lemma {:induction false} PrefixWhole(field: seq<Byte>, name: Name)
    requires |name| <= |field| && NoZero(name) && name == field[..|name|]
    ensures name <= CString(field)
  {
    if name != [] {
      assert field[0] == name[0] && name[1..] == field[1..][..|name| - 1];
      PrefixWhole(field[1..], name[1..]);
      assert name == [name[0]] + name[1..];
    }
  }

  /** What name2inode_f finds: the first entry whose name begins with the given one. */
  function Lookup(entries: seq<Entry>, name: Name): int {
    if entries == [] then -1
    else if name <= entries[0].name then entries[0].inode
    else Lookup(entries[1..], name)
  }

  lemma {:induction false} LookupFirst(entries: seq<Entry>, name: Name, k: nat)
    requires k <= |entries| && forall j :: 0 <= j < k ==> !(name <= entries[j].name)
    ensures k == |entries| ==> Lookup(entries, name) == -1
    ensures k < |entries| && name <= entries[k].name ==> Lookup(entries, name) == entries[k].inode
  {
    if k > 0 {
      assert !(name <= entries[0].name);
      assert forall j :: 0 <= j < k - 1 ==> entries[1..][j] == entries[j + 1];
      LookupFirst(entries[1..], name, k - 1);
    }
  }

  /** An entry that was just made is found under its name if and only if the name has 13 characters
    * at most and no entry before it begins with it. */
  lemma {:induction false} MadeIsFound(entries: seq<Entry>, name: Name, id: nat)
    requires forall k :: 0 <= k < |entries| ==> entries[k].inode != id
    ensures Lookup(entries + [Entry(Short(name), id)], name) == id <==>
              |name| < MAX_FILENAME_LEN && Lookup(entries, name) == -1
  {
    var now := entries + [Entry(Short(name), id)];
    if entries == [] {
      assert now[1..] == [];
    } else {
      assert now[0] == entries[0] && now[1..] == entries[1..] + [Entry(Short(name), id)];
      if !(name <= entries[0].name) {
        MadeIsFound(entries[1..], name, id);
      }
    }
  }

  /** An entry written behind whole entries is the last one. */
  lemma EntriesAppend(bytes: seq<Byte>, entry: seq<Byte>)
    requires |bytes| % DIRENT == 0 && |entry| == DIRENT
    ensures EntriesOf(bytes + entry) == EntriesOf(bytes) + [EntryIn(entry)]
  {
    var n := |bytes| / DIRENT;
    assert (bytes + entry)[DIRENT * n..DIRENT * n + DIRENT] == entry;
    forall k | 0 <= k < n
      ensures EntryAt(bytes + entry, k) == EntryAt(bytes, k)
    {
      assert (bytes + entry)[DIRENT * k..DIRENT * k + DIRENT] == bytes[DIRENT * k..DIRENT * k + DIRENT];
    }
  }

  // ---------- The tree on disk ----------

  /** All slots that a file of this size uses are allocated, unless it is empty; a directory
    * consists of whole entries. */
  predicate Orderly(i: Inode) {
    && |i.direct| == INODE_NDIRECT && 0 <= i.size <= MAX_FILESIZE
    && (i.size > 0 ==> forall k :: 0 <= k < Wanted(i.size) ==> i.direct[k] != -1)
    && (i.kind == Directory ==> i.size % DIRENT == 0)
  }

  /** The blocks are conserved but for the stale slots, and all files are orderly. */
  ghost predicate Tidy(fs: Fs, stale: set<Slot>) {
    && Loose(fs, stale) && FilesMapped(fs)
    && forall j :: 0 <= j < MAX_INODES && Live(fs, j) ==> Orderly(fs.inodes[j])
  }

  /** The blocks are conserved, and no file has blocks beyond its size. */
  ghost predicate Consistent(fs: Fs) {
    && Conserved(fs) && Tidy(fs, {})
    && forall j :: 0 <= j < MAX_INODES && Live(fs, j) ==> KeepsBlocks(fs.inodes[j], fs.inodes[j].size)
  }

  predicate Readable(fs: Fs, disk: seq<Block>) {
    Shape(fs) && FilesMapped(fs) && |disk| == FS_BLOCKS
  }

  function NodeAt(fs: Fs, disk: seq<Block>, i: nat): Node
    requires Readable(fs, disk) && i < MAX_INODES
  {
    var inode := fs.inodes[i];
    if !Live(fs, i) then Unused
    else if inode.kind == File then Regular(inode.nlinks)
    else Dir(inode.nlinks, EntriesOf(FileBytes(disk, inode)))
  }

  /** The tree that inodes and disk stand for. */
  function Nodes(fs: Fs, disk: seq<Block>): (nodes: seq<Node>)
    requires Readable(fs, disk)
    ensures |nodes| == MAX_INODES && forall i :: 0 <= i < MAX_INODES ==> nodes[i] == NodeAt(fs, disk, i)
  {
    seq(MAX_INODES, i requires 0 <= i < MAX_INODES => NodeAt(fs, disk, i))
  }

  /** The inode i stands for the same node as before. */
  predicate SameNode(was: Fs, d: seq<Block>, now: Fs, e: seq<Block>, i: nat)
    requires Readable(was, d) && Readable(now, e) && i < MAX_INODES
  {
    && (Live(now, i) <==> Live(was, i))
    && (Live(was, i) ==>
          && now.inodes[i].kind == was.inodes[i].kind && now.inodes[i].nlinks == was.inodes[i].nlinks
          && FileBytes(e, now.inodes[i]) == FileBytes(d, was.inodes[i]))
  }

  lemma NodesUpdate(was: Fs, d: seq<Block>, now: Fs, e: seq<Block>, id: nat)
    requires Readable(was, d) && Readable(now, e) && id < MAX_INODES
    requires forall j :: 0 <= j < MAX_INODES && j != id ==> SameNode(was, d, now, e, j)
    ensures Nodes(now, e) == Nodes(was, d)[id := NodeAt(now, e, id)]
  {
    forall j | 0 <= j < MAX_INODES && j != id
      ensures NodeAt(now, e, j) == NodeAt(was, d, j)
    {
      assert SameNode(was, d, now, e, j);
    }
  }

  lemma NodesSame(was: Fs, d: seq<Block>, now: Fs, e: seq<Block>)
    requires Readable(was, d) && Readable(now, e)
    requires forall j :: 0 <= j < MAX_INODES ==> SameNode(was, d, now, e, j)
    ensures Nodes(now, e) == Nodes(was, d)
  {
    assert SameNode(was, d, now, e, 0);
    NodesUpdate(was, d, now, e, 0);
  }

  lemma SameInodeSameNode(was: Fs, d: seq<Block>, now: Fs, e: seq<Block>, i: nat)
    requires Readable(was, d) && Readable(now, e) && i < MAX_INODES && SameData(d, e)
    requires now.inodes[i] == was.inodes[i] && (Live(now, i) <==> Live(was, i))
    ensures SameNode(was, d, now, e, i)
  {
    if Live(was, i) {
      KeptBytes(d, e, was.inodes[i], now.inodes[i]);
    }
  }

  lemma TidyReadable(fs: Fs, stale: set<Slot>)
    requires Tidy(fs, stale)
    ensures Shape(fs) && FilesMapped(fs)
  {
  }

  lemma DirFacts(fs: Fs, disk: seq<Block>, dir: nat, stale: set<Slot>)
    requires Tidy(fs, stale) && |disk| == FS_BLOCKS && dir < MAX_INODES && NodeAt(fs, disk, dir).Dir?
    ensures Live(fs, dir) && dir < BITMAP_ENTRIES && fs.inodes[dir].kind == Directory
    ensures Mapped(fs.inodes[dir]) && 0 <= fs.inodes[dir].size <= MAX_FILESIZE
    ensures NodeAt(fs, disk, dir) == Dir(fs.inodes[dir].nlinks, EntriesOf(FileBytes(disk, fs.inodes[dir])))
    ensures fs.inodes[dir].size == DIRENT * |NodeAt(fs, disk, dir).entries|
  {
    hide Loose;
    assert Orderly(fs.inodes[dir]);
    LiveBelow(fs, dir, stale);
  }

  lemma LiveBelow(fs: Fs, id: nat, stale: set<Slot>)
    requires Loose(fs, stale) && Live(fs, id)
    ensures id < BITMAP_ENTRIES
  {
  }

  // ---------- reduce_links ----------

  /** The effect of reduce_links. */
  ghost predicate LinkReduced(was: Fs, now: Fs, id: nat)
    requires Shape(was) && id < BITMAP_ENTRIES
  {
    var i := was.inodes[id];
    var less := was.(inodes := was.inodes[id := i.(nlinks := i.nlinks - 1)]);
    if i.nlinks - 1 <= 0 || i.kind == Directory then Freed(less, now, id) else now == less
  }

  /** Links and kinds have nothing to do with blocks. */
  lemma LooseFields(was: Fs, now: Fs, id: nat, stale: set<Slot>)
    requires Loose(was, stale) && id < MAX_INODES
    requires |now.inodes| == MAX_INODES && now == was.(inodes := was.inodes[id := now.inodes[id]])
    requires now.inodes[id].direct == was.inodes[id].direct && now.inodes[id].size == was.inodes[id].size
    ensures Loose(now, stale)
  {
    assert InodeShape(was.inodes[id]);
    forall i: nat, k: nat, d: nat
      ensures InUse(now, stale, i, k, d) <==> InUse(was, stale, i, k, d)
    {
    }
    forall d: nat
      ensures Used(now, stale, d) <==> Used(was, stale, d)
    {
      if Used(was, stale, d) {
        var i, k :| InUse(was, stale, i, k, d);
        assert InUse(now, stale, i, k, d);
      }
    }
    forall p | p in stale
      ensures StaleSlot(now, p.0, p.1)
    {
      assert StaleSlot(was, p.0, p.1);
    }
  }

  /** The stale slots that are left when the links of id were reduced. */
  ghost function StaleReduced(was: Fs, now: Fs, id: nat, stale: set<Slot>): set<Slot> {
    if Live(now, id) then stale else OfOthers(stale, id)
  }

  lemma ReducedTidy(was: Fs, now: Fs, id: nat, stale: set<Slot>)
    requires Tidy(was, stale) && id < BITMAP_ENTRIES && Live(was, id) && LinkReduced(was, now, id)
    ensures Tidy(now, StaleReduced(was, now, id, stale))
    ensures forall j :: 0 <= j < MAX_INODES && j != id ==> now.inodes[j] == was.inodes[j] && (Live(now, j) <==> Live(was, j))
    ensures Live(now, id) ==> now.inodes[id] == was.inodes[id].(nlinks := was.inodes[id].nlinks - 1)
    ensures Live(now, id) <==> was.inodes[id].nlinks - 1 > 0 && was.inodes[id].kind == File
  {
    var i := was.inodes[id];
    var less := was.(inodes := was.inodes[id := i.(nlinks := i.nlinks - 1)]);
    LooseFields(was, less, id, stale);
    if i.nlinks - 1 <= 0 || i.kind == Directory {
      FreeLoose(less, now, id, stale);
    }
  }

  lemma ReducedNodes(was: Fs, d: seq<Block>, now: Fs, e: seq<Block>, id: nat, stale: set<Slot>)
    requires Tidy(was, stale) && id < BITMAP_ENTRIES && Live(was, id) && LinkReduced(was, now, id) && SameData(d, e)
    ensures Readable(was, d) && Readable(now, e)
    ensures Nodes(now, e) == Nodes(was, d)[id := Reduced(Nodes(was, d)[id])]
  {
    ReducedTidy(was, now, id, stale);
    hide Loose, LinkReduced;
    forall j | 0 <= j < MAX_INODES && j != id
      ensures SameNode(was, d, now, e, j)
    {
      SameInodeSameNode(was, d, now, e, j);
    }
    NodesUpdate(was, d, now, e, id);
  }

  // ---------- Shrinking a directory by one entry ----------

  /** A file that loses bytes only keeps its slots, and there is no way to fail. */
  lemma ShrinkTidy(was: Fs, now: Fs, id: nat, size: nat, r: int, stale: set<Slot>)
    requires Tidy(was, stale) && id < BITMAP_ENTRIES && Live(was, id) && 0 < size <= was.inodes[id].size
    requires was.inodes[id].kind == Directory ==> size % DIRENT == 0
    requires Resized(was, now, id, size, r)
    ensures r == FSE_OK && now.inodes == was.inodes[id := was.inodes[id].(size := size)] && now.ibits == was.ibits
    ensures Tidy(now, stale + Beyond(was.inodes[id].direct, id, Wanted(size)))
  {
    ShrinkFits(was, id, size, stale);
    var i, j := was.inodes[id], now.inodes[id];
    assert j.direct == i.direct;
    assert j == i.(size := size);
    ResizeLoose(was, now, id, size, stale);
  }

  lemma ShrinkFits(was: Fs, id: nat, size: nat, stale: set<Slot>)
    requires Tidy(was, stale) && id < BITMAP_ENTRIES && Live(was, id) && 0 < size <= was.inodes[id].size
    ensures CanResize(was, stale, id, size) && Holes(was.inodes[id].direct, Wanted(size)) == 0 <= Free(was.savedDbits)
  {
    assert Orderly(was.inodes[id]);
    assert Wanted(size) <= Wanted(was.inodes[id].size);
    if Holes(was.inodes[id].direct, Wanted(size)) > 0 {
      var k := HoleBelow(was.inodes[id].direct, Wanted(size));
    }
    CountAtMost(was.savedDbits, BITMAP_ENTRIES);
  }

  // ---------- Growing a directory by one entry ----------

  /** An orderly file needs one block at most to grow by an entry. */
  lemma OneHole(i: Inode, size: nat)
    requires Orderly(i) && i.size <= size <= i.size + DIRENT
    ensures Holes(i.direct, Wanted(size)) <= 1
    ensures i.size > 0 && size == i.size ==> Holes(i.direct, Wanted(size)) == 0
  {
    var n := Wanted(size) - 1;
    assert i.size > 0 ==> n <= Wanted(i.size);
    assert i.size == 0 ==> n == 0;
    if Holes(i.direct, n) > 0 {
      var k := HoleBelow(i.direct, n);
    }
  }

  lemma {:induction false} OnlyHole(direct: seq<int>, n: nat, k: nat)
    requires n <= |direct| && k < n && direct[k] == -1 && Holes(direct, n) == 1
    ensures forall j :: 0 <= j < n && direct[j] == -1 ==> j == k
  {
    if k < n - 1 {
      NoHoles(direct, n - 1, k);
      OnlyHole(direct, n - 1, k);
    } else if Holes(direct, n - 1) == 0 {
      forall j | 0 <= j < n - 1
        ensures direct[j] != -1
      {
        if direct[j] == -1 {
          NoHoles(direct, n - 1, j);
        }
      }
    }
  }

  lemma NoneMissing(direct: seq<int>, n: nat)
    requires n <= |direct| && Holes(direct, n) == 0
    ensures forall k :: 0 <= k < n ==> direct[k] != -1
  {
    forall k | 0 <= k < n
      ensures direct[k] != -1
    {
      if direct[k] == -1 {
        NoHoles(direct, n, k);
      }
    }
  }

  /** One block is taken for each hole. */
  lemma TakenCount(was: seq<int>, bits: seq<bool>, now: seq<int>, after: seq<bool>, n: nat)
    requires |was| == INODE_NDIRECT && |bits| >= BITMAP_ENTRIES && n <= INODE_NDIRECT && Holes(was, n) <= 1
    requires Filled(was, bits, now, n) && BitsAre(bits, after, Taken(was, now, n), {})
    ensures Free(after) == Free(bits) - Holes(was, n)
    ensures Holes(was, n) == 0 ==> after == bits && now == was
  {
    if Holes(was, n) == 0 {
      NoneMissing(was, n);
      assert Taken(was, now, n) == {};
      assert after == bits;
    } else {
      var k := HoleBelow(was, n);
      OnlyHole(was, n, k);
      assert Taken(was, now, n) == {now[k]};
      CountWrite(bits, BITMAP_ENTRIES, now[k], true);
      assert after == bits[now[k] := true];
    }
  }

  lemma ConsistentFile(fs: Fs, id: nat)
    requires Consistent(fs) && Live(fs, id)
    ensures id < BITMAP_ENTRIES && Orderly(fs.inodes[id]) && KeepsBlocks(fs.inodes[id], fs.inodes[id].size)
    ensures Shape(fs) && fs.savedDbits == fs.dbits && fs.savedIbits == fs.ibits
  {
  }

  /** What resize_inode makes of a file that grows by an entry at most. If that fails, nothing changed. */
  lemma GrowConsistent(was: Fs, now: Fs, id: nat, size: nat, r: int)
    requires Consistent(was) && id < BITMAP_ENTRIES && Live(was, id)
    requires 0 < size && was.inodes[id].size <= size <= was.inodes[id].size + DIRENT
    requires was.inodes[id].kind == Directory ==> size % DIRENT == 0
    requires Resized(was, now, id, size, r)
    ensures r == if size > MAX_FILESIZE then FSE_INODETABLEFULL
                 else if Holes(was.inodes[id].direct, Wanted(size)) > Free(was.dbits) then FSE_FULL else FSE_OK
    ensures r != FSE_OK ==> now == was
    ensures r == FSE_OK ==>
              && Consistent(now) && now.ibits == was.ibits
              && now.inodes == was.inodes[id := was.inodes[id].(size := size, direct := now.inodes[id].direct)]
              && Free(now.dbits) == Free(was.dbits) - Holes(was.inodes[id].direct, Wanted(size))
              && forall k :: 0 <= k < INODE_NDIRECT && was.inodes[id].direct[k] != -1 ==>
                   now.inodes[id].direct[k] == was.inodes[id].direct[k]
    ensures was.inodes[id].size == size <= MAX_FILESIZE ==> now == was && r == FSE_OK
  {
    ConsistentFile(was, id);
    var i, n := was.inodes[id], Wanted(size);
    OneHole(i, size);
    CountAtMost(was.dbits, BITMAP_ENTRIES);
    assert KeepsBlocks(i, size);
    ResizeConservesIff(was, now, id, size, r);
    if r == FSE_OK {
      assert Dropped(i.direct, n, INODE_NDIRECT) == {};
      TakenCount(i.direct, was.dbits, now.inodes[id].direct, now.dbits, n);
      ConservedLoose(now);
      GrownFiles(was, now, id, size);
    } else if size <= MAX_FILESIZE {
      var m :| Stuck(was, now, id, n, m);
      FullLoses(was, now, id, n, m);
    }
  }

  lemma GrownFiles(was: Fs, now: Fs, id: nat, size: nat)
    requires Consistent(was) && id < BITMAP_ENTRIES && Live(was, id) && Shape(now)
    requires 0 < size <= MAX_FILESIZE && was.inodes[id].size <= size && (was.inodes[id].kind == Directory ==> size % DIRENT == 0)
    requires now.ibits == was.ibits && now.inodes == was.inodes[id := now.inodes[id]]
    requires now.inodes[id].kind == was.inodes[id].kind && now.inodes[id].size == size
    requires Filled(was.inodes[id].direct, was.dbits, now.inodes[id].direct, Wanted(size))
    ensures FilesMapped(now)
    ensures forall j :: 0 <= j < MAX_INODES && Live(now, j) ==>
              Orderly(now.inodes[j]) && KeepsBlocks(now.inodes[j], now.inodes[j].size)
  {
    ConsistentFile(was, id);
    forall j | 0 <= j < MAX_INODES && Live(now, j)
      ensures Mapped(now.inodes[j]) && Orderly(now.inodes[j]) && KeepsBlocks(now.inodes[j], now.inodes[j].size)
    {
      if j != id {
        ConsistentFile(was, j);
      }
    }
  }

  /** Links and kinds of an inode have nothing to do with its blocks. */
  lemma ConsistentFields(was: Fs, now: Fs, id: nat)
    requires Consistent(was) && id < MAX_INODES
    requires |now.inodes| == MAX_INODES && now == was.(inodes := was.inodes[id := now.inodes[id]])
    requires now.inodes[id].direct == was.inodes[id].direct && now.inodes[id].size == was.inodes[id].size
    requires now.inodes[id].kind == Directory ==> now.inodes[id].size % DIRENT == 0
    ensures Consistent(now)
  {
    LooseFields(was, now, id, {});
    LooseConserved(now, {});
  }

  // ---------- create_directory_entry ----------

  function OneMore(node: Node): Node {
    if node.Unused? then node else node.(nlinks := node.nlinks + 1)
  }

  /** The tree with a new entry for id at the end of dir, which is counted as a link. */
  function EntryAdded(nodes: seq<Node>, dir: nat, id: nat, name: Name): (r: seq<Node>)
    requires dir < |nodes| && id < |nodes| && nodes[dir].Dir?
    ensures |r| == |nodes| && r[dir].Dir?
  {
    var appended := nodes[dir := Appended(nodes[dir], Entry(Short(name), id))];
    appended[id := OneMore(appended[id])]
  }

  /** What resize_inode answers when an entry is to be added to dir. */
  function Room(fs: Fs, dir: nat): int
    requires Shape(fs) && dir < MAX_INODES && fs.inodes[dir].size >= 0
  {
    if fs.inodes[dir].size + DIRENT > MAX_FILESIZE then FSE_INODETABLEFULL
    else if Holes(fs.inodes[dir].direct, Wanted(fs.inodes[dir].size + DIRENT)) > Free(fs.dbits) then FSE_FULL
    else FSE_OK
  }

  /** The blocks that a new entry of dir takes. */
  function Cost(fs: Fs, dir: nat): nat
    requires Shape(fs) && dir < MAX_INODES && fs.inodes[dir].size >= 0
  {
    Holes(fs.inodes[dir].direct, Wanted(fs.inodes[dir].size + DIRENT))
  }

  /** After the directory grew and the entry was written, it is the last of its entries. */
  lemma AppendedNodes(was: Fs, d: seq<Block>, mid: Fs, e: seq<Block>, f: seq<Block>, dir: nat, entry: seq<Byte>)
    requires Readable(was, d) && Readable(mid, e) && |f| == FS_BLOCKS && SameData(d, e) && dir < MAX_INODES
    requires Live(was, dir) && was.inodes[dir].kind == Directory && was.inodes[dir].size % DIRENT == 0 && |entry| == DIRENT
    requires mid.ibits == was.ibits && |mid.inodes| == |was.inodes|
    requires mid.inodes == was.inodes[dir := was.inodes[dir].(size := mid.inodes[dir].size, direct := mid.inodes[dir].direct)]
    requires mid.inodes[dir].size == was.inodes[dir].size + DIRENT
    requires forall k :: 0 <= k < INODE_NDIRECT && was.inodes[dir].direct[k] != -1 ==>
               mid.inodes[dir].direct[k] == was.inodes[dir].direct[k]
    requires FileBytes(f, mid.inodes[dir]) == FileBytes(e, mid.inodes[dir])[..was.inodes[dir].size] + entry
    requires forall j :: 0 <= j < MAX_INODES && j != dir && Live(mid, j) ==>
               FileBytes(f, mid.inodes[j]) == FileBytes(e, mid.inodes[j])
    ensures Nodes(mid, f) == Nodes(was, d)[dir := Appended(Nodes(was, d)[dir], EntryIn(entry))]
  {
    KeptBytes(d, e, was.inodes[dir], mid.inodes[dir]);
    var bytes := FileBytes(d, was.inodes[dir]);
    assert FileBytes(e, mid.inodes[dir])[..was.inodes[dir].size] == bytes;
    EntriesAppend(bytes, entry);
    hide ByteAt, Shape, Mapped;
    forall j | 0 <= j < MAX_INODES && j != dir
      ensures SameNode(was, d, mid, f, j)
    {
      SameInodeSameNode(was, d, mid, e, j);
    }
    NodesUpdate(was, d, mid, f, dir);
  }

  // ---------- One inode more, and one less ----------

  /** An inode that keeps its blocks gets other links, or another kind while it is empty. */
  lemma FieldNodes(was: Fs, d: seq<Block>, now: Fs, e: seq<Block>, id: nat)
    requires Readable(was, d) && Readable(now, e) && SameData(d, e) && id < MAX_INODES
    requires now == was.(inodes := was.inodes[id := now.inodes[id]])
    ensures Nodes(now, e) == Nodes(was, d)[id := NodeAt(now, e, id)]
    ensures Live(was, id) && now.inodes[id] == was.inodes[id].(nlinks := was.inodes[id].nlinks + 1) ==>
              NodeAt(now, e, id) == OneMore(NodeAt(was, d, id))
  {
    hide ByteAt, Mapped;
    forall j | 0 <= j < MAX_INODES && j != id
      ensures SameNode(was, d, now, e, j)
    {
      SameInodeSameNode(was, d, now, e, j);
    }
    NodesUpdate(was, d, now, e, id);
    if Live(was, id) && now.inodes[id] == was.inodes[id].(nlinks := was.inodes[id].nlinks + 1) {
      KeptBytes(d, e, was.inodes[id], now.inodes[id]);
      assert FileBytes(e, now.inodes[id]) == FileBytes(d, was.inodes[id]);
    }
  }

  lemma CreatedConsistent(was: Fs, d: seq<Block>, now: Fs, e: seq<Block>, id: int)
    requires Consistent(was) && Created(was, now, id) && SameData(d, e)
    ensures Consistent(now)
    ensures id >= 0 ==> Nodes(now, e) == Nodes(was, d)[id := Regular(0)]
    ensures id < 0 ==> Nodes(now, e) == Nodes(was, d)
  {
    CreateConserves(was, now, id);
    ConservedLoose(now);
    if id >= 0 {
      forall j | 0 <= j < MAX_INODES && Live(now, j)
        ensures Mapped(now.inodes[j]) && Orderly(now.inodes[j]) && KeepsBlocks(now.inodes[j], now.inodes[j].size)
      {
        if j != id {
          ConsistentFile(was, j);
        }
      }
      forall j | 0 <= j < MAX_INODES && j != id
        ensures SameNode(was, d, now, e, j)
      {
        SameInodeSameNode(was, d, now, e, j);
      }
      NodesUpdate(was, d, now, e, id);
    } else {
      SameNodes(was, d, now, e);
    }
  }

  lemma FreedConsistent(was: Fs, d: seq<Block>, now: Fs, e: seq<Block>, id: nat)
    requires Consistent(was) && id < BITMAP_ENTRIES && Live(was, id) && Freed(was, now, id) && SameData(d, e)
    ensures Consistent(now) && Nodes(now, e) == Nodes(was, d)[id := Unused]
  {
    FreeConserves(was, now, id);
    ConservedLoose(now);
    hide Conserved, Loose;
    forall j | 0 <= j < MAX_INODES && j != id
      ensures SameNode(was, d, now, e, j)
    {
      SameInodeSameNode(was, d, now, e, j);
    }
    NodesUpdate(was, d, now, e, id);
  }

  lemma SameNodes(was: Fs, d: seq<Block>, now: Fs, e: seq<Block>)
    requires Readable(was, d) && Readable(now, e) && SameData(d, e) && now.inodes == was.inodes && now.ibits == was.ibits
    ensures Nodes(now, e) == Nodes(was, d)
  {
    forall j | 0 <= j < MAX_INODES
      ensures SameNode(was, d, now, e, j)
    {
      SameInodeSameNode(was, d, now, e, j);
    }
    NodesSame(was, d, now, e);
  }
}
