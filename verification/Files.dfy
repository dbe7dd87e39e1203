/** The data path of filesystem/fs.c and filesystem/block.c: inodes, bitmaps and disk blocks that
  * change in place. Block numbers are relative to the superblock. The methods are proved to act
  * on the view of the state as the predicates of Blocks say, and on the bytes of the files.
  */
module Files {
  import opened Bitmap
  import opened Blocks
  import opened Stale

  type Block = b: seq<Byte> | |b| == BLOCK_SIZE witness seq(BLOCK_SIZE, _ => 0)

  /** The block with the bytes from offset on replaced by data. */
  function Patched(block: Block, offset: nat, data: seq<Byte>): Block
    requires offset + |data| <= BLOCK_SIZE
  {
    block[..offset] + data + block[offset + |data|..]
  }

  class FileSystem {
    const inodeBmap: array<Byte>
    const dblkBmap: array<Byte>
    const inodes: array<Inode>
    const disk: array<Block>
    /** The layout of a disk inode, which is not part of this model. */
    const encode: Inode -> seq<Byte>

    ghost predicate Allocated()
      reads this
    {
      && inodeBmap != dblkBmap && inodeBmap.Length == BITMAP_ENTRIES && dblkBmap.Length == BITMAP_ENTRIES
      && inodes.Length == MAX_INODES && disk.Length == FS_BLOCKS
      && (forall i :: |encode(i)| <= INODE_SIZE)
    }

    ghost function View(): Fs
      requires Allocated()
      reads this, inodeBmap, dblkBmap, inodes, disk
    {
      Fs(inodes[..], Bits(inodeBmap[..]), Bits(dblkBmap[..]),
         Bits(disk[1][..BITMAP_ENTRIES]), Bits(disk[2][..BITMAP_ENTRIES]))
    }

    ghost predicate Valid()
      reads this, inodeBmap, dblkBmap, inodes, disk
    {
      Allocated() && Shape(View())
    }

    /** fs_mkfs, up to the root directory: both bitmaps empty, in memory and on disk. */
    constructor (encode: Inode -> seq<Byte>)
      requires forall i :: |encode(i)| <= INODE_SIZE
      ensures Valid() && Conserved(View()) && FilesMapped(View())
      ensures forall i: nat :: !Live(View(), i)
      ensures fresh(inodeBmap) && fresh(dblkBmap) && fresh(inodes) && fresh(disk)
    {
      this.encode := encode;
      inodeBmap := new Byte[BITMAP_ENTRIES](_ => 0);
      dblkBmap := new Byte[BITMAP_ENTRIES](_ => 0);
      inodes := new Inode[MAX_INODES](_ => NewInode());
      disk := new Block[FS_BLOCKS](_ => seq(BLOCK_SIZE, _ => 0));
      new;
      NoBits(inodeBmap[..]);
      NoBits(dblkBmap[..]);
      NoBits(disk[1][..BITMAP_ENTRIES]);
      NoBits(disk[2][..BITMAP_ENTRIES]);
      NothingHeld(View());
    }

    // ---------- block.c ----------

    method BlockRead(n: nat, buf: array<Byte>)
      requires Allocated() && n < FS_BLOCKS && buf.Length == BLOCK_SIZE
      modifies buf
      ensures buf[..] == disk[n]
    {
      forall k | 0 <= k < BLOCK_SIZE {
        buf[k] := disk[n][k];
      }
    }

    method BlockWrite(n: nat, buf: array<Byte>)
      requires Allocated() && n < FS_BLOCKS && buf.Length == BLOCK_SIZE
      modifies disk
      ensures disk[..] == old(disk[..])[n := buf[..]]
    {
      disk[n] := buf[..];
    }

    /** Read, overwrite a part, write back. */
    method BlockModify(n: nat, offset: nat, data: seq<Byte>)
      requires Allocated() && n < FS_BLOCKS && offset + |data| <= BLOCK_SIZE
      modifies disk
      ensures disk[..] == old(disk[..])[n := Patched(old(disk[n]), offset, data)]
    {
      var buf := new Byte[BLOCK_SIZE];
      BlockRead(n, buf);
      forall k | 0 <= k < |data| {
        buf[offset + k] := data[k];
      }
      assert buf[..] == Patched(old(disk[n]), offset, data);
      BlockWrite(n, buf);
    }

    method BlockReadPart(n: nat, offset: nat, bytes: nat, address: array<Byte>, at: nat)
      requires Allocated() && n < FS_BLOCKS && offset + bytes <= BLOCK_SIZE && at + bytes <= address.Length
      requires address as object != disk
      modifies address
      ensures address[at..at + bytes] == disk[n][offset..offset + bytes]
      ensures forall k :: 0 <= k < address.Length && !(at <= k < at + bytes) ==> address[k] == old(address[k])
    {
      var buf := new Byte[BLOCK_SIZE];
      BlockRead(n, buf);
      var part := buf[..][offset..offset + bytes];
      forall k | at <= k < at + bytes {
        address[k] := part[k - at];
      }
      assert address[at..at + bytes] == part;
    }

    // ---------- Bitmaps and inodes on disk ----------

    method SaveBitmaps()
      requires Allocated()
      modifies disk
      ensures disk[1][..BITMAP_ENTRIES] == inodeBmap[..] && disk[2][..BITMAP_ENTRIES] == dblkBmap[..]
      ensures forall b :: 3 <= b < FS_BLOCKS ==> disk[b] == old(disk[b])
    {
      BlockModify(1, 0, inodeBmap[..]);
      BlockModify(2, 0, dblkBmap[..]);
    }

    method LoadBitmaps()
      requires Allocated()
      modifies inodeBmap, dblkBmap
      ensures inodeBmap[..] == disk[1][..BITMAP_ENTRIES] && dblkBmap[..] == disk[2][..BITMAP_ENTRIES]
    {
      assert disk[1][0..BITMAP_ENTRIES] == disk[1][..BITMAP_ENTRIES];
      assert disk[2][0..BITMAP_ENTRIES] == disk[2][..BITMAP_ENTRIES];
      BlockReadPart(1, 0, BITMAP_ENTRIES, inodeBmap, 0);
      BlockReadPart(2, 0, BITMAP_ENTRIES, dblkBmap, 0);
    }

    method SaveInode(id: nat)
      requires Allocated() && id < BITMAP_ENTRIES
      modifies disk
      ensures forall b :: 0 <= b < FS_BLOCKS && b != Ino2Blk(id) ==> disk[b] == old(disk[b])
      ensures disk[Ino2Blk(id)] == Patched(old(disk[Ino2Blk(id)]), id % 16 * INODE_SIZE, encode(inodes[id]))
    {
      BlockModify(Ino2Blk(id), id % 16 * INODE_SIZE, encode(inodes[id]));
    }

    // ---------- resize_inode, create_inode, free_inode ----------

    /** One round of the loop of resize_inode. */
    method ResizeSlot(id: nat, blocks: nat, x: nat, ghost d0: seq<int>, ghost b0: seq<bool>, ghost n: nat)
        returns (full: bool)
      requires Allocated() && id < BITMAP_ENTRIES && x < INODE_NDIRECT && (x < blocks <==> x < n)
      requires Growing(d0, b0, inodes[id].direct, Bits(dblkBmap[..]), n, x)
      requires LeastFirst(d0, b0, inodes[id].direct, if x < n then x else n)
      requires forall k :: 0 <= k < INODE_NDIRECT ==> -1 <= d0[k] < BITMAP_ENTRIES
      modifies inodes, dblkBmap
      ensures inodes[..] == old(inodes[..])[id := old(inodes[id]).(direct := inodes[id].direct)]
      ensures Growing(d0, b0, inodes[id].direct, Bits(dblkBmap[..]), n, if full then x else x + 1)
      ensures |inodes[id].direct| == INODE_NDIRECT
      ensures LeastFirst(d0, b0, inodes[id].direct, if x >= n then n else if full then x else x + 1)
      ensures full ==> x < n && inodes[id].direct[x] == -1 && forall d :: 0 <= d < BITMAP_ENTRIES ==>
                Bits(dblkBmap[..])[d]
    {
      ghost var d1, b1 := inodes[id].direct, Bits(dblkBmap[..]);
      GrowLengths(d0, b0, d1, b1, n, x);
      hide Bits, Growing, LeastFirst;
      if x < blocks {
        if inodes[id].direct[x] == -1 {
          var entry := GetFreeEntry(dblkBmap);
          inodes[id] := inodes[id].(direct := inodes[id].direct[x := entry]);
          if entry == -1 || entry >= NDATA_BLKS {
            assert inodes[id].direct == d1;
            return true;
          }
          GrowTake(d0, b0, d1, b1, n, x, entry);
          LeastTake(d0, b0, d1, b1, n, x, entry);
        } else {
          LeastKeep(d0, b0, d1, b1, n, x);
          GrowKeep(d0, b0, d1, b1, n, x);
        }
      } else {
        GrowRange(d0, b0, d1, b1, n, x);
        LeastKeep(d0, b0, d1, b1, n, x);
        if inodes[id].direct[x] != -1 {
          var _ := FreeBitmapEntry(inodes[id].direct[x], dblkBmap);
          GrowDrop(d0, b0, d1, b1, n, x);
        } else {
          GrowSkip(d0, b0, d1, b1, n, x);
        }
      }
      return false;
    }

    /** The loop of resize_inode: blocks for the slots below the new size, none for those above. */
    method ResizeSlots(id: nat, blocks: nat, ghost n: nat) returns (full: bool, ghost x: nat)
      requires Allocated() && id < BITMAP_ENTRIES && InodeShape(inodes[id])
      requires n == if blocks < INODE_NDIRECT then blocks else INODE_NDIRECT
      modifies inodes, dblkBmap
      ensures inodes[..] == old(inodes[..])[id := old(inodes[id]).(direct := inodes[id].direct)]
      ensures Growing(old(inodes[id]).direct, old(Bits(dblkBmap[..])), inodes[id].direct, Bits(dblkBmap[..]), n, x)
      ensures |inodes[id].direct| == INODE_NDIRECT
      ensures LeastFirst(old(inodes[id]).direct, old(Bits(dblkBmap[..])), inodes[id].direct, if x < n then x else n)
      ensures !full ==> x == INODE_NDIRECT
      ensures full ==> x < n && inodes[id].direct[x] == -1 && forall d :: 0 <= d < BITMAP_ENTRIES ==>
                Bits(dblkBmap[..])[d]
    {
      ghost var i0, b0 := inodes[id], Bits(dblkBmap[..]);
      GrowStart(i0.direct, b0, n);
      hide Bits, Growing, LeastFirst;
      x := 0;
      for y := 0 to INODE_NDIRECT
        invariant x == y
        invariant inodes[..] == old(inodes[..])[id := i0.(direct := inodes[id].direct)]
        invariant Growing(i0.direct, b0, inodes[id].direct, Bits(dblkBmap[..]), n, y)
        invariant |inodes[id].direct| == INODE_NDIRECT
        invariant LeastFirst(i0.direct, b0, inodes[id].direct, if y < n then y else n)
      {
        full := ResizeSlot(id, blocks, y, i0.direct, b0, n);
        if full {
          return true, y;
        }
        x := y + 1;
      }
      return false, x;
    }

    method ResizeInode(id: nat, newSize: nat) returns (r: int)
      requires Valid() && id < BITMAP_ENTRIES
      modifies inodes, disk, inodeBmap, dblkBmap
      ensures Valid() && Resized(old(View()), View(), id, newSize, r)
      ensures InodeShape(inodes[id])
      ensures r == FSE_OK ==> LeastFirst(old(inodes[id]).direct, old(View()).savedDbits, inodes[id].direct, Wanted(newSize))
      ensures forall b :: BITMAP_BLOCKS + INODE_BLOCKS <= b < FS_BLOCKS ==> disk[b] == old(disk[b])
    {
      if newSize > MAX_FILESIZE {
        return FSE_INODETABLEFULL;
      }
      ghost var was := View();
      assert InodeShape(was.inodes[id]);
      hide Bits, Growing, Resized, Shape, LeastFirst;
      LoadBitmaps();
      var full, x := ResizeSlots(id, newSize / BLOCK_SIZE + 1, Wanted(newSize));
      if full {
        GrowStuck(was, View(), id, newSize, x);
        return FSE_FULL;
      }
      inodes[id] := inodes[id].(size := newSize);
      SaveBitmaps();
      SaveInode(id);
      GrowDone(was, View(), id, newSize);
      return FSE_OK;
    }

    /** A new inode: the least one that is free, with no block and no link. */
    method CreateInode() returns (r: int)
      requires Valid()
      modifies inodes, disk, inodeBmap
      ensures Valid() && Created(old(View()), View(), r)
      ensures forall b :: BITMAP_BLOCKS + INODE_BLOCKS <= b < FS_BLOCKS ==> disk[b] == old(disk[b])
    {
      hide Bits;
      var i := GetFreeEntry(inodeBmap);
      if i < 0 || i >= MAX_INODES {
        assert View() == old(View());
        return FSE_NOMOREINODES;
      }
      SaveBitmaps();
      inodes[i] := NewInode();
      return i;
    }

    /** The blocks in all slots are given back, then the inode. */
    method FreeInode(id: nat)
      requires Valid() && id < BITMAP_ENTRIES
      modifies disk, inodeBmap, dblkBmap
      ensures Valid() && Freed(old(View()), View(), id)
      ensures forall b :: BITMAP_BLOCKS + INODE_BLOCKS <= b < FS_BLOCKS ==> disk[b] == old(disk[b])
    {
      ghost var b0, d := Bits(dblkBmap[..]), inodes[id].direct;
      assert InodeShape(inodes[id]);
      ghost var was := View();
      hide Bits, BitsAre, Shape;
      DropNone(b0, d);
      for x := 0 to INODE_NDIRECT
        invariant disk[..] == old(disk[..]) && inodeBmap[..] == old(inodeBmap[..])
        invariant BitsAre(b0, Bits(dblkBmap[..]), {}, Dropped(d, 0, x))
      {
        if inodes[id].direct[x] != -1 {
          DropOne(b0, Bits(dblkBmap[..]), d, x);
          var _ := FreeBitmapEntry(inodes[id].direct[x], dblkBmap);
        } else {
          assert Dropped(d, 0, x + 1) == Dropped(d, 0, x);
        }
      }
      var _ := FreeBitmapEntry(id, inodeBmap);
      SaveBitmaps();
      FreedShape(was, View(), id);
    }

    // ---------- db_read and db_write ----------

    /** The bytes of a file. */
    ghost function Contents(id: nat): (bytes: seq<Byte>)
      requires Allocated() && id < MAX_INODES && Mapped(inodes[id])
      reads this, inodes, disk
    {
      FileBytes(disk[..], inodes[id])
    }

    /** Part of the block in slot x is read; what arrives are the bytes of the file at that position. */
    method ReadPiece(id: nat, x: nat, offset: nat, part: nat, buffer: array<Byte>, at: nat, ghost pos: nat)
      requires Allocated() && id < MAX_INODES && Mapped(inodes[id]) && at + part <= buffer.Length
      requires buffer as object != disk && buffer as object != inodes
      requires pos == BLOCK_SIZE * x + offset && offset + part <= BLOCK_SIZE
      requires pos + part <= inodes[id].size && BLOCK_SIZE * x < inodes[id].size
      modifies buffer
      ensures forall k :: at <= k < at + part ==> buffer[k] == ByteAt(disk[..], inodes[id], pos + (k - at))
      ensures forall k :: 0 <= k < buffer.Length && !(at <= k < at + part) ==> buffer[k] == old(buffer[k])
    {
      var i := inodes[id];
      ChunkBytes(disk[..], i, x, offset, part);
      hide ByteAt, Mapped, Idx2Blk;
      BlockReadPart(Idx2Blk(i.direct[x]), offset, part, buffer, at);
      forall k | at <= k < at + part
        ensures buffer[k] == ByteAt(disk[..], i, pos + (k - at))
      {
        assert buffer[k] == buffer[at..at + part][k - at];
        assert pos + (k - at) == BLOCK_SIZE * x + (offset + (k - at));
      }
    }

    /** As much as there is of the size bytes from startPos on is read. */
    method DbRead(id: nat, buffer: array<Byte>, size: nat, startPos: nat) returns (read: int)
      requires Valid() && id < MAX_INODES && Mapped(inodes[id])
      requires size <= buffer.Length && buffer as object != disk && buffer as object != inodes
      modifies buffer
      ensures read == Max(0, Min(size, inodes[id].size - startPos))
      ensures startPos + read <= inodes[id].size ==> buffer[..read] == Contents(id)[startPos..startPos + read]
      ensures forall k :: read <= k < buffer.Length ==> buffer[k] == old(buffer[k])
    {
      var i := inodes[id];
      var finishPos := size + startPos;
      if finishPos > i.size {
        finishPos := i.size;
      }
      var startBlock := startPos / BLOCK_SIZE;
      var finishBlock := finishPos / BLOCK_SIZE + 1;
      read := 0;
      var x := startBlock;
      hide ByteAt, Mapped, Idx2Blk, Shape, Bits;
      while x < finishBlock && read + startPos < i.size
        invariant startBlock <= x && 0 <= read <= size && inodes[id] == i && disk[..] == old(disk[..])
        invariant x == startBlock ==> read == 0
        invariant x > startBlock ==> read + startPos == Min(BLOCK_SIZE * x, finishPos)
        invariant startPos + read <= i.size || read == 0
        invariant forall k :: 0 <= k < read ==> buffer[k] == ByteAt(disk[..], i, startPos + k)
        invariant forall k :: read <= k < buffer.Length ==> buffer[k] == old(buffer[k])
        decreases finishBlock - x
      {
        var offset, part := NextPiece(x, startPos, finishPos, finishBlock, read);
        ReadPiece(id, x, offset, part, buffer, read, startPos + read);
        read := read + part;
        x := x + 1;
      }
    }

    /** Part of the block in slot x is overwritten: those bytes of the file change, and no others. */
    method WritePiece(id: nat, x: nat, offset: nat, part: nat, buffer: array<Byte>, from: nat, ghost pos: nat)
      requires Allocated() && id < MAX_INODES && Mapped(inodes[id]) && from + part <= buffer.Length
      requires pos == BLOCK_SIZE * x + offset && offset + part <= BLOCK_SIZE
      requires pos + part <= inodes[id].size && BLOCK_SIZE * x < inodes[id].size && OwnBlocks(inodes[id])
      requires buffer as object != disk
      modifies disk
      ensures OnlyFile(old(disk[..]), disk[..], inodes[id])
      ensures forall p :: 0 <= p < inodes[id].size ==>
                ByteAt(disk[..], inodes[id], p) ==
                if pos <= p < pos + part then buffer[from + (p - pos)] else old(ByteAt(disk[..], inodes[id], p))
    {
      var i, data := inodes[id], buffer[from..from + part];
      ghost var was := disk[..];
      ChunkBytes(disk[..], i, x, offset, part);
      BlockModify(Idx2Blk(i.direct[x]), offset, data);
      PatchedBytes(was, disk[..], i, x, offset, data);
      hide ByteAt, OnlyFile, OwnBlocks, Mapped, Idx2Blk, Patched;
      forall p | 0 <= p < i.size
        ensures ByteAt(disk[..], i, p) == if pos <= p < pos + part then buffer[from + (p - pos)] else ByteAt(was, i, p)
      {
        if pos <= p < pos + part {
          assert data[p - pos] == buffer[from + (p - pos)];
        }
      }
    }

    /** The buffer is not one of the file system's own arrays. */
    ghost predicate Foreign(buffer: array<Byte>)
      reads this
    {
      buffer != inodeBmap && buffer != dblkBmap && buffer as object != disk && buffer as object != inodes
    }

    /** The loop of db_write. */
    method WriteAll(id: nat, buffer: array<Byte>, size: nat, startPos: nat) returns (written: int)
      requires Allocated() && id < MAX_INODES && OwnBlocks(inodes[id]) && Foreign(buffer) && size <= buffer.Length
      requires inodes[id].size == Min(size + startPos, MAX_FILESIZE)
      modifies disk
      ensures written == Max(0, inodes[id].size - startPos) && OnlyFile(old(disk[..]), disk[..], inodes[id])
      ensures forall p :: 0 <= p < inodes[id].size ==>
                ByteAt(disk[..], inodes[id], p) == if p < startPos then old(ByteAt(disk[..], inodes[id], p)) else buffer[p - startPos]
    {
      var i := inodes[id];
      ghost var was := disk[..];
      var finishPos := i.size;
      var startBlock, finishBlock := startPos / BLOCK_SIZE, (size + startPos) / BLOCK_SIZE + 1;
      written := 0;
      var x := startBlock;
      hide ByteAt, OnlyFile, OwnBlocks, Mapped;
      OnlyFileRefl(was, i);
      while x < finishBlock && startPos + written < i.size
        invariant startBlock <= x && 0 <= written && inodes[id] == i
        invariant startPos + written <= i.size || written == 0
        invariant x == startBlock ==> written == 0
        invariant x > startBlock ==> written + startPos == Min(BLOCK_SIZE * x, finishPos)
        invariant OnlyFile(was, disk[..], i)
        invariant forall p :: 0 <= p < i.size ==>
                    ByteAt(disk[..], i, p) == if startPos <= p < startPos + written then buffer[p - startPos] else ByteAt(was, i, p)
        decreases finishBlock - x
      {
        ghost var before := disk[..];
        var offset, part := NextPiece(x, startPos, finishPos, finishBlock, written);
        WritePiece(id, x, offset, part, buffer, written, startPos + written);
        OnlyFileTrans(was, before, disk[..], i);
        written := written + part;
        x := x + 1;
      }
    }

    /** The file ends with what was written, bytes beyond its old end and before that excepted; its
      * earlier bytes and all other files stay as they were. */
    method DbWrite(id: nat, buffer: array<Byte>, size: nat, startPos: nat, ghost stale: set<Slot>) returns (r: int)
      requires Valid() && FilesMapped(View()) && CanResize(View(), stale, id, Min(size + startPos, MAX_FILESIZE))
      requires Foreign(buffer) && size <= buffer.Length
      modifies inodes, disk, inodeBmap, dblkBmap
      ensures Valid() && FilesMapped(View()) && Mapped(inodes[id])
      ensures Resized(old(View()), View(), id, Min(size + startPos, MAX_FILESIZE), if r >= 0 then FSE_OK else r)
      ensures r >= 0 ==> r == Max(0, Min(size, MAX_FILESIZE - startPos))
      ensures r >= 0 ==> |Contents(id)| == Min(size + startPos, MAX_FILESIZE)
      ensures r >= 0 ==> forall p :: startPos <= p < inodes[id].size ==> Contents(id)[p] == buffer[p - startPos]
      ensures r >= 0 ==> forall p :: 0 <= p < startPos && p < inodes[id].size && p < old(inodes[id].size) ==>
                Contents(id)[p] == old(Contents(id))[p]
      ensures r >= 0 && startPos <= old(inodes[id].size) ==> Contents(id) == old(Contents(id))[..startPos] + buffer[..r]
      ensures r < 0 ==> r == FSE_FULL && Contents(id) == old(Contents(id))
      ensures forall j :: 0 <= j < MAX_INODES && j != id && Live(old(View()), j) ==> Contents(j) == old(Contents(j))
    {
      hide Resized, Loose, CanResize, Shape, Bits, ByteAt, OnlyFile, Mapped;
      var finishPos := size + startPos;
      if finishPos > MAX_FILESIZE {
        finishPos := MAX_FILESIZE;
      }
      CanResizeLive(View(), stale, id, finishPos);
      MappedSize(inodes[id]);
      ghost var was, before := View(), disk[..];
      var resize := ResizeInode(id, finishPos);
      ghost var mid, between := View(), disk[..];
      if resize != FSE_OK {
        FullKeepsFiles(was, mid, before, between, id, finishPos, resize, stale);
        return resize;
      }
      ResizeKeepsApart(was, mid, id, finishPos, stale);
      r := WriteAll(id, buffer, size, startPos);
      WriteKeepsFiles(was, mid, before, between, disk[..], id, finishPos, stale);
      assert View() == mid;
    }
  }

  /** Every live file has its blocks. */
  predicate FilesMapped(fs: Fs) {
    forall j :: 0 <= j < |fs.inodes| && Live(fs, j) ==> Mapped(fs.inodes[j])
  }

  lemma MappedOf(fs: Fs, id: nat)
    requires FilesMapped(fs) && Live(fs, id)
    ensures Mapped(fs.inodes[id])
  {
  }

  lemma MappedSize(i: Inode)
    requires Mapped(i)
    ensures 0 <= i.size <= MAX_FILESIZE
  {
  }

  /** A byte is the same in a file and disk that agree on its slot and its block. */
  lemma SameByte(d: seq<Block>, e: seq<Block>, i: Inode, j: Inode, p: nat)
    requires |d| == |e| == FS_BLOCKS && Mapped(i) && Mapped(j) && p < i.size && p < j.size
    requires forall k :: 0 <= k < INODE_NDIRECT && i.direct[k] != -1 ==> j.direct[k] == i.direct[k]
    requires forall k :: 0 <= k < INODE_NDIRECT && i.direct[k] >= 0 && BLOCK_SIZE * k < i.size && BLOCK_SIZE * k <= p ==>
               e[Idx2Blk(i.direct[k])] == d[Idx2Blk(i.direct[k])]
    ensures ByteAt(e, j, p) == ByteAt(d, i, p)
  {
    InSlot(p);
    assert j.direct[p / BLOCK_SIZE] == i.direct[p / BLOCK_SIZE];
  }

  /** The data blocks are as before. */
  predicate SameData(d: seq<Block>, e: seq<Block>) {
    |d| == |e| == FS_BLOCKS && forall b :: BITMAP_BLOCKS + INODE_BLOCKS <= b < FS_BLOCKS ==> e[b] == d[b]
  }

  lemma KeptBytes(d: seq<Block>, e: seq<Block>, i: Inode, j: Inode)
    requires SameData(d, e) && Mapped(i) && Mapped(j)
    requires forall k :: 0 <= k < INODE_NDIRECT && i.direct[k] != -1 ==> j.direct[k] == i.direct[k]
    ensures forall p :: 0 <= p < i.size && p < j.size ==> ByteAt(e, j, p) == ByteAt(d, i, p)
  {
    forall p | 0 <= p < i.size && p < j.size
      ensures ByteAt(e, j, p) == ByteAt(d, i, p)
    {
      SameByte(d, e, i, j, p);
    }
  }

  lemma CanResizeLive(fs: Fs, stale: set<Slot>, id: nat, size: nat)
    requires CanResize(fs, stale, id, size)
    ensures id < BITMAP_ENTRIES && Live(fs, id) && |fs.inodes| == MAX_INODES
  {
  }

  lemma FullKeepsFiles(was: Fs, now: Fs, d: seq<Block>, e: seq<Block>, id: nat, size: nat, r: int, stale: set<Slot>)
    requires CanResize(was, stale, id, size) && FilesMapped(was) && size <= MAX_FILESIZE
    requires Resized(was, now, id, size, r) && r != FSE_OK
    requires SameData(d, e)
    ensures r == FSE_FULL && FilesMapped(now)
    ensures forall j :: 0 <= j < MAX_INODES && Live(was, j) ==>
              Live(now, j) && FileBytes(e, now.inodes[j]) == FileBytes(d, was.inodes[j])
  {
    FullKeepsSlots(was, now, id, size, r);
    forall j | 0 <= j < MAX_INODES && Live(was, j)
      ensures Mapped(now.inodes[j]) && FileBytes(e, now.inodes[j]) == FileBytes(d, was.inodes[j])
    {
      KeptBytes(d, e, was.inodes[j], now.inodes[j]);
    }
  }

  /** A slot that holds bytes of a file is not stale. */
  lemma StaleHoldsNothing(fs: Fs, stale: set<Slot>, j: nat, k: nat)
    requires Loose(fs, stale) && j < MAX_INODES && fs.inodes[j].size > BLOCK_SIZE * k
    ensures (j, k) !in stale
  {
    assert (j, k) in stale ==> StaleSlot(fs, j, k);
  }

  /** What is written to the blocks of a file after it was resized does not show in any other. */
  lemma WriteKeepsFiles(was: Fs, now: Fs, d: seq<Block>, e: seq<Block>, f: seq<Block>, id: nat, size: nat, stale: set<Slot>)
    requires CanResize(was, stale, id, size) && FilesMapped(was) && size <= MAX_FILESIZE
    requires Resized(was, now, id, size, FSE_OK) && SameData(d, e) && OnlyFile(e, f, now.inodes[id])
    ensures FilesMapped(now) && f[1] == e[1] && f[2] == e[2]
    ensures forall j :: 0 <= j < MAX_INODES && j != id && Live(was, j) ==>
              Live(now, j) && FileBytes(f, now.inodes[j]) == FileBytes(d, was.inodes[j])
    ensures forall p :: 0 <= p < size && p < was.inodes[id].size ==>
              ByteAt(e, now.inodes[id], p) == ByteAt(d, was.inodes[id], p)
  {
    ResizeKeepsApart(was, now, id, size, stale);
    KeptBytes(d, e, was.inodes[id], now.inodes[id]);
    forall j | 0 <= j < MAX_INODES && j != id && Live(was, j)
      ensures FileBytes(f, now.inodes[j]) == FileBytes(d, was.inodes[j])
    {
      var i := was.inodes[j];
      forall k: nat | i.size > BLOCK_SIZE * k
        ensures (j, k) !in stale
      {
        StaleHoldsNothing(was, stale, j, k);
      }
      forall p | 0 <= p < i.size
        ensures ByteAt(f, i, p) == ByteAt(d, i, p)
      {
        SameByte(d, f, i, i, p);
      }
    }
  }

  /** What was written is read back, and so is what stood before it, in whatever pieces. */
  method WriteThenRead(fs: FileSystem, id: nat, data: array<Byte>, size: nat, startPos: nat,
                       buffer: array<Byte>, length: nat, from: nat) returns (written: int, read: int)
    requires fs.Valid() && Conserved(fs.View()) && id < BITMAP_ENTRIES && Live(fs.View(), id) && FilesMapped(fs.View())
    requires fs.inodes[id].size >= startPos && fs.Foreign(data) && size <= data.Length
    requires fs.Foreign(buffer) && buffer != data && length <= buffer.Length
    modifies fs.inodes, fs.disk, fs.inodeBmap, fs.dblkBmap, buffer
    ensures written < 0 ==> written == FSE_FULL && read == written
    ensures written >= 0 ==> written == Min(size, MAX_FILESIZE - startPos)
    ensures written >= 0 ==>
              var contents := old(fs.Contents(id))[..startPos] + data[..written];
              && read == Max(0, Min(length, |contents| - from))
              && (from <= |contents| ==> buffer[..read] == contents[from..from + read])
  {
    hide Conserved, Resized, FilesMapped, Loose;
    MappedOf(fs.View(), id);
    ConservedLoose(fs.View());
    written := fs.DbWrite(id, data, size, startPos, {});
    if written < 0 {
      return written, written;
    }
    read := fs.DbRead(id, buffer, length, from);
  }

  lemma NoBits(bytes: seq<Byte>)
    requires |bytes| == BITMAP_ENTRIES && forall i :: 0 <= i < BITMAP_ENTRIES ==> bytes[i] == 0
    ensures BitsShape(Bits(bytes)) && Bits(bytes) == seq(8 * BITMAP_ENTRIES, _ => false)
  {
    forall b: Byte, k | b == 0 && 0 <= k < 8
      ensures !Has(b, k)
    {
    }
  }

  /** Without live inodes and used blocks everything is conserved. */
  lemma NothingHeld(fs: Fs)
    requires Shape(fs) && fs.savedIbits == fs.ibits && fs.savedDbits == fs.dbits
    requires forall i :: 0 <= i < |fs.ibits| ==> !fs.ibits[i] && !fs.dbits[i]
    ensures Conserved(fs)
  {
  }

  lemma OnlyFileRefl(disk: seq<Block>, i: Inode)
    requires |disk| == FS_BLOCKS && Mapped(i)
    ensures OnlyFile(disk, disk, i)
  {
  }

  lemma OnlyFileTrans(a: seq<Block>, b: seq<Block>, c: seq<Block>, i: Inode)
    requires OnlyFile(a, b, i) && OnlyFile(b, c, i)
    ensures OnlyFile(a, c, i)
  {
  }

  /** Different slots that the file uses hold different blocks. */
  ghost predicate OwnBlocks(i: Inode) {
    Mapped(i) && forall k, l :: 0 <= k < l < Wanted(i.size) ==> i.direct[k] != i.direct[l]
  }

  /** No block but those of the file changed. */
  ghost predicate OnlyFile(was: seq<Block>, now: seq<Block>, i: Inode) {
    && Mapped(i) && |was| == |now| == FS_BLOCKS
    && forall b :: 0 <= b < FS_BLOCKS && (forall k :: 0 <= k < Wanted(i.size) ==> Idx2Blk(i.direct[k]) != b) ==> now[b] == was[b]
  }

  lemma PatchedByte(was: seq<Block>, now: seq<Block>, i: Inode, x: nat, offset: nat, data: seq<Byte>, p: nat)
    requires |was| == FS_BLOCKS && OwnBlocks(i) && offset + |data| <= BLOCK_SIZE && p < i.size
    requires BLOCK_SIZE * x < i.size
    requires x < INODE_NDIRECT && 0 <= i.direct[x] < BITMAP_ENTRIES
    requires now == was[Idx2Blk(i.direct[x]) := Patched(was[Idx2Blk(i.direct[x])], offset, data)]
    ensures var pos := BLOCK_SIZE * x + offset;
            ByteAt(now, i, p) == if pos <= p < pos + |data| then data[p - pos] else ByteAt(was, i, p)
  {
    InSlot(p);
    assert p == BLOCK_SIZE * (p / BLOCK_SIZE) + p % BLOCK_SIZE;
    if p / BLOCK_SIZE != x {
      var k, l := if x < p / BLOCK_SIZE then x else p / BLOCK_SIZE, if x < p / BLOCK_SIZE then p / BLOCK_SIZE else x;
      assert l < Wanted(i.size);
      assert i.direct[k] != i.direct[l];
    }
  }

  lemma PatchedBytes(was: seq<Block>, now: seq<Block>, i: Inode, x: nat, offset: nat, data: seq<Byte>)
    requires |was| == FS_BLOCKS && OwnBlocks(i) && offset + |data| <= BLOCK_SIZE && BLOCK_SIZE * x < i.size
    requires x < INODE_NDIRECT && 0 <= i.direct[x] < BITMAP_ENTRIES
    requires now == was[Idx2Blk(i.direct[x]) := Patched(was[Idx2Blk(i.direct[x])], offset, data)]
    ensures OnlyFile(was, now, i)
    ensures forall p :: 0 <= p < i.size ==>
              var pos := BLOCK_SIZE * x + offset;
              ByteAt(now, i, p) == if pos <= p < pos + |data| then data[p - pos] else ByteAt(was, i, p)
  {
    assert x < Wanted(i.size);
    forall p | 0 <= p < i.size
      ensures var pos := BLOCK_SIZE * x + offset;
              ByteAt(now, i, p) == if pos <= p < pos + |data| then data[p - pos] else ByteAt(was, i, p)
    {
      PatchedByte(was, now, i, x, offset, data, p);
    }
  }

  /** The piece that the loops of db_read and db_write move next: part bytes from offset on, of the
    * block in slot x. It is where the last one ended, within the block, and ends with the block
    * or with the transfer. */
  method NextPiece(x: nat, start: nat, finish: nat, finishBlock: nat, done: nat) returns (offset: nat, part: nat)
    requires start / BLOCK_SIZE <= x < finishBlock && start <= finish
    requires x == start / BLOCK_SIZE ==> done == 0
    requires x > start / BLOCK_SIZE ==> done + start == Min(BLOCK_SIZE * x, finish)
    requires if x + 1 == finishBlock then BLOCK_SIZE * x <= finish < BLOCK_SIZE * (x + 1) else BLOCK_SIZE * (x + 1) <= finish
    ensures start + done == BLOCK_SIZE * x + offset && offset + part <= BLOCK_SIZE
    ensures start + done + part == Min(BLOCK_SIZE * (x + 1), finish)
  {
    if x == start / BLOCK_SIZE {
      offset, part := start % BLOCK_SIZE, BLOCK_SIZE - start % BLOCK_SIZE;
      if x + 1 == finishBlock {
        part := finish - start;
      }
    } else if x + 1 == finishBlock {
      offset, part := 0, finish - start - done;
    } else {
      offset, part := 0, BLOCK_SIZE;
    }
  }

  lemma ChunkBytes(disk: seq<Block>, i: Inode, x: nat, offset: nat, part: nat)
    requires |disk| == FS_BLOCKS && Mapped(i) && offset + part <= BLOCK_SIZE
    requires BLOCK_SIZE * x + offset + part <= i.size && BLOCK_SIZE * x < i.size
    ensures x < INODE_NDIRECT && 0 <= i.direct[x] < BITMAP_ENTRIES && 0 <= Idx2Blk(i.direct[x]) < FS_BLOCKS
    ensures forall o :: offset <= o < offset + part ==>
              ByteAt(disk, i, BLOCK_SIZE * x + o) == disk[Idx2Blk(i.direct[x])][o]
  {
    forall o | offset <= o < offset + part
      ensures ByteAt(disk, i, BLOCK_SIZE * x + o) == disk[Idx2Blk(i.direct[x])][o]
    {
      Locate(x, o);
    }
  }

  lemma Locate(x: nat, o: nat)
    requires o < BLOCK_SIZE
    ensures (BLOCK_SIZE * x + o) / BLOCK_SIZE == x && (BLOCK_SIZE * x + o) % BLOCK_SIZE == o
  {
  }

  function Min(a: int, b: int): int { if a <= b then a else b }

  function Max(a: int, b: int): int { if a >= b then a else b }

  /** Byte p of the file. */
  function ByteAt(disk: seq<Block>, i: Inode, p: nat): Byte
    requires |disk| == FS_BLOCKS && Mapped(i) && p < i.size
  {
    InSlot(p);
    disk[Idx2Blk(i.direct[p / BLOCK_SIZE])][p % BLOCK_SIZE]
  }

  lemma InSlot(p: nat)
    requires p < MAX_FILESIZE
    ensures p / BLOCK_SIZE < INODE_NDIRECT && p / BLOCK_SIZE * BLOCK_SIZE <= p && p % BLOCK_SIZE < BLOCK_SIZE
  {
  }

  function FileBytes(disk: seq<Block>, i: Inode): (bytes: seq<Byte>)
    requires |disk| == FS_BLOCKS && Mapped(i)
    ensures |bytes| == i.size && forall p :: 0 <= p < i.size ==> bytes[p] == ByteAt(disk, i, p)
  {
    seq(i.size, p requires 0 <= p < i.size => ByteAt(disk, i, p))
  }
}
