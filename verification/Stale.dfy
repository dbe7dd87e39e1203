/** States of the file system between two operations that conserve blocks. resize_inode leaves
  * the numbers of the blocks that it frees in their slots. As long as nothing is allocated, such
  * a stale slot does no harm, and it is gone when its inode is freed. That is what happens to
  * the directories of a subtree that is being removed.
  */
module Stale {
  import opened Bitmap
  import opened Blocks

  type Slot = (nat, nat)

  /** Slot k of inode i lies beyond its size and still holds a block, which is free. */
  predicate StaleSlot(fs: Fs, i: nat, k: nat)
    requires Shape(fs)
  {
    && i < MAX_INODES && k < INODE_NDIRECT && Live(fs, i)
    && fs.inodes[i].size >= 0 && Wanted(fs.inodes[i].size) <= k
    && fs.inodes[i].direct[k] != -1 && !fs.dbits[fs.inodes[i].direct[k]]
  }

  /** Slot k of inode i holds block d by right. */
  predicate InUse(fs: Fs, stale: set<Slot>, i: nat, k: nat, d: nat) {
    Holds(fs, i, k, d) && (i, k) !in stale
  }

  ghost predicate Used(fs: Fs, stale: set<Slot>, d: nat) {
    exists i, k :: InUse(fs, stale, i, k, d)
  }

  /** All blocks are conserved, but for the stale slots. */
  ghost predicate Loose(fs: Fs, stale: set<Slot>) {
    && Shape(fs) && fs.savedIbits == fs.ibits && fs.savedDbits == fs.dbits
    && (forall p :: p in stale ==> StaleSlot(fs, p.0, p.1))
    && (forall d: nat :: d < |fs.dbits| ==> (fs.dbits[d] <==> Used(fs, stale, d)))
    && (forall i, k, j, l, d :: InUse(fs, stale, i, k, d) && InUse(fs, stale, j, l, d) ==> i == j && k == l)
  }

  /** The blocks are conserved exactly if no slot is stale. */
  lemma LooseConserved(fs: Fs, stale: set<Slot>)
    requires Loose(fs, stale)
    ensures Conserved(fs) <==> stale == {}
  {
    if stale == {} {
      forall i, k, d
        ensures Holds(fs, i, k, d) <==> InUse(fs, stale, i, k, d)
      {
      }
      forall d: nat
        ensures Held(fs, d) <==> Used(fs, stale, d)
      {
        if Held(fs, d) {
          var i, k :| Holds(fs, i, k, d);
          assert InUse(fs, stale, i, k, d);
        }
      }
    } else {
      var p :| p in stale;
      assert StaleSlot(fs, p.0, p.1) && InodeShape(fs.inodes[p.0]);
      var d := fs.inodes[p.0].direct[p.1];
      assert Holds(fs, p.0, p.1, d);
      assert Held(fs, d) && !fs.dbits[d];
    }
  }

  lemma ConservedLoose(fs: Fs)
    requires Conserved(fs)
    ensures Loose(fs, {})
  {
    forall d: nat
      ensures Held(fs, d) <==> Used(fs, {}, d)
    {
      if Held(fs, d) {
        var i, k :| Holds(fs, i, k, d);
        assert InUse(fs, {}, i, k, d);
      }
    }
  }

  /** The slots of inode id from n on that hold a block. */
  function Beyond(direct: seq<int>, id: nat, n: nat): set<Slot>
    requires |direct| == INODE_NDIRECT
  {
    set k: nat | n <= k < INODE_NDIRECT && direct[k] != -1 :: (id, k)
  }

  /** Nothing below the new size is stale, and blocks are taken only when nothing is stale. */
  ghost predicate CanResize(fs: Fs, stale: set<Slot>, id: nat, size: nat) {
    && Loose(fs, stale) && id < BITMAP_ENTRIES && Live(fs, id)
    && (forall k :: 0 <= k < Wanted(size) ==> (id, k) !in stale)
    && (stale == {} || Holes(fs.inodes[id].direct, Wanted(size)) == 0)
  }

  /** Which slots are in use after a resize: the old ones that were kept, and the new ones. */
  lemma ResizedUse(was: Fs, now: Fs, id: nat, size: nat, stale: set<Slot>, i: nat, k: nat, d: nat)
    requires CanResize(was, stale, id, size) && Resized(was, now, id, size, FSE_OK)
    ensures InUse(now, stale + Beyond(was.inodes[id].direct, id, Wanted(size)), i, k, d) <==>
            || (InUse(was, stale, i, k, d) && (i == id ==> k < Wanted(size)))
            || (i == id && NewSlot(was, now, id, Wanted(size), k, d))
    ensures InUse(was, stale, i, k, d) ==> d < |was.dbits| && was.dbits[d]
    ensures NewSlot(was, now, id, Wanted(size), k, d) ==> d < |was.dbits| && !was.dbits[d]
  {
    assert InodeShape(was.inodes[id]);
    if InUse(was, stale, i, k, d) {
      assert InodeShape(was.inodes[i]) && Used(was, stale, d);
    }
  }

  /** The bitmap after the resize. */
  lemma ResizedBit(was: Fs, now: Fs, id: nat, size: nat, stale: set<Slot>, d: nat)
    requires CanResize(was, stale, id, size) && Resized(was, now, id, size, FSE_OK) && d < |was.dbits|
    ensures var next := stale + Beyond(was.inodes[id].direct, id, Wanted(size));
            now.dbits[d] <==> Used(now, next, d)
  {
    var next, n := stale + Beyond(was.inodes[id].direct, id, Wanted(size)), Wanted(size);
    var before, after := was.inodes[id].direct, now.inodes[id].direct;
    assert forall k :: n <= k < INODE_NDIRECT && before[k] != -1 ==> before[k] in Dropped(before, n, INODE_NDIRECT);
    if now.dbits[d] {
      if was.dbits[d] {
        var i: nat, k: nat :| InUse(was, stale, i, k, d);
        ResizedUse(was, now, id, size, stale, i, k, d);
        assert InUse(now, next, i, k, d);
      } else {
        var k: nat :| k < n && before[k] == -1 && after[k] == d;
        ResizedUse(was, now, id, size, stale, id, k, d);
        assert InUse(now, next, id, k, d);
      }
    }
    if Used(now, next, d) {
      var i: nat, k: nat :| InUse(now, next, i, k, d);
      ResizedUse(was, now, id, size, stale, i, k, d);
      if d in Dropped(before, n, INODE_NDIRECT) {
        var l: nat :| n <= l < INODE_NDIRECT && before[l] == d;
        NotDropped(was, now, id, size, stale, i, k, d, l);
      }
    }
  }

  /** A block that is dropped is not in use afterwards. */
  lemma NotDropped(was: Fs, now: Fs, id: nat, size: nat, stale: set<Slot>, i: nat, k: nat, d: nat, l: nat)
    requires CanResize(was, stale, id, size) && Resized(was, now, id, size, FSE_OK)
    requires Wanted(size) <= l < INODE_NDIRECT && was.inodes[id].direct[l] == d
    ensures !InUse(now, stale + Beyond(was.inodes[id].direct, id, Wanted(size)), i, k, d)
  {
    ResizedUse(was, now, id, size, stale, i, k, d);
    if (id, l) in stale {
      assert StaleSlot(was, id, l);
      if NewSlot(was, now, id, Wanted(size), k, d) {
        NoHoles(was.inodes[id].direct, Wanted(size), k);
      }
    } else {
      assert InUse(was, stale, id, l, d);
      ResizedUse(was, now, id, size, stale, id, l, d);
    }
  }

  /** A resize leaves the dropped blocks of the inode stale, and conserves all others. */
  lemma ResizeLoose(was: Fs, now: Fs, id: nat, size: nat, stale: set<Slot>)
    requires CanResize(was, stale, id, size) && Resized(was, now, id, size, FSE_OK)
    ensures Loose(now, stale + Beyond(was.inodes[id].direct, id, Wanted(size)))
  {
    var next := stale + Beyond(was.inodes[id].direct, id, Wanted(size));
    forall d: nat | d < |now.dbits|
      ensures now.dbits[d] <==> Used(now, next, d)
    {
      ResizedBit(was, now, id, size, stale, d);
    }
    forall p | p in next
      ensures StaleSlot(now, p.0, p.1)
    {
      ResizedStale(was, now, id, size, stale, p);
    }
    forall i: nat, k: nat, j: nat, l: nat, d: nat | InUse(now, next, i, k, d) && InUse(now, next, j, l, d)
      ensures i == j && k == l
    {
      ResizedUse(was, now, id, size, stale, i, k, d);
      ResizedUse(was, now, id, size, stale, j, l, d);
    }
  }

  lemma ResizedStale(was: Fs, now: Fs, id: nat, size: nat, stale: set<Slot>, p: Slot)
    requires CanResize(was, stale, id, size) && Resized(was, now, id, size, FSE_OK)
    requires p in stale + Beyond(was.inodes[id].direct, id, Wanted(size))
    ensures StaleSlot(now, p.0, p.1)
  {
    var d, n := was.inodes[id].direct, Wanted(size);
    assert InodeShape(was.inodes[id]);
    if p in stale {
      assert StaleSlot(was, p.0, p.1);
      if p.0 == id {
        assert n <= p.1;
      }
      assert InodeShape(was.inodes[p.0]);
      var b := was.inodes[p.0].direct[p.1];
      if b in Taken(d, now.inodes[id].direct, n) {
        var k: nat :| k < n && d[k] == -1 && now.inodes[id].direct[k] == b;
        NoHoles(d, n, k);
      }
    } else {
      assert d[p.1] in Dropped(d, n, INODE_NDIRECT);
    }
  }

  /** The stale slots of all inodes but id. */
  function OfOthers(stale: set<Slot>, id: nat): set<Slot> {
    set p | p in stale && p.0 != id
  }

  /** An inode that is freed takes its stale slots along. */
  lemma FreeLoose(was: Fs, now: Fs, id: nat, stale: set<Slot>)
    requires Loose(was, stale) && id < BITMAP_ENTRIES && Live(was, id) && Freed(was, now, id)
    ensures Loose(now, OfOthers(stale, id))
  {
    var next := OfOthers(stale, id);
    var dropped := Dropped(was.inodes[id].direct, 0, INODE_NDIRECT);
    forall i: nat, k: nat, d: nat
      ensures InUse(now, next, i, k, d) <==> i != id && InUse(was, stale, i, k, d)
    {
    }
    forall p | p in next
      ensures StaleSlot(now, p.0, p.1)
    {
      assert StaleSlot(was, p.0, p.1) && InodeShape(was.inodes[p.0]);
    }
    forall d: nat | d < |now.dbits|
      ensures now.dbits[d] <==> Used(now, next, d)
    {
      if was.dbits[d] {
        var i: nat, k: nat :| InUse(was, stale, i, k, d);
        if i == id {
          assert d in dropped;
          assert !Used(now, next, d);
        } else {
          assert InUse(now, next, i, k, d);
          if d in dropped {
            var l: nat :| l < INODE_NDIRECT && was.inodes[id].direct[l] == d;
            FreedApart(was, id, stale, i, k, d, l);
          }
        }
      } else {
        assert !Used(was, stale, d);
        assert !Used(now, next, d);
      }
    }
  }

  lemma FreedApart(was: Fs, id: nat, stale: set<Slot>, i: nat, k: nat, d: nat, l: nat)
    requires Loose(was, stale) && id < MAX_INODES && Live(was, id) && i != id && l < INODE_NDIRECT
    requires InUse(was, stale, i, k, d) && d < |was.dbits| && was.dbits[d]
    ensures was.inodes[id].direct[l] != d
  {
    assert (id, l) in stale ==> StaleSlot(was, id, l);
    assert InUse(was, stale, id, l, d) <==> (id, l) !in stale && was.inodes[id].direct[l] == d;
  }

  /** After a resize that succeeds, the slots that the file uses hold different blocks, none of
    * them in use by another file, and the bytes that remain are where they were. */
  lemma ResizeKeepsApart(was: Fs, now: Fs, id: nat, size: nat, stale: set<Slot>)
    requires CanResize(was, stale, id, size) && Resized(was, now, id, size, FSE_OK)
    ensures Mapped(now.inodes[id]) && now.inodes[id].size == size
    ensures forall k, l :: 0 <= k < l < Wanted(size) ==> now.inodes[id].direct[k] != now.inodes[id].direct[l]
    ensures forall j, k, l :: 0 <= j < MAX_INODES && j != id && Live(was, j) && 0 <= k < Wanted(size) && 0 <= l < INODE_NDIRECT ==>
              (j, l) in stale || now.inodes[id].direct[k] != was.inodes[j].direct[l]
    ensures forall k :: 0 <= k < INODE_NDIRECT && was.inodes[id].direct[k] != -1 ==>
              now.inodes[id].direct[k] == was.inodes[id].direct[k]
  {
    var next, n, e := stale + Beyond(was.inodes[id].direct, id, Wanted(size)), Wanted(size), now.inodes[id].direct;
    ResizeLoose(was, now, id, size, stale);
    assert InodeShape(now.inodes[id]);
    forall k: nat | k < n
      ensures e[k] >= 0 && InUse(now, next, id, k, e[k])
    {
    }
    forall k: nat, l: nat | k < l < n
      ensures e[k] != e[l]
    {
      assert InUse(now, next, id, k, e[k]) && InUse(now, next, id, l, e[l]);
    }
    forall j: nat, k: nat, l: nat | j < MAX_INODES && j != id && Live(was, j) && k < n && l < INODE_NDIRECT && (j, l) !in stale
      ensures e[k] != was.inodes[j].direct[l]
    {
      assert InUse(now, next, id, k, e[k]);
      assert InUse(now, next, j, l, e[k]) <==> e[k] == was.inodes[j].direct[l];
    }
  }
}
