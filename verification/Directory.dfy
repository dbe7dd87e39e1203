/** Directories and links of filesystem/fs.c, on values: a directory is the sequence of its
  * entries. The tree is what the entries "." and ".." and the others make of the inodes. Module
  * Entries says how it is read off the disk.
  */
module Directory {

  /** A name, as the bytes before its terminating zero. */
  type Name = seq<bv8>

  const DOT: Name := [46]
  const DOTS: Name := [46, 46]

  datatype Entry = Entry(name: Name, inode: nat)

  datatype Node = Unused | Regular(nlinks: int) | Dir(nlinks: int, entries: seq<Entry>)

  /** How often f is named in entries, and in all directories below inode n. */
  function Occurs(entries: seq<Entry>, f: nat): nat {
    if entries == [] then 0 else Occurs(entries[1..], f) + if entries[0].inode == f then 1 else 0
  }

  function NodeRefs(node: Node, f: nat): nat {
    if node.Dir? then Occurs(node.entries, f) else 0
  }

  function Refs(nodes: seq<Node>, n: nat, f: nat): nat
    requires n <= |nodes|
  {
    if n == 0 then 0 else Refs(nodes, n - 1, f) + NodeRefs(nodes[n - 1], f)
  }

  /** The number of directory entries that name f. */
  function Links(nodes: seq<Node>, f: nat): nat {
    Refs(nodes, |nodes|, f)
  }

  predicate IsDir(nodes: seq<Node>, d: nat) {
    d < |nodes| && nodes[d].Dir? && |nodes[d].entries| >= 2
  }

  /** The inode that ".." names. */
  function Parent(nodes: seq<Node>, d: nat): nat
    requires IsDir(nodes, d)
  {
    nodes[d].entries[1].inode
  }

  /** c is an entry of d besides "." and "..". */
  ghost predicate Lists(nodes: seq<Node>, d: nat, c: nat) {
    IsDir(nodes, d) && exists k :: 2 <= k < |nodes[d].entries| && nodes[d].entries[k].inode == c
  }

  /** An entry besides "." and "..": it names an inode in use, and if that is a directory, then
    * one of the next depth whose parent is d, and that is named only once. */
  ghost predicate ChildOk(nodes: seq<Node>, depth: seq<nat>, d: nat, k: nat)
    requires IsDir(nodes, d) && 2 <= k < |nodes[d].entries| && |depth| == |nodes|
  {
    var c := nodes[d].entries[k].inode;
    && c < |nodes| && !nodes[c].Unused? && c != d
    && (nodes[c].Dir? ==> IsDir(nodes, c) && Parent(nodes, c) == d && depth[c] == depth[d] + 1)
    && (nodes[c].Dir? ==> forall l :: 2 <= l < |nodes[d].entries| && l != k ==> nodes[d].entries[l].inode != c)
  }

  ghost predicate DirOk(nodes: seq<Node>, depth: seq<nat>, d: nat)
    requires d < |nodes| == |depth| && nodes[d].Dir?
  {
    && IsDir(nodes, d) && nodes[d].entries[0].inode == d
    && IsDir(nodes, Parent(nodes, d))
    && (Parent(nodes, d) != d ==> Lists(nodes, Parent(nodes, d), d) && depth[d] == depth[Parent(nodes, d)] + 1)
    && (forall k :: 2 <= k < |nodes[d].entries| ==> ChildOk(nodes, depth, d, k))
  }

  /** The directories form trees, and a regular file counts the entries that name it. */
  ghost predicate Sound(nodes: seq<Node>, depth: seq<nat>) {
    && |depth| == |nodes|
    && (forall d :: 0 <= d < |nodes| && nodes[d].Dir? ==> DirOk(nodes, depth, d))
    && (forall f :: 0 <= f < |nodes| && nodes[f].Regular? ==> nodes[f].nlinks == Links(nodes, f) > 0)
  }

  /** The chain of parents leads from the directory x to top. */
  ghost predicate Below(nodes: seq<Node>, depth: seq<nat>, x: nat, top: nat)
    requires Sound(nodes, depth) && IsDir(nodes, x)
    decreases depth[x]
  {
    assert DirOk(nodes, depth, x);
    x == top || (Parent(nodes, x) != x && Below(nodes, depth, Parent(nodes, x), top))
  }

  /** The entries without the first one that names id. */
  function Without(entries: seq<Entry>, id: nat): seq<Entry> {
    if entries == [] then []
    else if entries[0].inode == id then entries[1..]
    else [entries[0]] + Without(entries[1..], id)
  }

  /** What remove_directory_entry makes of inode x: dir loses the first entry for id, the
    * directories of the subtree of id are freed, and all others stay as they are. A regular file
    * may be freed. */
  ghost predicate InodeAfter(was: seq<Node>, now: seq<Node>, depth: seq<nat>, dir: nat, id: nat, x: nat)
    requires Sound(was, depth) && |now| == |was| && x < |was| && IsDir(was, dir)
  {
    if x == dir then now[x] == was[dir].(entries := Without(was[dir].entries, id))
    else if was[x].Dir? then
      IsDir(was, x) && now[x] == if id < |was| && was[id].Dir? && Below(was, depth, x, id) then Unused else was[x]
    else !now[x].Dir? && (was[x].Unused? ==> now[x].Unused?)
  }

  /** The effect of remove_directory_entry. The state after it is sound, so what becomes of the
    * regular files and of their link counts follows from the directories. */
  ghost predicate Removed(was: seq<Node>, now: seq<Node>, depth: seq<nat>, dir: nat, id: nat)
    requires Sound(was, depth) && IsDir(was, dir)
  {
    && |now| == |was| && Sound(now, depth)
    && (forall x :: 0 <= x < |was| ==> InodeAfter(was, now, depth, dir, id, x))
  }

  // ---------- Counting entries ----------

  lemma {:induction false} WithoutSplits(entries: seq<Entry>, id: nat, at: nat) returns (k: nat)
    requires at < |entries| && entries[at].inode == id
    ensures k <= at && entries[k].inode == id && forall j :: 0 <= j < k ==> entries[j].inode != id
    ensures Without(entries, id) == entries[..k] + entries[k + 1..]
  {
    if entries[0].inode == id {
      k := 0;
    } else {
      k := WithoutSplits(entries[1..], id, at - 1);
      k := k + 1;
      assert forall j :: 0 < j < k ==> entries[j] == entries[1..][j - 1];
      assert entries[..k] + entries[k + 1..] == [entries[0]] + (entries[1..][..k - 1] + entries[1..][k..]);
    }
  }

  lemma {:induction false} OccursWithout(entries: seq<Entry>, id: nat, at: nat, f: nat)
    requires at < |entries| && entries[at].inode == id
    ensures Occurs(Without(entries, id), f) == Occurs(entries, f) - if f == id then 1 else 0
  {
    if entries[0].inode != id {
      OccursWithout(entries[1..], id, at - 1, f);
      assert Without(entries, id)[1..] == Without(entries[1..], id);
    }
  }

  lemma {:induction false} OccursNamed(entries: seq<Entry>, f: nat)
    ensures Occurs(entries, f) > 0 <==> exists k :: 0 <= k < |entries| && entries[k].inode == f
  {
    if entries != [] {
      OccursNamed(entries[1..], f);
      if exists k :: 0 <= k < |entries| && entries[k].inode == f {
        var k :| 0 <= k < |entries| && entries[k].inode == f;
        if k > 0 {
          assert entries[1..][k - 1].inode == f;
        }
      } 
      if Occurs(entries, f) > 0 && entries[0].inode != f {
        var k :| 0 <= k < |entries[1..]| && entries[1..][k].inode == f;
        assert entries[k + 1].inode == f;
      }
    }
  }

  lemma {:induction false} RefsUpdate(nodes: seq<Node>, n: nat, f: nat, i: nat, v: Node)
    requires n <= |nodes| && i < |nodes|
    ensures Refs(nodes[i := v], n, f) == Refs(nodes, n, f) + if i < n then NodeRefs(v, f) - NodeRefs(nodes[i], f) else 0
  {
    if n > 0 {
      RefsUpdate(nodes, n - 1, f, i, v);
    }
  }

  lemma {:induction false} RefsAtLeast(nodes: seq<Node>, n: nat, f: nat, d: nat)
    requires d < n <= |nodes|
    ensures Refs(nodes, n, f) >= NodeRefs(nodes[d], f)
  {
    if d < n - 1 {
      RefsAtLeast(nodes, n - 1, f, d);
    }
  }

  /** Whatever a directory names has a link. */
  lemma NamedIsLinked(nodes: seq<Node>, d: nat, k: nat, f: nat)
    requires d < |nodes| && nodes[d].Dir? && k < |nodes[d].entries| && nodes[d].entries[k].inode == f
    ensures Links(nodes, f) > 0
  {
    OccursNamed(nodes[d].entries, f);
    RefsAtLeast(nodes, |nodes|, f, d);
  }

  // ---------- Dropping one entry ----------

  /** reduce_links. */
  function Reduced(node: Node): Node {
    if node.Unused? then node
    else if node.nlinks - 1 <= 0 || node.Dir? then Unused
    else Regular(node.nlinks - 1)
  }

  /** The second half of remove_directory_entry. */
  function AfterDrop(nodes: seq<Node>, dir: nat, id: nat): (r: seq<Node>)
    requires IsDir(nodes, dir) && id < |nodes| && id != dir
    ensures |r| == |nodes|
  {
    nodes[id := Reduced(nodes[id])][dir := nodes[dir].(entries := Without(nodes[dir].entries, id))]
  }

  /** The entry for id in dir comes after "." and "..", and Without drops it or one after them. */
  lemma ChildIsDropped(nodes: seq<Node>, depth: seq<nat>, dir: nat, id: nat) returns (k: nat)
    requires Sound(nodes, depth) && Lists(nodes, dir, id)
    ensures id < |nodes| && id != dir && 2 <= k < |nodes[dir].entries| && nodes[dir].entries[k].inode == id
    ensures ChildOk(nodes, depth, dir, k)
    ensures forall j :: 0 <= j < k ==> nodes[dir].entries[j].inode != id
    ensures Without(nodes[dir].entries, id) == nodes[dir].entries[..k] + nodes[dir].entries[k + 1..]
  {
    var entries := nodes[dir].entries;
    var at :| 2 <= at < |entries| && entries[at].inode == id;
    assert DirOk(nodes, depth, dir) && ChildOk(nodes, depth, dir, at);
    assert Parent(nodes, dir) != id;
    k := WithoutSplits(entries, id, at);
  }

  lemma DroppedLinks(nodes: seq<Node>, depth: seq<nat>, dir: nat, id: nat, f: nat)
    requires Sound(nodes, depth) && Lists(nodes, dir, id) && id < |nodes| && id != dir
    requires nodes[id].Dir? ==> |nodes[id].entries| == 2
    requires f < |nodes| && nodes[f].Regular?
    ensures Links(AfterDrop(nodes, dir, id), f) == Links(nodes, f) - if f == id then 1 else 0
  {
    var k := ChildIsDropped(nodes, depth, dir, id);
    var n := |nodes|;
    RefsUpdate(nodes, n, f, id, Reduced(nodes[id]));
    var mid := nodes[id := Reduced(nodes[id])];
    RefsUpdate(mid, n, f, dir, nodes[dir].(entries := Without(nodes[dir].entries, id)));
    OccursWithout(nodes[dir].entries, id, k, f);
    if nodes[id].Dir? {
      assert DirOk(nodes, depth, id);
      OccursNamed(nodes[id].entries, f);
    }
  }

  /** The inode id and dir, in a sound state, such that id can be dropped from dir at once. */
  ghost predicate CanDrop(nodes: seq<Node>, depth: seq<nat>, dir: nat, id: nat) {
    && Sound(nodes, depth) && Lists(nodes, dir, id) && id < |nodes| && id != dir
    && (nodes[id].Dir? ==> |nodes[id].entries| == 2)
  }

  /** Only an inode that lost its last link, or was an empty directory, is freed. */
  lemma DroppedNamed(nodes: seq<Node>, depth: seq<nat>, dir: nat, id: nat, d: nat, k: nat)
    requires CanDrop(nodes, depth, dir, id)
    requires d < |nodes| && d != dir && d != id && nodes[d].Dir? && k < |nodes[d].entries|
    requires nodes[d].entries[k].inode == id
    ensures nodes[id].Regular? && nodes[id].nlinks > 1 && k >= 2
  {
    var at := ChildIsDropped(nodes, depth, dir, id);
    assert DirOk(nodes, depth, d);
    assert k >= 2 ==> ChildOk(nodes, depth, d, k);
    if nodes[id].Dir? {
      assert false;
    }
    DroppedLinks(nodes, depth, dir, id, id);
    NamedIsLinked(AfterDrop(nodes, dir, id), d, k, id);
  }

  lemma DroppedOther(nodes: seq<Node>, depth: seq<nat>, dir: nat, id: nat, d: nat)
    requires CanDrop(nodes, depth, dir, id)
    requires d < |nodes| && d != dir && d != id && nodes[d].Dir?
    ensures DirOk(AfterDrop(nodes, dir, id), depth, d)
  {
    var now := AfterDrop(nodes, dir, id);
    var at := ChildIsDropped(nodes, depth, dir, id);
    assert DirOk(nodes, depth, d);
    var p := Parent(nodes, d);
    assert p != id;
    if p == dir {
      var k :| 2 <= k < |nodes[dir].entries| && nodes[dir].entries[k].inode == d;
      assert now[dir].entries[if k < at then k else k - 1].inode == d;
    }
    forall k | 2 <= k < |nodes[d].entries|
      ensures ChildOk(now, depth, d, k)
    {
      assert ChildOk(nodes, depth, d, k);
      if nodes[d].entries[k].inode == id {
        DroppedNamed(nodes, depth, dir, id, d, k);
      }
    }
  }

  /** Entry k of dir is as good as it was, wherever it stood. */
  lemma DroppedChild(nodes: seq<Node>, depth: seq<nat>, dir: nat, id: nat, at: nat, k: nat)
    requires CanDrop(nodes, depth, dir, id) && 2 <= at < |nodes[dir].entries| && nodes[dir].entries[at].inode == id
    requires Without(nodes[dir].entries, id) == nodes[dir].entries[..at] + nodes[dir].entries[at + 1..]
    requires 2 <= k < |nodes[dir].entries| - 1
    ensures ChildOk(AfterDrop(nodes, dir, id), depth, dir, k)
  {
    var now := AfterDrop(nodes, dir, id);
    var was, entries := nodes[dir].entries, now[dir].entries;
    assert forall l :: 0 <= l < |entries| ==> entries[l] == was[if l < at then l else l + 1];
    var j := if k < at then k else k + 1;
    assert DirOk(nodes, depth, dir) && ChildOk(nodes, depth, dir, j) && ChildOk(nodes, depth, dir, at);
    if was[j].inode == id {
      assert nodes[id].Regular?;
      DroppedLinks(nodes, depth, dir, id, id);
      NamedIsLinked(now, dir, k, id);
    }
    hide Sound, Links, Without;
  }

  lemma DroppedSelf(nodes: seq<Node>, depth: seq<nat>, dir: nat, id: nat)
    requires CanDrop(nodes, depth, dir, id)
    ensures DirOk(AfterDrop(nodes, dir, id), depth, dir)
  {
    var now := AfterDrop(nodes, dir, id);
    var at := ChildIsDropped(nodes, depth, dir, id);
    assert DirOk(nodes, depth, dir);
    var p := Parent(nodes, dir);
    assert p != id && now[p].Dir?;
    if p != dir {
      var l :| 2 <= l < |nodes[p].entries| && nodes[p].entries[l].inode == dir;
      assert now[p].entries[l].inode == dir;
    }
    assert now[dir].entries[0] == nodes[dir].entries[0] && now[dir].entries[1] == nodes[dir].entries[1];
    hide ChildOk, Sound, Without;
    forall k | 2 <= k < |now[dir].entries|
      ensures ChildOk(now, depth, dir, k)
    {
      DroppedChild(nodes, depth, dir, id, at, k);
    }
  }

  /** Dropping one entry keeps the state sound. */
  lemma DroppedSound(nodes: seq<Node>, depth: seq<nat>, dir: nat, id: nat)
    requires CanDrop(nodes, depth, dir, id)
    ensures Sound(AfterDrop(nodes, dir, id), depth)
  {
    var now := AfterDrop(nodes, dir, id);
    forall d | 0 <= d < |now| && now[d].Dir?
      ensures DirOk(now, depth, d)
    {
      if d == dir {
        DroppedSelf(nodes, depth, dir, id);
      } else {
        DroppedOther(nodes, depth, dir, id, d);
      }
    }
    forall f | 0 <= f < |now| && now[f].Regular?
      ensures now[f].nlinks == Links(now, f) > 0
    {
      DroppedLinks(nodes, depth, dir, id, f);
    }
  }

  // ---------- Emptying a directory ----------

  lemma ParentIsDir(nodes: seq<Node>, depth: seq<nat>, x: nat)
    requires Sound(nodes, depth) && IsDir(nodes, x)
    ensures IsDir(nodes, Parent(nodes, x))
    ensures (Parent(nodes, x) != x ==> Lists(nodes, Parent(nodes, x), x) && depth[x] == depth[Parent(nodes, x)] + 1)
  {
    assert DirOk(nodes, depth, x);
  }

  lemma {:induction false} BelowDepth(nodes: seq<Node>, depth: seq<nat>, x: nat, top: nat)
    requires Sound(nodes, depth) && IsDir(nodes, x) && top < |nodes| && Below(nodes, depth, x, top)
    ensures depth[top] <= depth[x] && (x != top ==> depth[top] < depth[x])
    decreases depth[x]
  {
    if x != top {
      ParentIsDir(nodes, depth, x);
      BelowDepth(nodes, depth, Parent(nodes, x), top);
    }
  }

  /** Parents do not change as long as the directories are in use. */
  lemma {:induction false} BelowSame(was: seq<Node>, now: seq<Node>, depth: seq<nat>, x: nat, top: nat)
    requires Sound(was, depth) && Sound(now, depth) && |now| == |was| && IsDir(now, x)
    requires forall y :: IsDir(now, y) ==> IsDir(was, y) && Parent(was, y) == Parent(now, y)
    ensures Below(was, depth, x, top) == Below(now, depth, x, top)
    decreases depth[x]
  {
    ParentIsDir(now, depth, x);
    if x != top && Parent(now, x) != x {
      BelowSame(was, now, depth, Parent(now, x), top);
    }
  }

  /** x is in the subtree of a directory that is one of the entries of id from 2 up to n. */
  ghost predicate Swept(was: seq<Node>, depth: seq<nat>, id: nat, n: nat, x: nat)
    requires Sound(was, depth) && IsDir(was, id) && IsDir(was, x) && n <= |was[id].entries|
  {
    exists k :: 2 <= k < n && Under(was, depth, was[id].entries[k].inode, x)
  }

  ghost predicate Under(was: seq<Node>, depth: seq<nat>, c: nat, x: nat)
    requires Sound(was, depth) && IsDir(was, x)
  {
    IsDir(was, c) && Below(was, depth, x, c)
  }

  /** What is below a directory, besides itself, is below one of its entries. */
  lemma {:induction false} BelowByEntry(was: seq<Node>, depth: seq<nat>, id: nat, x: nat)
    requires Sound(was, depth) && IsDir(was, id) && IsDir(was, x)
    ensures Swept(was, depth, id, |was[id].entries|, x) <==> x != id && Below(was, depth, x, id)
    decreases depth[x]
  {
    var n := |was[id].entries|;
    ParentIsDir(was, depth, x);
    assert DirOk(was, depth, id);
    if Parent(was, x) != x {
      var p := Parent(was, x);
      BelowByEntry(was, depth, id, p);
      if x != id && Below(was, depth, x, id) {
        if p == id {
          var k :| 2 <= k < n && was[id].entries[k].inode == x;
          assert Under(was, depth, was[id].entries[k].inode, x);
        } else {
          var k :| 2 <= k < n && Under(was, depth, was[id].entries[k].inode, p);
          assert Under(was, depth, was[id].entries[k].inode, x);
        }
      }
    }
    if Swept(was, depth, id, n, x) {
      var k :| 2 <= k < n && Under(was, depth, was[id].entries[k].inode, x);
      var c := was[id].entries[k].inode;
      assert ChildOk(was, depth, id, k);
      BelowDepth(was, depth, x, c);
      BelowChild(was, depth, x, c);
    }
  }

  lemma {:induction false} BelowChild(was: seq<Node>, depth: seq<nat>, x: nat, c: nat)
    requires Sound(was, depth) && IsDir(was, x) && IsDir(was, c) && Below(was, depth, x, c) && Parent(was, c) != c
    ensures Below(was, depth, x, Parent(was, c))
    decreases depth[x]
  {
    ParentIsDir(was, depth, x);
    ParentIsDir(was, depth, c);
    if x != c {
      BelowChild(was, depth, Parent(was, x), c);
    }
  }

  /** The first n entries of id were visited: those after "." and ".." are gone, with what was below them. */
  ghost predicate Emptying(was: seq<Node>, now: seq<Node>, depth: seq<nat>, id: nat, n: nat)
    requires Sound(was, depth) && IsDir(was, id) && n <= |was[id].entries|
  {
    var entries := was[id].entries;
    && |now| == |was| && Sound(now, depth)
    && now[id] == was[id].(entries := entries[..2] + entries[if n < 2 then 2 else n..])
    && (forall x :: 0 <= x < |was| && x != id && was[x].Dir? ==>
          IsDir(was, x) && now[x] == if Swept(was, depth, id, n, x) then Unused else was[x])
    && (forall x :: 0 <= x < |was| && !was[x].Dir? ==> !now[x].Dir? && (was[x].Unused? ==> now[x].Unused?))
  }

  lemma EmptyingStart(was: seq<Node>, depth: seq<nat>, id: nat)
    requires Sound(was, depth) && IsDir(was, id)
    ensures Emptying(was, was, depth, id, 0)
  {
    var entries := was[id].entries;
    assert entries[..2] + entries[2..] == entries;
    forall x | 0 <= x < |was| && was[x].Dir?
      ensures IsDir(was, x)
    {
      assert DirOk(was, depth, x);
    }
  }

  lemma {:induction false} BelowTrans(was: seq<Node>, depth: seq<nat>, x: nat, c: nat, top: nat)
    requires Sound(was, depth) && IsDir(was, x) && IsDir(was, c) && Below(was, depth, x, c) && Below(was, depth, c, top)
    ensures Below(was, depth, x, top)
    decreases depth[x]
  {
    if x != c {
      ParentIsDir(was, depth, x);
      BelowTrans(was, depth, Parent(was, x), c, top);
    }
  }

  lemma UnderTrans(was: seq<Node>, depth: seq<nat>, x: nat, c: nat, top: nat)
    requires Sound(was, depth) && IsDir(was, x) && IsDir(was, c) && Under(was, depth, c, x) && Under(was, depth, top, c)
    ensures Under(was, depth, top, x)
  {
    BelowTrans(was, depth, x, c, top);
  }

  lemma EmptyingParents(was: seq<Node>, now: seq<Node>, depth: seq<nat>, id: nat, n: nat)
    requires Sound(was, depth) && IsDir(was, id) && n <= |was[id].entries| && Emptying(was, now, depth, id, n)
    ensures forall y :: IsDir(now, y) ==> IsDir(was, y) && Parent(was, y) == Parent(now, y)
  {
    hide Sound, Swept, Below;
    var left := was[id].entries[..2] + was[id].entries[if n < 2 then 2 else n..];
    assert left[1] == was[id].entries[1];
    forall y: nat | IsDir(now, y)
      ensures IsDir(was, y) && Parent(was, y) == Parent(now, y)
    {
      assert y == id || !was[y].Dir? || now[y] == was[y];
    }
  }

  /** A directory that is left is below c exactly if it was, and c then is still there. */
  lemma UnderNow(was: seq<Node>, now: seq<Node>, depth: seq<nat>, id: nat, n: nat, x: nat, c: nat)
    requires Sound(was, depth) && IsDir(was, id) && n <= |was[id].entries| && Emptying(was, now, depth, id, n)
    requires x < |was| && x != id && was[x].Dir? && IsDir(was, x) && c < |was| && c != id
    requires !Swept(was, depth, id, n, x)
    ensures IsDir(now, x)
    ensures Under(was, depth, c, x) <==> now[c].Dir? && Below(now, depth, x, c)
  {
    EmptyingParents(was, now, depth, id, n);
    BelowSame(was, now, depth, x, c);
    if Under(was, depth, c, x) && Swept(was, depth, id, n, c) {
      var k :| 2 <= k < n && Under(was, depth, was[id].entries[k].inode, c);
      UnderTrans(was, depth, x, c, was[id].entries[k].inode);
    }
    if now[c].Dir? {
      assert DirOk(now, depth, c);
    }
  }

  lemma SweptStep(was: seq<Node>, depth: seq<nat>, id: nat, n: nat, x: nat)
    requires Sound(was, depth) && IsDir(was, id) && 2 <= n < |was[id].entries| && IsDir(was, x)
    ensures Swept(was, depth, id, n + 1, x) <==> Swept(was, depth, id, n, x) || Under(was, depth, was[id].entries[n].inode, x)
  {
    if Under(was, depth, was[id].entries[n].inode, x) {
      assert 2 <= n < n + 1;
    }
  }

  lemma WithoutThird(entries: seq<Entry>, id: nat)
    requires |entries| >= 3 && entries[0].inode != id && entries[1].inode != id && entries[2].inode == id
    ensures Without(entries, id) == entries[..2] + entries[3..]
  {
    var k := WithoutSplits(entries, id, 2);
  }

  /** The entry that is removed next is the first one after "." and "..". */
  lemma EmptyingEntries(was: seq<Node>, now: seq<Node>, depth: seq<nat>, id: nat, n: nat)
    requires Sound(was, depth) && IsDir(was, id) && 2 <= n < |was[id].entries|
    requires Emptying(was, now, depth, id, n)
    ensures Sound(now, depth) && IsDir(now, id) && Lists(now, id, was[id].entries[n].inode)
    ensures Without(now[id].entries, was[id].entries[n].inode) == was[id].entries[..2] + was[id].entries[n + 1..]
    ensures var c := was[id].entries[n].inode; c < |was| && c != id && !was[c].Unused?
  {
    hide Sound, Swept, Without, Emptying;
    EmptyingLeft(was, now, depth, id, n);
    var entries, left := was[id].entries, now[id].entries;
    var c := entries[n].inode;
    assert Lists(was, id, c);
    var k := ChildIsDropped(was, depth, id, c);
    ThirdIs(entries, left, n);
    assert Lists(now, id, c);
    WithoutThird(left, c);
  }

  lemma ThirdIs(entries: seq<Entry>, left: seq<Entry>, n: nat)
    requires 2 <= n < |entries| && left == entries[..2] + entries[n..]
    ensures |left| >= 3 && left[0] == entries[0] && left[1] == entries[1] && left[2] == entries[n]
    ensures left[..2] + left[3..] == entries[..2] + entries[n + 1..]
  {
  }

  lemma EmptyingLeft(was: seq<Node>, now: seq<Node>, depth: seq<nat>, id: nat, n: nat)
    requires Sound(was, depth) && IsDir(was, id) && 2 <= n <= |was[id].entries| && Emptying(was, now, depth, id, n)
    ensures Sound(now, depth) && IsDir(now, id) && now[id].entries == was[id].entries[..2] + was[id].entries[n..]
  {
  }

  lemma EmptyingStepAt(was: seq<Node>, now: seq<Node>, next: seq<Node>, depth: seq<nat>, id: nat, n: nat, c: nat, x: nat)
    requires Sound(was, depth) && IsDir(was, id) && 2 <= n < |was[id].entries| && c == was[id].entries[n].inode
    requires Emptying(was, now, depth, id, n) && IsDir(now, id) && c < |was| && c != id && |next| == |now|
    requires x < |was| && x != id && was[x].Dir? && InodeAfter(now, next, depth, id, c, x)
    ensures IsDir(was, x) && next[x] == if Swept(was, depth, id, n + 1, x) then Unused else was[x]
  {
    hide Sound, Swept, Under, Below, Without;
    SweptStep(was, depth, id, n, x);
    if !Swept(was, depth, id, n, x) {
      UnderNow(was, now, depth, id, n, x, c);
    }
  }

  /** Removing the next entry empties the directory by one more. */
  lemma EmptyingStep(was: seq<Node>, now: seq<Node>, next: seq<Node>, depth: seq<nat>, id: nat, n: nat)
    requires Sound(was, depth) && IsDir(was, id) && 2 <= n < |was[id].entries|
    requires Emptying(was, now, depth, id, n) && IsDir(now, id)
    requires Removed(now, next, depth, id, was[id].entries[n].inode)
    ensures Emptying(was, next, depth, id, n + 1)
  {
    hide Sound, Swept, Below, Without;
    var c := was[id].entries[n].inode;
    EmptyingEntries(was, now, depth, id, n);
    assert InodeAfter(now, next, depth, id, c, id);
    forall x | 0 <= x < |was| && x != id && was[x].Dir?
      ensures IsDir(was, x) && next[x] == if Swept(was, depth, id, n + 1, x) then Unused else was[x]
    {
      assert InodeAfter(now, next, depth, id, c, x);
      EmptyingStepAt(was, now, next, depth, id, n, c, x);
    }
    forall x | 0 <= x < |was| && !was[x].Dir?
      ensures !next[x].Dir? && (was[x].Unused? ==> next[x].Unused?)
    {
      assert InodeAfter(now, next, depth, id, c, x);
    }
  }

  // ---------- The whole removal ----------

  /** The directory in which the removed one is listed is not below it. */
  lemma NotBelowChild(was: seq<Node>, depth: seq<nat>, dir: nat, id: nat)
    requires Sound(was, depth) && Lists(was, dir, id) && IsDir(was, id)
    ensures dir != id && !Below(was, depth, dir, id) && !Swept(was, depth, id, |was[id].entries|, dir)
  {
    var k := ChildIsDropped(was, depth, dir, id);
    BelowByEntry(was, depth, id, dir);
    if Below(was, depth, dir, id) {
      BelowDepth(was, depth, dir, id);
    }
  }

  lemma EmptyCanDrop(was: seq<Node>, now: seq<Node>, depth: seq<nat>, dir: nat, id: nat)
    requires Sound(was, depth) && Lists(was, dir, id) && IsDir(was, id)
    requires Emptying(was, now, depth, id, |was[id].entries|)
    ensures CanDrop(now, depth, dir, id) && now[dir] == was[dir]
  {
    NotBelowChild(was, depth, dir, id);
    hide Sound, Below, Swept;
    var k :| 2 <= k < |was[dir].entries| && was[dir].entries[k].inode == id;
    assert now[dir].entries[k].inode == id;
  }

  /** When the directory id is empty, dropping it completes the removal. */
  lemma RemoveDone(was: seq<Node>, now: seq<Node>, depth: seq<nat>, dir: nat, id: nat)
    requires Sound(was, depth) && Lists(was, dir, id) && IsDir(was, id)
    requires Emptying(was, now, depth, id, |was[id].entries|)
    ensures CanDrop(now, depth, dir, id) && Removed(was, AfterDrop(now, dir, id), depth, dir, id)
  {
    EmptyCanDrop(was, now, depth, dir, id);
    EmptyingLength(was, now, depth, id);
    DroppedSound(now, depth, dir, id);
    hide Sound, CanDrop, Emptying, InodeAfter, AfterDrop;
    forall x | 0 <= x < |was|
      ensures InodeAfter(was, AfterDrop(now, dir, id), depth, dir, id, x)
    {
      RemoveDoneAt(was, now, depth, dir, id, x);
    }
  }

  lemma EmptyingLength(was: seq<Node>, now: seq<Node>, depth: seq<nat>, id: nat)
    requires Sound(was, depth) && IsDir(was, id) && Emptying(was, now, depth, id, |was[id].entries|)
    ensures |now| == |was|
  {
  }

  lemma RemoveDoneAt(was: seq<Node>, now: seq<Node>, depth: seq<nat>, dir: nat, id: nat, x: nat)
    requires Sound(was, depth) && Lists(was, dir, id) && IsDir(was, id) && x < |was| && |now| == |was|
    requires Emptying(was, now, depth, id, |was[id].entries|) && CanDrop(now, depth, dir, id) && now[dir] == was[dir]
    ensures InodeAfter(was, AfterDrop(now, dir, id), depth, dir, id, x)
  {
    hide Sound, Below, Swept, Without;
    if was[x].Dir? {
      DirLength(was, depth, x);
      BelowByEntry(was, depth, id, x);
      BelowSelf(was, depth, id);
    }
  }

  lemma DirLength(nodes: seq<Node>, depth: seq<nat>, x: nat)
    requires Sound(nodes, depth) && x < |nodes| && nodes[x].Dir?
    ensures IsDir(nodes, x)
  {
    assert DirOk(nodes, depth, x);
  }

  lemma BelowSelf(nodes: seq<Node>, depth: seq<nat>, x: nat)
    requires Sound(nodes, depth) && IsDir(nodes, x)
    ensures Below(nodes, depth, x, x)
  {
  }

  lemma RemoveFile(was: seq<Node>, depth: seq<nat>, dir: nat, id: nat)
    requires Sound(was, depth) && Lists(was, dir, id) && id < |was| && was[id].Regular?
    ensures CanDrop(was, depth, dir, id) && Removed(was, AfterDrop(was, dir, id), depth, dir, id)
  {
    var k := ChildIsDropped(was, depth, dir, id);
    DroppedSound(was, depth, dir, id);
    hide Sound, Below, Without, Refs;
    forall x | 0 <= x < |was|
      ensures InodeAfter(was, AfterDrop(was, dir, id), depth, dir, id, x)
    {
      if was[x].Dir? {
        DirLength(was, depth, x);
      }
    }
  }

  // ---------- What becomes of the files ----------

  lemma {:induction false} LinkedIsNamed(nodes: seq<Node>, n: nat, f: nat) returns (d: nat, k: nat)
    requires n <= |nodes| && Refs(nodes, n, f) > 0
    ensures d < n && nodes[d].Dir? && k < |nodes[d].entries| && nodes[d].entries[k].inode == f
  {
    if NodeRefs(nodes[n - 1], f) > 0 {
      OccursNamed(nodes[n - 1].entries, f);
      d := n - 1;
      k :| 0 <= k < |nodes[d].entries| && nodes[d].entries[k].inode == f;
    } else {
      d, k := LinkedIsNamed(nodes, n - 1, f);
    }
  }

  /** Directories name inodes in use only. */
  lemma NamedIsUsed(nodes: seq<Node>, depth: seq<nat>, d: nat, k: nat)
    requires Sound(nodes, depth) && d < |nodes| && nodes[d].Dir? && k < |nodes[d].entries|
    ensures nodes[d].entries[k].inode < |nodes| && !nodes[nodes[d].entries[k].inode].Unused?
  {
    assert DirOk(nodes, depth, d);
    if k >= 2 {
      assert ChildOk(nodes, depth, d, k);
    }
  }

  lemma UnusedHasNoLinks(nodes: seq<Node>, depth: seq<nat>, f: nat)
    requires Sound(nodes, depth) && f < |nodes| && nodes[f].Unused?
    ensures Links(nodes, f) == 0
  {
    if Links(nodes, f) > 0 {
      var d, k := LinkedIsNamed(nodes, |nodes|, f);
      NamedIsUsed(nodes, depth, d, k);
    }
  }

  /** The entries that name f in the directories of the subtree of id, counted below inode n. */
  ghost function SubtreeRefs(nodes: seq<Node>, depth: seq<nat>, id: nat, n: nat, f: nat): nat
    requires Sound(nodes, depth) && n <= |nodes|
  {
    if n == 0 then 0
    else SubtreeRefs(nodes, depth, id, n - 1, f) +
         if IsDir(nodes, n - 1) && id < |nodes| && nodes[id].Dir? && Below(nodes, depth, n - 1, id) then NodeRefs(nodes[n - 1], f) else 0
  }

  lemma {:induction false} RemovedRefs(was: seq<Node>, now: seq<Node>, depth: seq<nat>, dir: nat, id: nat, n: nat, f: nat)
    requires Sound(was, depth) && Lists(was, dir, id) && Removed(was, now, depth, dir, id) && n <= |was|
    ensures Refs(now, n, f) + SubtreeRefs(was, depth, id, n, f) + (if dir < n && f == id then 1 else 0) == Refs(was, n, f)
  {
    hide Sound, Below, Without;
    if n > 0 {
      RemovedRefs(was, now, depth, dir, id, n - 1, f);
      var k := ChildIsDropped(was, depth, dir, id);
      assert InodeAfter(was, now, depth, dir, id, n - 1);
      if dir == n - 1 {
        OccursWithout(was[dir].entries, id, k, f);
        if was[id].Dir? {
          NotBelowChild(was, depth, dir, id);
        }
      }
    }
  }

  /** A regular file keeps the links that were not in the removed subtree, nor the removed entry,
    * and it is freed exactly when there were no others. */
  lemma RemovedFile(was: seq<Node>, now: seq<Node>, depth: seq<nat>, dir: nat, id: nat, f: nat)
    requires Sound(was, depth) && Lists(was, dir, id) && Removed(was, now, depth, dir, id)
    requires f < |was| && was[f].Regular?
    ensures var lost := SubtreeRefs(was, depth, id, |was|, f) + if f == id then 1 else 0;
            && (now[f].Unused? <==> lost == Links(was, f))
            && (!now[f].Unused? ==> now[f] == Regular(was[f].nlinks - lost))
  {
    hide Below, SubtreeRefs, Without;
    RemovedRefs(was, now, depth, dir, id, |was|, f);
    assert InodeAfter(was, now, depth, dir, id, f);
    if now[f].Unused? {
      UnusedHasNoLinks(now, depth, f);
    }
  }

  // ---------- Adding an entry ----------

  lemma {:induction false} OccursAppend(entries: seq<Entry>, e: Entry, f: nat)
    ensures Occurs(entries + [e], f) == Occurs(entries, f) + if e.inode == f then 1 else 0
  {
    if entries == [] {
      assert [e][1..] == [];
    } else {
      assert (entries + [e])[1..] == entries[1..] + [e];
      OccursAppend(entries[1..], e, f);
    }
  }

  /** The directory with one more entry at its end. */
  function Appended(node: Node, e: Entry): Node
    requires node.Dir?
  {
    node.(entries := node.entries + [e])
  }

  /** create_directory_entry for a regular file that is new or has links already. */
  function Linked(nodes: seq<Node>, dir: nat, id: nat, name: Name): seq<Node>
    requires IsDir(nodes, dir) && id < |nodes| && !nodes[id].Dir?
  {
    var n := if nodes[id].Regular? then nodes[id].nlinks + 1 else 1;
    nodes[id := Regular(n)][dir := Appended(nodes[dir], Entry(name, id))]
  }

  lemma LinkedLinks(nodes: seq<Node>, dir: nat, id: nat, name: Name, f: nat)
    requires IsDir(nodes, dir) && id < |nodes| && !nodes[id].Dir?
    ensures Links(Linked(nodes, dir, id, name), f) == Links(nodes, f) + if f == id then 1 else 0
  {
    var n := |nodes|;
    var mid := nodes[id := Linked(nodes, dir, id, name)[id]];
    RefsUpdate(nodes, n, f, id, mid[id]);
    RefsUpdate(mid, n, f, dir, Appended(nodes[dir], Entry(name, id)));
    OccursAppend(nodes[dir].entries, Entry(name, id), f);
  }

  lemma LinkedChild(nodes: seq<Node>, depth: seq<nat>, dir: nat, id: nat, name: Name, d: nat, k: nat)
    requires Sound(nodes, depth) && IsDir(nodes, dir) && id < |nodes| && !nodes[id].Dir? && IsDir(nodes, d)
    requires 2 <= k < |nodes[d].entries| + if d == dir then 1 else 0
    ensures |depth| == |nodes| && ChildOk(Linked(nodes, dir, id, name), depth, d, k)
  {
    hide Sound;
    SoundLength(nodes, depth);
    var now := Linked(nodes, dir, id, name);
    assert forall l :: 0 <= l < |nodes[d].entries| ==> now[d].entries[l] == nodes[d].entries[l];
    assert now[dir].entries[1] == nodes[dir].entries[1];
    if k < |nodes[d].entries| {
      ChildIsUsed(nodes, depth, d, k);
    }
  }

  lemma LinkedDir(nodes: seq<Node>, depth: seq<nat>, dir: nat, id: nat, name: Name, d: nat)
    requires Sound(nodes, depth) && IsDir(nodes, dir) && id < |nodes| && !nodes[id].Dir? && d < |nodes| && nodes[d].Dir?
    ensures DirOk(Linked(nodes, dir, id, name), depth, d)
  {
    hide Sound, ChildOk;
    var now := Linked(nodes, dir, id, name);
    DirIsOk(nodes, depth, d);
    var p := Parent(nodes, d);
    assert now[d].entries[0] == nodes[d].entries[0] && now[d].entries[1] == nodes[d].entries[1];
    if p != d {
      var k :| 2 <= k < |nodes[p].entries| && nodes[p].entries[k].inode == d;
      assert now[p].entries[k].inode == d;
    }
    forall k | 2 <= k < |now[d].entries|
      ensures ChildOk(now, depth, d, k)
    {
      LinkedChild(nodes, depth, dir, id, name, d, k);
    }
  }

  /** A new link to a file is counted, and nothing else changes. */
  lemma LinkedSound(nodes: seq<Node>, depth: seq<nat>, dir: nat, id: nat, name: Name)
    requires Sound(nodes, depth) && IsDir(nodes, dir) && id < |nodes| && !nodes[id].Dir?
    ensures Sound(Linked(nodes, dir, id, name), depth)
  {
    var now := Linked(nodes, dir, id, name);
    forall d | 0 <= d < |now| && now[d].Dir?
      ensures DirOk(now, depth, d)
    {
      LinkedDir(nodes, depth, dir, id, name, d);
    }
    if nodes[id].Unused? {
      UnusedHasNoLinks(nodes, depth, id);
    }
    forall f | 0 <= f < |now| && now[f].Regular?
      ensures now[f].nlinks == Links(now, f) > 0
    {
      LinkedLinks(nodes, dir, id, name, f);
    }
  }

  /** create_directory for a new inode d, and the entry for it in dir. */
  function WithDirectory(nodes: seq<Node>, dir: nat, d: nat, name: Name): seq<Node>
    requires IsDir(nodes, dir) && d < |nodes| && nodes[d].Unused?
  {
    var node := Appended(nodes[dir], Entry(name, d));
    nodes[d := Dir(2, [Entry(DOT, d), Entry(DOTS, dir)])][dir := node.(nlinks := node.nlinks + 1)]
  }

  lemma WithDirectoryLinks(nodes: seq<Node>, depth: seq<nat>, dir: nat, d: nat, name: Name, f: nat)
    requires Sound(nodes, depth) && IsDir(nodes, dir) && d < |nodes| && nodes[d].Unused? && f < |nodes|
    requires nodes[f].Regular?
    ensures Links(WithDirectory(nodes, dir, d, name), f) == Links(nodes, f)
  {
    var n, now := |nodes|, WithDirectory(nodes, dir, d, name);
    var mid := nodes[d := now[d]];
    RefsUpdate(nodes, n, f, d, now[d]);
    RefsUpdate(mid, n, f, dir, now[dir]);
    OccursAppend(nodes[dir].entries, Entry(name, d), f);
    OccursNamed(now[d].entries, f);
  }

  lemma SoundLength(nodes: seq<Node>, depth: seq<nat>)
    requires Sound(nodes, depth)
    ensures |depth| == |nodes|
  {
  }

  lemma DirIsOk(nodes: seq<Node>, depth: seq<nat>, d: nat)
    requires Sound(nodes, depth) && d < |nodes| && nodes[d].Dir?
    ensures |depth| == |nodes| && DirOk(nodes, depth, d)
  {
  }

  lemma ChildIsUsed(nodes: seq<Node>, depth: seq<nat>, x: nat, l: nat)
    requires Sound(nodes, depth) && IsDir(nodes, x) && 2 <= l < |nodes[x].entries|
    ensures |depth| == |nodes| && ChildOk(nodes, depth, x, l)
  {
    assert DirOk(nodes, depth, x);
  }

  lemma WithDirectoryChild(nodes: seq<Node>, depth: seq<nat>, dir: nat, d: nat, name: Name, x: nat, k: nat)
    requires Sound(nodes, depth) && IsDir(nodes, dir) && d < |nodes| && nodes[d].Unused? && IsDir(nodes, x)
    requires 2 <= k < |nodes[x].entries| + if x == dir then 1 else 0
    ensures k < |WithDirectory(nodes, dir, d, name)[x].entries|
    ensures ChildOk(WithDirectory(nodes, dir, d, name), depth[d := depth[dir] + 1], x, k)
  {
    hide Sound;
    SoundLength(nodes, depth);
    var now := WithDirectory(nodes, dir, d, name);
    forall l | 2 <= l < |nodes[x].entries|
      ensures nodes[x].entries[l].inode != d
    {
      ChildIsUsed(nodes, depth, x, l);
    }
    assert forall l :: 0 <= l < |nodes[x].entries| ==> now[x].entries[l] == nodes[x].entries[l];
    assert now[dir].entries[1] == nodes[dir].entries[1];
    if k < |nodes[x].entries| {
      ChildIsUsed(nodes, depth, x, k);
      assert nodes[x].entries[k].inode != d;
    }
  }

  lemma WithDirectoryDir(nodes: seq<Node>, depth: seq<nat>, dir: nat, d: nat, name: Name, x: nat)
    requires Sound(nodes, depth) && IsDir(nodes, dir) && d < |nodes| && nodes[d].Unused? && x < |nodes| && nodes[x].Dir?
    ensures DirOk(WithDirectory(nodes, dir, d, name), depth[d := depth[dir] + 1], x)
  {
    hide Sound, ChildOk;
    SoundLength(nodes, depth);
    var now, deep := WithDirectory(nodes, dir, d, name), depth[d := depth[dir] + 1];
    DirIsOk(nodes, depth, x);
    var p := Parent(nodes, x);
    assert now[x].entries[0] == nodes[x].entries[0] && now[x].entries[1] == nodes[x].entries[1];
    if p != x {
      var k :| 2 <= k < |nodes[p].entries| && nodes[p].entries[k].inode == x;
      assert now[p].entries[k].inode == x;
    }
    forall k | 2 <= k < |now[x].entries|
      ensures ChildOk(now, deep, x, k)
    {
      WithDirectoryChild(nodes, depth, dir, d, name, x, k);
    }
  }

  lemma WithDirectorySound(nodes: seq<Node>, depth: seq<nat>, dir: nat, d: nat, name: Name)
    requires Sound(nodes, depth) && IsDir(nodes, dir) && d < |nodes| && nodes[d].Unused?
    ensures |depth| == |nodes| && Sound(WithDirectory(nodes, dir, d, name), depth[d := depth[dir] + 1])
  {
    var now, deep := WithDirectory(nodes, dir, d, name), depth[d := depth[dir] + 1];
    forall x | 0 <= x < |now| && now[x].Dir?
      ensures DirOk(now, deep, x)
    {
      if x == d {
        assert now[dir].entries[|nodes[dir].entries|].inode == d;
        assert Lists(now, dir, d);
      } else {
        WithDirectoryDir(nodes, depth, dir, d, name, x);
      }
    }
    forall f | 0 <= f < |now| && now[f].Regular?
      ensures now[f].nlinks == Links(now, f) > 0
    {
      WithDirectoryLinks(nodes, depth, dir, d, name, f);
    }
  }

  lemma CanDropFacts(nodes: seq<Node>, depth: seq<nat>, dir: nat, id: nat)
    requires CanDrop(nodes, depth, dir, id)
    ensures !nodes[id].Unused? && IsDir(nodes, dir) && exists k :: 0 <= k < |nodes[dir].entries| && nodes[dir].entries[k].inode == id
  {
    var k := ChildIsDropped(nodes, depth, dir, id);
  }

  /** Only "." and ".." are skipped. */
  lemma EmptyingSkip(was: seq<Node>, now: seq<Node>, depth: seq<nat>, dir: nat, id: nat, n: nat)
    requires Sound(was, depth) && IsDir(was, id) && IsDir(was, dir) && Parent(was, id) == dir && dir != id
    requires n < |was[id].entries| && Emptying(was, now, depth, id, n)
    requires was[id].entries[n].inode == dir || was[id].entries[n].inode == id
    ensures n < 2 && Emptying(was, now, depth, id, n + 1)
  {
    hide Below, Emptying;
    SkipsDots(was, depth, dir, id, n);
    EmptyingDots(was, now, depth, id, n);
  }

  lemma SkipsDots(was: seq<Node>, depth: seq<nat>, dir: nat, id: nat, n: nat)
    requires Sound(was, depth) && IsDir(was, id) && IsDir(was, dir) && Parent(was, id) == dir && dir != id
    requires n < |was[id].entries| && (was[id].entries[n].inode == dir || was[id].entries[n].inode == id)
    ensures n < 2
  {
    assert DirOk(was, depth, id);
    assert n >= 2 ==> ChildOk(was, depth, id, n);
  }

  lemma EmptyingDots(was: seq<Node>, now: seq<Node>, depth: seq<nat>, id: nat, n: nat)
    requires Sound(was, depth) && IsDir(was, id) && n < 2 && Emptying(was, now, depth, id, n)
    ensures Emptying(was, now, depth, id, n + 1)
  {
    hide Sound, Below, Under;
  }
}
