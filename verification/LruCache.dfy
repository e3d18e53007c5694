// The inode cache as the source has it: a doubly linked list between two sentinels whose nodes
// point to inodes that the file system changes in place (project_4/cache.c, inode_utilities.h).

module LruCache {
  import opened Common
  import opened DataStructures
  import Spec = CacheSpec
  import opened CacheProof

  // struct fs_inode in memory.
  class FsInode {
    var isvalid: bool
    var size: int
    var direct: Direct
    var indirect: int
    ghost var live: bool // not yet freed

    ghost function Value(): Inode
      reads this
    {
      Inode(isvalid, size, direct, indirect)
    }

    constructor (n: Inode)
      ensures Value() == n && live
    {
      isvalid, size, direct, indirect, live := n.isvalid, n.size, n.direct, n.indirect, true;
    }
  }

  class Node {
    var next: Node?
    var prev: Node?
    var inumber: int
    var inode: FsInode?
    var isDirty: bool

    constructor (inumber: int, inode: FsInode?, isDirty: bool)
      ensures this.inumber == inumber && this.inode == inode && this.isDirty == isDirty
      ensures next == null && prev == null
    {
      this.inumber, this.inode, this.isDirty := inumber, inode, isDirty;
      next, prev := null, null;
    }
  }

  method InodeLoad(disk: array<Block>, numinodes: int, i: nat) returns (r: Option<Inode>)
    requires InodeRegion(disk[..], numinodes)
    ensures r == Spec.InodeLoad(disk[..], numinodes, i)
    ensures if i < 128 * (numinodes / 128 - 1)
      then 1 + i / 128 < disk.Length && disk[1 + i / 128].InodeBlock? && r == Some(disk[1 + i / 128].inodes[i % 128])
      else r == None
  {
    var b := 1 + i / INODES_PER_BLOCK;
    if numinodes == -1 || b >= numinodes / INODES_PER_BLOCK { return None; }
    assert IsInodeBlock(disk[..], b);
    var block := disk[b];
    return Some(block.inodes[i % INODES_PER_BLOCK]);
  }

  method InodeSave(disk: array<Block>, numinodes: int, i: nat, inode: FsInode) returns (res: bool)
    requires InodeRegion(disk[..], numinodes)
    modifies disk
    ensures res <==> i < 128 * (numinodes / 128 - 1)
    ensures disk[..] == Spec.InodeSave(old(disk[..]), numinodes, i, inode.Value())
    ensures if res
      then 1 + i / 128 < disk.Length
        && disk[..] == old(disk[..])[1 + i / 128 := InodeBlock(InodesOf(old(disk[..]), 1 + i / 128)[i % 128 := inode.Value()])]
      else disk[..] == old(disk[..])
    ensures InodeRegion(disk[..], numinodes)
  {
    var b := 1 + i / INODES_PER_BLOCK;
    if numinodes == -1 || b >= numinodes / INODES_PER_BLOCK { return false; }
    assert IsInodeBlock(disk[..], b);
    SaveFrame(disk[..], numinodes, i, inode.Value());
    var block := disk[b];
    var n := Inode(inode.isvalid, inode.size, inode.direct, inode.indirect);
    disk[b] := InodeBlock(block.inodes[i % INODES_PER_BLOCK := n]);
    return true;
  }

  class Cache {
    var capacity: int
    var currentSize: int
    var head: Node
    var tail: Node
    ghost var chain: seq<Node> // head, the list nodes, tail
    ghost var entries: seq<Spec.Entry>
    ghost var repr: set<object>

    // The list structure: next and prev agree with the order of chain.
    ghost predicate Linked()
      reads this`chain, this`head, this`tail, chain`next, chain`prev, chain`inumber
    {
      && |chain| >= 2 && chain[0] == head && chain[|chain| - 1] == tail
      && (forall a, b :: 0 <= a < b < |chain| ==> chain[a] != chain[b])
      && (forall k :: 0 <= k < |chain| - 1 ==> chain[k].next == chain[k + 1])
      && (forall k :: 1 <= k < |chain| ==> chain[k].prev == chain[k - 1])
      && head.prev == null && tail.next == null
      && head.inumber == -1 && tail.inumber == -1
    }

    // Node n shows entry e; its inode may be out of step while the file system is changing it.
    static ghost predicate Shows(n: Node, e: Spec.Entry, inStep: bool)
      reads n`inode, n`inumber, n`isDirty, n.inode
    {
      && n.inode != null && n.inode.live
      && n.inumber == e.inumber >= 0 && n.isDirty == e.dirty
      && (inStep ==> n.inode.Value() == e.inode)
    }

    static ghost predicate Contents(chain: seq<Node>, entries: seq<Spec.Entry>, skip: int)
      reads chain`inode, chain`inumber, chain`isDirty, set k | 1 <= k < |chain| - 1 :: chain[k].inode
    {
      && |chain| == |entries| + 2
      && (forall k :: 0 <= k < |entries| ==> Shows(chain[k + 1], entries[k], k != skip))
      && (forall a, b :: 1 <= a < b <= |entries| ==> chain[a].inode != chain[b].inode)
    }

    // The footprint holds the list, the sentinels and the inodes.
    static ghost predicate Owns(repr: set<object>, chain: seq<Node>)
      reads chain`inode
    {
      && (forall k :: 0 <= k < |chain| ==> chain[k] in repr)
      && (forall k :: 1 <= k < |chain| - 1 ==> chain[k].inode == null || chain[k].inode in repr)
    }

    ghost predicate ValidBut(skip: int)
      reads this`chain, this`head, this`tail, this`entries, this`repr, chain
      reads set k | 1 <= k < |chain| - 1 :: chain[k].inode
    {
      this in repr && Owns(repr, chain) && Linked() && Contents(chain, entries, skip)
    }

    ghost predicate Valid()
      reads this`chain, this`head, this`tail, this`entries, this`repr, chain
      reads set k | 1 <= k < |chain| - 1 :: chain[k].inode
    {
      ValidBut(-1)
    }

    ghost function Model(): Spec.Cache
      reads this
    {
      Spec.Cache(capacity, currentSize, entries)
    }

    constructor (capacity: int)
      ensures Valid() && fresh(repr) && Model() == Spec.Cache(capacity, 0, [])
    {
      this.capacity, currentSize := capacity, 0;
      var h := new Node(-1, null, false);
      var t := new Node(-1, null, false);
      head, tail := h, t;
      chain, entries := [h, t], [];
      repr := {this, h, t};
      new;
      head.next, tail.prev := tail, head;
    }

    // find_node_with_inumber from the head; k is the position found.
    method FindNode(i: nat, ghost skip: int) returns (node: Node?, ghost k: nat)
      requires ValidBut(skip)
      ensures k == Spec.Find(entries, i)
      ensures k < |entries| ==> node == chain[k + 1]
      ensures node == null <==> k == |entries|
    {
      node := head;
      ghost var j := 0;
      while node != null
        invariant 0 <= j <= |chain|
        invariant j < |chain| ==> node == chain[j]
        invariant j == |chain| ==> node == null
        invariant forall x :: 0 <= x < j ==> chain[x].inumber != i
        decreases |chain| - j
      {
        if node.inumber == i {
          FoundAt(j, i, skip);
          k := j - 1;
          return;
        }
        node := node.next;
        j := j + 1;
      }
      k := |entries|;
      NotFound(i, skip);
    }

    lemma Inumbers(skip: int)
      requires ValidBut(skip)
      ensures forall k :: 0 <= k < |entries| ==> chain[k + 1].inumber == entries[k].inumber
    {
      forall k | 0 <= k < |entries| ensures chain[k + 1].inumber == entries[k].inumber {
        assert Shows(chain[k + 1], entries[k], k != skip);
      }
    }

    lemma FoundAt(j: nat, i: nat, skip: int)
      requires ValidBut(skip) && j < |chain| && chain[j].inumber == i
      requires forall x :: 0 <= x < j ==> chain[x].inumber != i
      ensures 1 <= j <= |entries| && Spec.Find(entries, i) == j - 1
    {
      Inumbers(skip);
      assert entries[j - 1].inumber == i;
    }

    lemma NotFound(i: nat, skip: int)
      requires ValidBut(skip) && forall x :: 0 <= x < |chain| ==> chain[x].inumber != i
      ensures Spec.Find(entries, i) == |entries|
    {
      Inumbers(skip);
    }

    // The pointer part of remove_node.
    method Unlink(ele: Node, ghost k: nat)
      requires Linked() && 1 <= k < |chain| - 1 && ele == chain[k]
      modifies this`chain, chain`next, chain`prev
      ensures Linked() && chain == old(chain[..k] + chain[k + 1..])
    {
      assert ele.prev == chain[k - 1] && ele.next == chain[k + 1];
      ele.prev.next := ele.next;
      ele.next.prev := ele.prev;
      chain := chain[..k] + chain[k + 1..];
      assert forall a :: 0 <= a < |chain| ==> chain[a] == old(chain)[if a < k then a else a + 1];
    }

    // insert_ele_in_the_end.
    method InsertAtEnd(ele: Node)
      requires Linked() && ele !in chain
      modifies this`chain, chain`next, chain`prev, ele`next, ele`prev
      ensures Linked() && chain == old(chain[..|chain| - 1]) + [ele, tail]
    {
      ghost var m := |chain| - 1;
      assert tail.prev == chain[m].prev == chain[m - 1];
      ele.prev := tail.prev;
      ele.next := tail;
      tail.prev.next := ele;
      tail.prev := ele;
      chain := chain[..m] + [ele, tail];
      assert forall a :: 0 <= a < m ==> chain[a] == old(chain)[a];
    }

    static lemma ContentsRemove(c: seq<Node>, es: seq<Spec.Entry>, k: nat)
      requires Contents(c, es, -1) && k < |es|
      ensures Contents(c[..k + 1] + c[k + 2..], Without(es, k), -1)
    {
      var c', es' := c[..k + 1] + c[k + 2..], Without(es, k);
      forall a | 0 <= a < |es'| ensures Shows(c'[a + 1], es'[a], true) {
        assert Shows(c[(if a < k then a else a + 1) + 1], es[if a < k then a else a + 1], true);
      }
    }

    static lemma ContentsAppend(c: seq<Node>, es: seq<Spec.Entry>, ele: Node, e: Spec.Entry)
      requires Contents(c, es, -1) && Shows(ele, e, true)
      requires forall k :: 1 <= k <= |es| ==> c[k].inode != ele.inode
      ensures Contents(c[..|c| - 1] + [ele, c[|c| - 1]], es + [e], -1)
    {
      var c', es' := c[..|c| - 1] + [ele, c[|c| - 1]], es + [e];
      forall a | 0 <= a < |es'| ensures Shows(c'[a + 1], es'[a], true) {
        if a < |es| { assert Shows(c[a + 1], es[a], true); }
      }
    }

    lemma ShownAt(k: nat)
      requires Valid() && k < |entries|
      ensures |chain| == |entries| + 2 && Linked()
      ensures var n, e := chain[k + 1], entries[k];
        && Shows(n, e, true)
        && n.inode != null && n.inode.live && n.inode.Value() == e.inode && n.inode in repr
        && n in repr && n.isDirty == e.dirty && n.inumber == e.inumber >= 0
    {
      assert Shows(chain[k + 1], entries[k], true);
    }

    static lemma OwnsRemove(repr: set<object>, c: seq<Node>, k: nat)
      requires Owns(repr, c) && k < |c|
      ensures 1 <= k < |c| - 1 ==> Owns(repr, c[..k] + c[k + 1..])
    {
    }

    // A node and its inode occur once in the list.
    lemma OnlyAt(k: nat)
      requires Valid() && k < |entries|
      ensures var c, n := chain[..k + 1] + chain[k + 2..], chain[k + 1];
        n !in c && forall a :: 1 <= a < |c| - 1 ==> c[a].inode != n.inode
    {
    }

    // The pointer part of remove_node, with the entry it takes out of the list.
    method UnlinkEntry(ele: Node, ghost k: nat)
      requires Valid() && k < |entries| && ele == chain[k + 1]
      modifies this`chain, this`entries, chain`next, chain`prev
      ensures Valid() && chain == old(chain[..k + 1] + chain[k + 2..]) && entries == Without(old(entries), k)
      ensures |chain| == |entries| + 2
    {
      hide Linked, Contents, Shows;
      ShownAt(k);
      ContentsRemove(chain, entries, k);
      OwnsRemove(repr, chain, k + 1);
      Unlink(ele, k + 1);
      entries := Without(entries, k);
    }

    method AppendEntry(ele: Node, ghost e: Spec.Entry)
      requires Valid() && ele !in chain && ele in repr && ele.inode != null && ele.inode in repr && Shows(ele, e, true)
      requires |chain| == |entries| + 2 && forall a :: 1 <= a < |chain| - 1 ==> chain[a].inode != ele.inode
      modifies this`chain, this`entries, chain`next, chain`prev, ele`next, ele`prev
      ensures Valid() && chain == old(chain[..|chain| - 1]) + [ele, tail] && entries == old(entries) + [e]
    {
      hide Contents, Shows;
      assert chain[|chain| - 1] == tail;
      ContentsAppend(chain, entries, ele, e);
      InsertAtEnd(ele);
      entries := entries + [e];
    }

    // remove_node(ele, 0): unlink and write back if dirty.
    method RemoveNode(disk: array<Block>, numinodes: int, ele: Node, ghost k: nat)
      requires Valid() && k < |entries| && ele == chain[k + 1] && InodeRegion(disk[..], numinodes)
      requires disk !in repr
      modifies this`chain, this`entries, chain`next, chain`prev, disk
      ensures Valid() && InodeRegion(disk[..], numinodes)
      ensures chain == old(chain[..k + 1] + chain[k + 2..]) && entries == Without(old(entries), k)
      ensures |chain| == |entries| + 2
      ensures disk[..] == Spec.WriteBack(old(disk[..]), numinodes, old(entries[k]))
    {
      hide ValidBut, Shows, InodeRegion, Spec.InodeSave;
      ShownAt(k);
      UnlinkEntry(ele, k);
      if ele.isDirty { var res := InodeSave(disk, numinodes, ele.inumber, ele.inode); }
    }

    // The hit branch of get_inode.
    method MoveToEnd(ele: Node, ghost k: nat)
      requires Valid() && k < |entries| && ele == chain[k + 1]
      modifies this`chain, this`entries, chain`next, chain`prev
      ensures Valid() && entries == Without(old(entries), k) + [old(entries[k])]
      ensures |chain| == |entries| + 2 && chain[|entries|] == ele
    {
      hide ValidBut;
      ShownAt(k);
      OnlyAt(k);
      ghost var e := entries[k];
      UnlinkEntry(ele, k);
      AppendEntry(ele, e);
    }

    // insert_in_the_end, with the inode get_inode has just loaded; junk is the uninitialised is_dirty.
    method InsertLoaded(n: Inode, i: nat, junk: bool) returns (inode: FsInode)
      requires Valid()
      modifies this`chain, this`entries, this`repr, chain`next, chain`prev
      ensures Valid() && entries == old(entries) + [Spec.Entry(i, n, junk)]
      ensures |chain| == |entries| + 2 && chain[|entries|].inode == inode
      ensures fresh(inode) && inode.Value() == n && inode.live && inode in repr
      ensures fresh(repr - old(repr)) && fresh(chain[|entries|])
    {
      hide Linked;
      inode := new FsInode(n);
      var ele := new Node(i, inode, junk);
      assert forall a :: 0 <= a < |chain| ==> chain[a] in repr;
      assert forall a :: 1 <= a < |chain| - 1 ==> chain[a].inode == null || chain[a].inode in repr;
      repr := repr + {inode, ele};
      AppendEntry(ele, Spec.Entry(i, n, junk));
    }

    // free(n->inode) and free(n) for a node that is no longer in the list; keep leaves the inode alone.
    method Forget(n: Node, inode: FsInode, keep: bool)
      requires Valid() && n !in chain && |chain| == |entries| + 2
      requires forall a :: 1 <= a < |chain| - 1 ==> chain[a].inode != inode
      modifies this`repr, inode`live
      ensures Valid() && repr == old(repr) - {n, inode}
      ensures inode.live <==> keep && old(inode.live)
    {
      hide Linked, Contents;
      assert forall a :: 0 <= a < |chain| ==> chain[a] in repr;
      assert forall a :: 1 <= a < |chain| - 1 ==> chain[a].inode == null || chain[a].inode in repr;
      repr := repr - {n, inode};
      if !keep { inode.live := false; }
    }

    // Evicting the least recently used node; its inode is freed unless nothing is cached.
    method EvictFirst(disk: array<Block>, numinodes: int)
      requires Valid() && disk !in repr && InodeRegion(disk[..], numinodes) && entries != []
      requires |chain| == |entries| + 2 && chain[1].inode != null
      modifies this`chain, this`entries, this`repr, chain`next, chain`prev, disk, chain[1].inode`live
      ensures Valid() && InodeRegion(disk[..], numinodes)
      ensures chain == old(chain[..1] + chain[2..]) && entries == old(entries[1..]) && |chain| == |entries| + 2
      ensures repr == old(repr) - {old(chain[1]), old(chain[1].inode)}
      ensures disk[..] == Spec.WriteBack(old(disk[..]), numinodes, old(entries[0]))
      ensures old(chain[1].inode).live <==> capacity == 0
    {
      hide ValidBut, Shows, InodeRegion, Spec.WriteBack;
      ShownAt(0);
      OnlyAt(0);
      FirstNode();
      var victim := head.next;
      RemoveNode(disk, numinodes, victim, 0);
      Forget(victim, victim.inode, capacity == 0);
    }

    lemma FirstNode()
      requires Valid() && entries != []
      ensures |chain| >= 2 && head.next == chain[1]
    {
    }

    // The inode get_inode returned: the one in the list at the entry of i, or one not listed.
    ghost predicate Handle(inode: FsInode, i: nat)
      reads this`entries, this`chain, this`repr, chain`inode
    {
      var k := Spec.Find(entries, i);
      && (if k < |entries| then k + 1 < |chain| && chain[k + 1].inode == inode else inode !in repr)
    }

    lemma HandleLast(inode: FsInode, i: nat)
      requires OncePerInumber(entries) && |chain| == |entries| + 2 && entries != []
      requires entries[|entries| - 1].inumber == i && chain[|entries|].inode == inode
      ensures Handle(inode, i)
    {
      FindAt(entries, |entries| - 1);
    }

    lemma InFootprint()
      requires Valid()
      ensures this in repr && forall n :: n in chain ==> n in repr
      ensures forall k :: 1 <= k < |chain| - 1 ==> chain[k].inode == null || chain[k].inode in repr
    {
    }

    // What get_inode promises, hit or miss.
    twostate predicate Got(disk: array<Block>, numinodes: int, i: nat, junk: bool, new inode: FsInode?)
      reads this, disk, repr, chain, inode
    {
      var g := Spec.Get(old(disk[..]), numinodes, old(Model()), i, junk);
      && disk[..] == g.disk && Model() == g.cache
      && (inode == null <==> g.inode.None?)
      && (inode != null ==>
            && inode.Value() == g.inode.value && Handle(inode, i) && (inode in old(repr) || !old(allocated(inode)))
            && (inode.live <==> !Spec.ReturnsFreed(numinodes, old(Model()), i)))
    }

    method GetInode(disk: array<Block>, numinodes: int, i: nat, junk: bool) returns (inode: FsInode?)
      requires Valid() && disk !in repr && EntriesOk(disk[..], numinodes, entries)
      modifies this, repr, disk
      ensures Valid() && fresh(repr - old(repr)) && disk !in repr
      ensures Got(disk, numinodes, i, junk, inode)
    {
      hide ValidBut, Handle, Spec.WriteBack, Spec.DiskInode, Shows, InodeRegion, EntryOk;
      var temp, k := FindNode(i, -1);
      InFootprint();
      if temp != null {
        ShownAt(k);
        RemoveSame(entries, k);
        inode := temp.inode;
        MoveToEnd(temp, k);
        HandleLast(inode, i);
      } else {
        inode := GetMiss(disk, numinodes, i, junk);
      }
    }

    // The miss branch of get_inode.
    method GetMiss(disk: array<Block>, numinodes: int, i: nat, junk: bool) returns (inode: FsInode?)
      requires Valid() && disk !in repr && EntriesOk(disk[..], numinodes, entries) && !Spec.Resident(Model(), i)
      modifies this, repr, disk
      ensures Valid() && fresh(repr - old(repr)) && disk !in repr
      ensures Got(disk, numinodes, i, junk, inode)
    {
      hide ValidBut, Handle, Spec.WriteBack, Spec.DiskInode, Shows, InodeRegion, EntryOk;
      InFootprint();
      inode := null;
      var n := InodeLoad(disk, numinodes, i);
      if n.None? { return; }
      AppendLoaded(disk[..], numinodes, Model(), i, junk);
      inode := InsertLoaded(n.value, i, junk);
      currentSize := currentSize + 1;
      HandleLast(inode, i);
      if currentSize > capacity {
        InFootprint();
        EvictOne(disk, numinodes, i, inode);
        currentSize := currentSize - 1;
      }
    }

    // The eviction at the end of get_inode, seen from the inode just inserted.
    method EvictOne(disk: array<Block>, numinodes: int, i: nat, inode: FsInode)
      requires Valid() && disk !in repr && InodeRegion(disk[..], numinodes) && entries != [] && OncePerInumber(entries)
      requires |chain| == |entries| + 2 && entries[|entries| - 1].inumber == i && chain[|entries|].inode == inode && inode.live
      modifies this`chain, this`entries, this`repr, chain`next, chain`prev, disk, set k | 1 <= k < |chain| - 1 :: chain[k].inode
      ensures Valid() && repr <= old(repr) && entries == old(entries[1..])
      ensures disk[..] == Spec.WriteBack(old(disk[..]), numinodes, old(entries[0]))
      ensures Handle(inode, i) && inode.Value() == old(inode.Value())
      ensures inode.live <==> capacity == 0 || |old(entries)| > 1
    {
      hide ValidBut, Shows, InodeRegion, Spec.WriteBack;
      ShownAt(0);
      OnlyAt(0);
      FindAt(entries, |entries| - 1);
      EvictFirst(disk, numinodes);
      if entries != [] { HandleLast(inode, i); }
    }

    // Takes the node of i out of the list, if there is one, and frees its inode.
    method TakeOut(disk: array<Block>, numinodes: int, i: nat, inode: FsInode)
      requires Valid() && disk !in repr && InodeRegion(disk[..], numinodes) && Handle(inode, i)
      modifies this`chain, this`entries, this`repr, chain`next, chain`prev, disk, inode`live
      ensures Valid() && repr <= old(repr) && !inode.live && InodeRegion(disk[..], numinodes)
      ensures var k := Spec.Find(old(entries), i);
        if k < old(|entries|) then
          Model() == old(Model()).(entries := Without(old(entries), k))
          && disk[..] == Spec.WriteBack(old(disk[..]), numinodes, old(entries)[k])
        else Model() == old(Model()) && disk[..] == old(disk[..])
    {
      hide ValidBut, Shows, InodeRegion, Spec.WriteBack;
      var temp, k := FindNode(i, -1);
      if temp != null {
        ShownAt(k);
        OnlyAt(k);
        RemoveNode(disk, numinodes, temp, k);
        Forget(temp, temp.inode, false);
      } else {
        FreeUnlisted(inode);
      }
    }

    method RemoveIfPresent(disk: array<Block>, numinodes: int, i: nat, inode: FsInode) returns (res: bool)
      requires Valid() && disk !in repr && InodeRegion(disk[..], numinodes) && Handle(inode, i)
      modifies this`chain, this`entries, this`repr, chain`next, chain`prev, disk, inode`live
      ensures Valid() && repr <= old(repr) && !inode.live
      ensures var u := Spec.RemoveIfPresent(old(disk[..]), numinodes, old(Model()), i);
        disk[..] == u.disk && Model() == u.cache
      ensures res <==> i < 128 * (numinodes / 128 - 1)
    {
      hide ValidBut, InodeRegion, Spec.WriteBack, Spec.InodeSave, Spec.Usable;
      TakeOut(disk, numinodes, i, inode);
      var empty := new FsInode(ZERO_INODE);
      res := InodeSave(disk, numinodes, i, empty);
    }

    // free(corresponding_inode) when nothing is cached.
    method FreeUnlisted(inode: FsInode)
      requires Valid() && inode !in repr
      modifies inode`live
      ensures Valid() && !inode.live
    {
      InFootprint();
      inode.live := false;
    }

    // The entry records the inode as it now is.
    method MarkDirty(temp: Node, ghost k: nat)
      requires k < |entries| && ValidBut(k) && |chain| == |entries| + 2 && temp == chain[k + 1] && temp.inode != null
      modifies this`entries, temp`isDirty
      ensures Valid() && entries == old(entries)[k := Spec.Entry(old(entries)[k].inumber, temp.inode.Value(), true)]
    {
      hide Linked;
      assert Shows(temp, entries[k], false);
      temp.isDirty := true;
      entries := entries[k := Spec.Entry(entries[k].inumber, temp.inode.Value(), true)];
    }

    // set_dirty, called after the inode has been changed in place.
    method SetDirty(disk: array<Block>, numinodes: int, i: nat, inode: FsInode)
      requires ValidBut(Spec.Find(entries, i)) && disk !in repr && InodeRegion(disk[..], numinodes) && Handle(inode, i)
      modifies this`entries, chain`isDirty, disk
      ensures Valid() && repr == old(repr)
      ensures var u := Spec.Update(old(disk[..]), numinodes, old(Model()), i, inode.Value(), true);
        disk[..] == u.disk && Model() == u.cache
    {
      hide InodeRegion, Spec.InodeSave, ValidBut;
      ChainLength(Spec.Find(entries, i));
      var temp, k := FindNode(i, Spec.Find(entries, i));
      if temp != null {
        assert inode == temp.inode;
        MarkDirty(temp, k);
      } else {
        AllInStep();
        var res := InodeSave(disk, numinodes, i, inode);
      }
    }

    lemma ChainLength(skip: int)
      requires ValidBut(skip)
      ensures |chain| == |entries| + 2
    {
    }

    // Nothing in the list is out of step.
    lemma AllInStep()
      requires ValidBut(|entries|)
      ensures Valid()
    {
      hide Linked;
      forall a | 0 <= a < |entries| ensures Shows(chain[a + 1], entries[a], true) {
        assert Shows(chain[a + 1], entries[a], a != |entries|);
      }
    }

    // flush_cache: save every dirty inode and mark it clean.
    method FlushCache(disk: array<Block>, numinodes: int)
      requires Valid() && disk !in repr && InodeRegion(disk[..], numinodes)
      modifies this`entries, chain`isDirty, disk
      ensures Valid() && InodeRegion(disk[..], numinodes)
      ensures disk[..] == Spec.Flush(old(disk[..]), numinodes, old(entries))
      ensures entries == Cleaned(old(entries), |old(entries)|)
    {
      hide ValidBut, Shows, InodeRegion, Spec.WriteBack;
      ghost var es, d := entries, disk[..];
      ghost var j := 0;
      Ends();
      var temp := head.next;
      while temp != tail
        invariant Valid() && 0 <= j <= |es| && |chain| == |es| + 2 && disk !in repr && chain == old(chain)
        invariant temp == chain[j + 1]
        invariant entries == Cleaned(es, j) && InodeRegion(disk[..], numinodes)
        invariant Spec.Flush(disk[..], numinodes, es[j..]) == Spec.Flush(d, numinodes, es)
        decreases |es| - j
      {
        ChainNext(j + 1);
        ShownAt(j);
        FlushNode(disk, numinodes, temp, j);
        assert es[j..][0] == es[j] && es[j..][1..] == es[j + 1..];
        temp := temp.next;
        j := j + 1;
      }
      ChainNext(j + 1);
    }

    method FlushNode(disk: array<Block>, numinodes: int, temp: Node, ghost j: nat)
      requires Valid() && disk !in repr && InodeRegion(disk[..], numinodes) && j < |entries| && temp == chain[j + 1]
      modifies this`entries, temp`isDirty, disk
      ensures Valid() && InodeRegion(disk[..], numinodes)
      ensures disk[..] == Spec.WriteBack(old(disk[..]), numinodes, old(entries[j]))
      ensures entries == old(entries)[j := old(entries[j]).(dirty := false)]
    {
      hide Linked, InodeRegion, Spec.InodeSave;
      assert Shows(temp, entries[j], true);
      if temp.isDirty {
        var res := InodeSave(disk, numinodes, temp.inumber, temp.inode);
        temp.isDirty := false;
      }
      entries := entries[j := entries[j].(dirty := false)];
    }

    // The first j entries without their dirty marks.
    static function Cleaned(es: seq<Spec.Entry>, j: nat): seq<Spec.Entry>
      requires j <= |es|
    {
      seq(|es|, k requires 0 <= k < |es| => if k < j then es[k].(dirty := false) else es[k])
    }

    lemma Ends()
      requires Valid()
      ensures |chain| == |entries| + 2 && head.next == chain[1] && chain[|chain| - 1] == tail
    {
    }

    lemma ChainNext(k: nat)
      requires Valid() && 1 <= k <= |entries| + 1
      ensures |chain| == |entries| + 2 && (chain[k] == tail <==> k == |entries| + 1)
      ensures k <= |entries| ==> chain[k].next == chain[k + 1]
    {
    }

    // Cache.destroy: every dirty inode is written back, front to back.
    method Destroy(disk: array<Block>, numinodes: int)
      requires Valid() && disk !in repr && InodeRegion(disk[..], numinodes)
      modifies this, repr, disk
      ensures disk[..] == Spec.Flush(old(disk[..]), numinodes, old(entries))
      ensures Valid() && entries == [] && repr <= old(repr)
    {
      hide ValidBut, Shows, InodeRegion, Spec.WriteBack;
      Ends();
      var temp := head.next;
      while temp != tail
        invariant Valid() && repr <= old(repr) && |chain| == |entries| + 2 && disk !in repr
        invariant temp == chain[1] && chain[|chain| - 1] == tail && InodeRegion(disk[..], numinodes)
        invariant Spec.Flush(disk[..], numinodes, entries) == Spec.Flush(old(disk[..]), numinodes, old(entries))
        decreases |entries|
      {
        ChainNext(1);
        ShownAt(0);
        OnlyAt(0);
        InFootprint();
        var next := temp.next;
        assert Without(entries, 0) == entries[1..];
        RemoveNode(disk, numinodes, temp, 0);
        Forget(temp, temp.inode, false);
        Ends();
        temp := next;
      }
      ChainNext(1);
    }

    // Valid but for the fields of inode, the one at position k, which the file system is changing.
    ghost predicate Apart(inode: FsInode, k: nat)
      reads this`chain, this`head, this`tail, this`entries, this`repr, chain
      reads set j | 1 <= j < |chain| - 1 && chain[j].inode != inode :: chain[j].inode
    {
      && this in repr && Owns(repr, chain) && Linked() && |chain| == |entries| + 2
      && (forall a :: 0 <= a < |entries| && a != k ==>
            chain[a + 1].inode != inode && Shows(chain[a + 1], entries[a], true))
      && (forall a, b :: 1 <= a < b <= |entries| ==> chain[a].inode != chain[b].inode)
      && (k < |entries| ==>
            && chain[k + 1].inode == inode
            && chain[k + 1].inumber == entries[k].inumber >= 0 && chain[k + 1].isDirty == entries[k].dirty)
    }

    lemma ChangeBegins(inode: FsInode, i: nat)
      requires Valid() && Handle(inode, i)
      ensures Apart(inode, Spec.Find(entries, i))
    {
      hide Linked;
      var k := Spec.Find(entries, i);
      assert k < |entries| ==> Shows(chain[k + 1], entries[k], true);
    }

    lemma ChangeEnds(inode: FsInode, k: nat)
      requires Apart(inode, k) && inode.live
      ensures ValidBut(k)
    {
      hide Linked;
    }

    // Back in step: either the entry records the inode, or the inode did not change.
    lemma BackInStep(inode: FsInode, i: nat, k: int)
      requires ValidBut(k) && Handle(inode, i) && k == Spec.Find(entries, i)
      requires k < |entries| ==> inode.Value() == entries[k].inode
      ensures Valid()
    {
      forall a | 0 <= a < |entries| ensures Shows(chain[a + 1], entries[a], true) {
        assert Shows(chain[a + 1], entries[a], a != k);
      }
    }
  }
}
