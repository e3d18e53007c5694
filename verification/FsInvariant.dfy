// Exclusive block ownership: what every file system operation keeps.

module FsInvariant {
  import opened DataStructures
  import opened CacheSpec
  import opened FsSpec

  // Who uses a block.  An owner map is a function of the block number, so "exactly one owner" is
  // built in; Owned says that it is exactly what the inodes' pointers and the freemap describe.
  datatype Owner = Free | Reserved | DataOf(inumber: int, slot: int) | IndirectOf(inumber: int)

  ghost predicate MapAgrees(bmap: seq<bool>, own: seq<Owner>) {
    && |own| == |bmap|
    && forall b :: 0 <= b < |own| ==>
         (bmap[b] <==> own[b] != Free) && (own[b] == Reserved <==> b < FirstDataBlock(|bmap|))
  }

  ghost predicate OwnerPoints(disk: Disk, tab: seq<Inode>, o: Owner, b: int) {
    match o
    case Free => true
    case Reserved => true
    case DataOf(j, k) =>
      0 <= j < |tab| && 0 <= k < POINTERS_PER_FILE && tab[j].isvalid && Slot(disk, tab[j], k) == b
    case IndirectOf(j) =>
      0 <= j < |tab| && tab[j].isvalid && tab[j].indirect == b
  }

  ghost predicate SlotOwned(disk: Disk, n: Inode, j: int, k: int, own: seq<Owner>) {
    var p := Slot(disk, n, k);
    p != 0 ==> 0 <= p < |disk| && p < |own| && own[p] == DataOf(j, k) && disk[p].DataBlock?
  }

  ghost predicate IndirectOwned(disk: Disk, n: Inode, j: int, own: seq<Owner>) {
    var p := n.indirect;
    p != 0 ==> 0 <= p < |disk| && p < |own| && own[p] == IndirectOf(j) && disk[p].PointerBlock?
  }

  ghost predicate InodeOwned(disk: Disk, n: Inode, j: int, own: seq<Owner>) {
    && IndirectOwned(disk, n, j, own)
    && forall k :: 0 <= k < POINTERS_PER_FILE ==> SlotOwned(disk, n, j, k, own)
  }

  ghost predicate Owned(disk: Disk, bmap: seq<bool>, tab: seq<Inode>, own: seq<Owner>) {
    && |disk| == |bmap| == |own|
    && MapAgrees(bmap, own)
    && (forall b :: 0 <= b < |own| ==> OwnerPoints(disk, tab, own[b], b))
    && (forall j :: 0 <= j < |tab| && tab[j].isvalid ==> InodeOwned(disk, tab[j], j, own))
  }

  // The file occupies exactly its first c slots, and an indirect block iff c exceeds 5.
  ghost predicate Contiguous(disk: Disk, n: Inode, c: int) {
    && 0 <= c <= POINTERS_PER_FILE
    && (forall k :: 0 <= k < POINTERS_PER_FILE ==> (Slot(disk, n, k) != 0 <==> k < c))
    && (n.indirect != 0 <==> c > POINTERS_PER_INODE)
  }

  // Disks agree on every block that does not belong to file i and is not free.
  ghost predicate SameElsewhere(disk: Disk, disk': Disk, own: seq<Owner>, i: int) {
    && |disk'| == |disk| == |own|
    && (forall b :: 0 <= b < |own| && Elsewhere(own[b], i) ==> disk'[b] == disk[b])
  }

  predicate Elsewhere(o: Owner, i: int) {
    o.Reserved? || ((o.DataOf? || o.IndirectOf?) && o.inumber != i)
  }

  // Inode i gains block p as its slot k, and possibly an indirect block; everything else that is
  // owned stays where it was.
  ghost predicate Grows(disk: Disk, n: Inode, own: seq<Owner>, i: int, k: int, p: int,
                        disk': Disk, n': Inode, own': seq<Owner>) {
    && |disk'| == |disk| == |own| == |own'|
    && n'.isvalid && n'.size == n.size
    && 0 < p < |own| && own[p] == Free
    && disk'[p] == DataBlock(ZERO_BYTES)
    && (forall q :: 0 <= q < POINTERS_PER_FILE ==> Slot(disk', n', q) == if q == k then p else Slot(disk, n, q))
    && (n.indirect != 0 ==> n'.indirect == n.indirect)
    && (n'.indirect != 0 ==> 0 < n'.indirect < |own| && own'[n'.indirect] == IndirectOf(i) && disk'[n'.indirect].PointerBlock?)
    && own'[p] == DataOf(i, k)
    && (forall b :: 0 <= b < |own| && b != p ==>
          own'[b] == own[b] || (own[b] == Free && own'[b] == IndirectOf(i) && b == n'.indirect))
    && (forall b :: 0 <= b < |own| && own[b] != Free && own[b] != IndirectOf(i) ==> disk'[b] == disk[b])
  }

  lemma GrowsKeepsPointers(disk: Disk, bmap: seq<bool>, tab: seq<Inode>, own: seq<Owner>, i: int, k: int, p: int,
                           disk': Disk, n': Inode, own': seq<Owner>)
    requires Owned(disk, bmap, tab, own) && 0 <= i < |tab| && tab[i].isvalid
    requires 0 <= k < POINTERS_PER_FILE && Slot(disk, tab[i], k) == 0 && Grows(disk, tab[i], own, i, k, p, disk', n', own')
    ensures var tab' := tab[i := n']; forall j :: 0 <= j < |tab'| && tab'[j].isvalid ==> InodeOwned(disk', tab'[j], j, own')
  {
    var tab' := tab[i := n'];
    forall j | 0 <= j < |tab'| && tab'[j].isvalid ensures InodeOwned(disk', tab'[j], j, own') {
      assert InodeOwned(disk, tab[j], j, own);
      forall q | 0 <= q < POINTERS_PER_FILE ensures SlotOwned(disk', tab'[j], j, q, own') {
        assert SlotOwned(disk, tab[j], j, q, own);
      }
    }
  }

  lemma GrowsKeepsOwned(disk: Disk, bmap: seq<bool>, tab: seq<Inode>, own: seq<Owner>, i: int, k: int, p: int,
                        disk': Disk, bmap': seq<bool>, n': Inode, own': seq<Owner>)
    requires Owned(disk, bmap, tab, own) && 0 <= i < |tab| && tab[i].isvalid
    requires 0 <= k < POINTERS_PER_FILE && Slot(disk, tab[i], k) == 0
    requires Grows(disk, tab[i], own, i, k, p, disk', n', own') && MapAgrees(bmap', own')
    ensures Owned(disk', bmap', tab[i := n'], own')
  {
    var tab' := tab[i := n'];
    GrowsKeepsPointers(disk, bmap, tab, own, i, k, p, disk', n', own');
    forall x | 0 <= x < |own'| ensures OwnerPoints(disk', tab', own'[x], x) {
      assert OwnerPoints(disk, tab, own[x], x);
      if own[x].DataOf? {
        assert InodeOwned(disk, tab[own[x].inumber], own[x].inumber, own);
      }
    }
  }

  // The three ways create_new_data_block succeeds.
  lemma AllocDirect(disk: Disk, bmap: seq<bool>, tab: seq<Inode>, own: seq<Owner>, i: int, k: int)
    returns (own': seq<Owner>)
    requires Owned(disk, bmap, tab, own) && 0 <= i < |tab| && tab[i].isvalid
    requires 0 <= k < POINTERS_PER_INODE && Slot(disk, tab[i], k) == 0
    requires CreateDataBlock(disk, bmap, tab[i], k).block != 0
    ensures var a := CreateDataBlock(disk, bmap, tab[i], k);
      Grows(disk, tab[i], own, i, k, a.block, a.disk, a.n, own') && MapAgrees(a.bmap, own')
  {
    var b := CreateDataBlock(disk, bmap, tab[i], k).block;
    own' := own[b := DataOf(i, k)];
    assert InodeOwned(disk, tab[i], i, own);
  }

  lemma AllocIndirect(disk: Disk, bmap: seq<bool>, tab: seq<Inode>, own: seq<Owner>, i: int, k: int)
    returns (own': seq<Owner>)
    requires Owned(disk, bmap, tab, own) && 0 <= i < |tab| && tab[i].isvalid
    requires POINTERS_PER_INODE <= k < POINTERS_PER_FILE && Slot(disk, tab[i], k) == 0
    requires CreateDataBlock(disk, bmap, tab[i], k).block != 0
    ensures var a := CreateDataBlock(disk, bmap, tab[i], k);
      Grows(disk, tab[i], own, i, k, a.block, a.disk, a.n, own') && MapAgrees(a.bmap, own')
  {
    var a := CreateDataBlock(disk, bmap, tab[i], k);
    assert InodeOwned(disk, tab[i], i, own);
    if tab[i].indirect == 0 {
      own' := own[a.n.indirect := IndirectOf(i)][a.block := DataOf(i, k)];
    } else {
      own' := own[a.block := DataOf(i, k)];
    }
  }
}
