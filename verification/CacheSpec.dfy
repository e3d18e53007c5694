// Inode load/save (project_4/inode_utilities.h) and the write-back LRU inode cache
// (project_4/cache.c) on values.  The list is a sequence, least recently used entry first.
// Class LruCache.Cache implements these functions with the source's linked list.

module CacheSpec {
  import opened Common
  import opened DataStructures

  // The inode block that holds inode i; block 0 is the superblock.
  function InodeBlockNumber(i: int): int { 1 + i / INODES_PER_BLOCK }

  // inode_load and inode_save refuse every inode of the last inode block: the block number
  // starts at 1 but is compared with the number of inode blocks.
  predicate Usable(numinodes: int, i: int): (r: bool)
    ensures r <==> 0 <= i < INODES_PER_BLOCK * (numinodes / INODES_PER_BLOCK - 1)
  {
    0 <= i && numinodes != -1 && InodeBlockNumber(i) < numinodes / INODES_PER_BLOCK
  }

  function DiskInode(disk: Disk, i: int): Inode {
    InodesOf(disk, InodeBlockNumber(i))[i % INODES_PER_BLOCK]
  }

  function InodeLoad(disk: Disk, numinodes: int, i: int): Option<Inode> {
    if Usable(numinodes, i) then Some(DiskInode(disk, i)) else None
  }

  function InodeSave(disk: Disk, numinodes: int, i: int, n: Inode): Disk {
    var b := InodeBlockNumber(i);
    if Usable(numinodes, i) && b < |disk|
    then disk[b := InodeBlock(InodesOf(disk, b)[i % INODES_PER_BLOCK := n])]
    else disk
  }

  datatype Entry = Entry(inumber: int, inode: Inode, dirty: bool)

  // remove_if_present does not decrement current_size, so currentSize exceeds the number of
  // entries by the number of entries it has taken out since mount.
  datatype Cache = Cache(capacity: int, currentSize: int, entries: seq<Entry>)

  function Find(entries: seq<Entry>, i: int): (k: nat)
    ensures k <= |entries|
    ensures k < |entries| ==> entries[k].inumber == i
    ensures forall j :: 0 <= j < k ==> entries[j].inumber != i
  {
    if entries == [] then 0
    else if entries[0].inumber == i then 0
    else 1 + Find(entries[1..], i)
  }

  predicate Resident(c: Cache, i: int) { Find(c.entries, i) < |c.entries| }

  // What remove_node(ele, 0) writes to the disk.
  function WriteBack(disk: Disk, numinodes: int, e: Entry): Disk {
    if e.dirty then InodeSave(disk, numinodes, e.inumber, e.inode) else disk
  }

  datatype GetResult = GetResult(disk: Disk, cache: Cache, inode: Option<Inode>)

  // get_inode.  junk is the content of the uninitialised is_dirty field of a new node.
  function Get(disk: Disk, numinodes: int, c: Cache, i: int, junk: bool): GetResult {
    var k := Find(c.entries, i);
    if k < |c.entries| then
      var e := c.entries[k];
      GetResult(disk, c.(entries := Without(c.entries, k) + [e]), Some(e.inode))
    else match InodeLoad(disk, numinodes, i)
      case None => GetResult(disk, c, None)
      case Some(n) =>
        var entries := c.entries + [Entry(i, n, junk)];
        if c.currentSize + 1 > c.capacity then
          GetResult(WriteBack(disk, numinodes, entries[0]), c.(entries := entries[1..]), Some(n))
        else
          GetResult(disk, c.(entries := entries, currentSize := c.currentSize + 1), Some(n))
  }

  // The inode that get_inode returns has just been freed.
  predicate ReturnsFreed(numinodes: int, c: Cache, i: int) {
    !Resident(c, i) && Usable(numinodes, i) && c.currentSize + 1 > c.capacity
    && c.entries == [] && c.capacity != 0
  }

  datatype DiskCache = DiskCache(disk: Disk, cache: Cache)

  // The caller has changed the inode it got to n in place; if touched it then calls set_dirty.
  function Update(disk: Disk, numinodes: int, c: Cache, i: int, n: Inode, touched: bool): DiskCache {
    var k := Find(c.entries, i);
    if k < |c.entries| then
      var e := c.entries[k];
      DiskCache(disk, c.(entries := c.entries[k := Entry(i, n, e.dirty || touched)]))
    else if touched then DiskCache(InodeSave(disk, numinodes, i, n), c)
    else DiskCache(disk, c)
  }

  // remove_if_present followed by saving the empty inode.
  function RemoveIfPresent(disk: Disk, numinodes: int, c: Cache, i: int): DiskCache {
    var k := Find(c.entries, i);
    if k < |c.entries| then
      DiskCache(InodeSave(WriteBack(disk, numinodes, c.entries[k]), numinodes, i, ZERO_INODE),
                c.(entries := Without(c.entries, k)))
    else
      DiskCache(InodeSave(disk, numinodes, i, ZERO_INODE), c)
  }

  // The disk after every dirty entry has been saved, front to back (flush_cache, destroy).
  function Flush(disk: Disk, numinodes: int, entries: seq<Entry>): Disk
    decreases |entries|
  {
    if entries == [] then disk
    else Flush(WriteBack(disk, numinodes, entries[0]), numinodes, entries[1..])
  }

  // The inode that get_inode would hand out: the cached copy if there is one.
  function Logical(disk: Disk, c: Cache, i: int): Inode {
    var k := Find(c.entries, i);
    if k < |c.entries| then c.entries[k].inode else DiskInode(disk, i)
  }
}
