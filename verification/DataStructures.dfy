// On-disk layout of the file system (project_4/data_structures.h, disk.h).
//
// A disk block is a C union.  It is modelled as one constructor per view; every view has the
// fixed length the union gives it.

module DataStructures {
  const DISK_BLOCK_SIZE := 4096
  const INODES_PER_BLOCK := 128
  const POINTERS_PER_INODE := 5
  const POINTERS_PER_BLOCK := 1024
  const POINTERS_PER_FILE := 1029 // direct and indirect
  const MAX_FILE_SIZE := 4214784 // POINTERS_PER_FILE blocks
  const FS_MAGIC := 0xf0f03410

  // A sequence of n copies of x.
  function Repeat<T>(x: T, n: nat): (s: seq<T>)
    ensures |s| == n
    ensures forall k :: 0 <= k < n ==> s[k] == x
  {
    seq(n, _ => x)
  }

  type byte = x: int | 0 <= x < 256

  type Direct = s: seq<int> | |s| == POINTERS_PER_INODE witness [0, 0, 0, 0, 0]

  datatype Inode = Inode(isvalid: bool, size: int, direct: Direct, indirect: int)

  type Pointers = s: seq<int> | |s| == POINTERS_PER_BLOCK witness Repeat(0, POINTERS_PER_BLOCK)
  type Bytes = s: seq<byte> | |s| == DISK_BLOCK_SIZE witness Repeat(0, DISK_BLOCK_SIZE)
  type InodeTable = s: seq<Inode> | |s| == INODES_PER_BLOCK
    witness Repeat(Inode(false, 0, [0, 0, 0, 0, 0], 0), INODES_PER_BLOCK)

  datatype Block =
    | SuperBlock(magic: int, nblocks: int, ninodeblocks: int, ninodes: int)
    | InodeBlock(inodes: InodeTable)
    | PointerBlock(pointers: Pointers)
    | DataBlock(bytes: Bytes)

  type Disk = seq<Block>

  const ZERO_INODE := Inode(false, 0, [0, 0, 0, 0, 0], 0)
  const EMPTY_FILE := Inode(true, 0, [0, 0, 0, 0, 0], 0)
  const ZERO_POINTERS: Pointers := Repeat(0, POINTERS_PER_BLOCK)
  const ZERO_BYTES: Bytes := Repeat(0, DISK_BLOCK_SIZE)
  const ZERO_INODES: InodeTable := Repeat(ZERO_INODE, INODES_PER_BLOCK)

  // Number of blocks dedicated to inodes on a disk of the given size (macro NUM_INODE_BLOCKS).
  function NumInodeBlocks(nblocks: int): int { 1 + nblocks / 10 }

  // First block that is neither the superblock nor an inode block.
  function FirstDataBlock(nblocks: int): int { 1 + NumInodeBlocks(nblocks) }

  function NumInodes(nblocks: int): int { NumInodeBlocks(nblocks) * INODES_PER_BLOCK }

  // The three typed views of a block.  Reading a block through a view it was not written with
  // is outside the model; the functions then return zeros, and the methods of class FileSystem
  // prove that it never happens.
  function PointersOf(disk: Disk, b: int): Pointers {
    if 0 <= b < |disk| && disk[b].PointerBlock? then disk[b].pointers else ZERO_POINTERS
  }

  function BytesOf(disk: Disk, b: int): Bytes {
    if 0 <= b < |disk| && disk[b].DataBlock? then disk[b].bytes else ZERO_BYTES
  }

  function InodesOf(disk: Disk, b: int): InodeTable {
    if 0 <= b < |disk| && disk[b].InodeBlock? then disk[b].inodes else ZERO_INODES
  }

  function Min(x: int, y: int): int { if x <= y then x else y }
  function Max(x: int, y: int): int { if x >= y then x else y }

  // Number of data blocks a file of the given size occupies.
  function NumBlocks(size: int): int { (size + DISK_BLOCK_SIZE - 1) / DISK_BLOCK_SIZE }

  // Blocks needed for a file with c data blocks: the data blocks and, past the direct pointers,
  // the indirect block.
  function Cost(c: int): int { if c > POINTERS_PER_INODE then c + 1 else c }
}
