// Counting free blocks: when create_new_data_block succeeds and what it takes.

module FsSpace {
  import opened DataStructures
  import opened CacheSpec
  import opened FsSpec
  import opened FsInvariant

  function CountFree(bmap: seq<bool>): nat {
    if bmap == [] then 0
    else CountFree(bmap[..|bmap| - 1]) + if bmap[|bmap| - 1] then 0 else 1
  }

  lemma {:induction false} CountUpdate(bmap: seq<bool>, b: nat, v: bool)
    requires b < |bmap|
    ensures CountFree(bmap[b := v]) == CountFree(bmap) - (if bmap[b] then 0 else 1) + (if v then 0 else 1)
  {
    var m := |bmap| - 1;
    if b < m {
      CountUpdate(bmap[..m], b, v);
      assert bmap[b := v][..m] == bmap[..m][b := v];
    } else {
      assert bmap[b := v][..m] == bmap[..m];
    }
  }

  lemma {:induction false} CountZero(bmap: seq<bool>)
    ensures CountFree(bmap) == 0 <==> forall b :: 0 <= b < |bmap| ==> bmap[b]
  {
    if bmap != [] {
      var m := |bmap| - 1;
      CountZero(bmap[..m]);
      if CountFree(bmap[..m]) == 0 {
        assert forall b :: 0 <= b < m ==> bmap[..m][b];
      } else {
        var b :| 0 <= b < |bmap[..m]| && !bmap[..m][b];
        assert !bmap[b];
      }
    }
  }

  // find_free_block fails exactly when no block is free.
  lemma FindFreeFails(bmap: seq<bool>, own: seq<Owner>)
    requires MapAgrees(bmap, own) && FirstDataBlock(|bmap|) > 0
    ensures FindFreeBlock(bmap) == 0 <==> CountFree(bmap) == 0
  {
    CountZero(bmap);
  }

  // Blocks taken when a file with c data blocks gets its next one.
  function NextCost(c: int): int { Cost(c + 1) - Cost(c) }

  // create_new_data_block succeeds exactly when there are enough free blocks, and takes that many.
  lemma AllocSpace(disk: Disk, bmap: seq<bool>, tab: seq<Inode>, own: seq<Owner>, i: int, c: int)
    requires Owned(disk, bmap, tab, own) && 0 <= i < |tab| && tab[i].isvalid
    requires Contiguous(disk, tab[i], c) && c < POINTERS_PER_FILE
    ensures var a := CreateDataBlock(disk, bmap, tab[i], c);
      && (a.block != 0 <==> CountFree(bmap) >= NextCost(c))
      && (a.block != 0 ==> CountFree(a.bmap) == CountFree(bmap) - NextCost(c))
      && (a.block == 0 ==> a == Alloc(disk, bmap, tab[i], 0, false))
  {
    var n := tab[i];
    var b := FindFreeBlock(bmap);
    FindFreeFails(bmap, own);
    if b != 0 {
      CountUpdate(bmap, b, true);
      if c == POINTERS_PER_INODE {
        var bmap1 := bmap[b := true];
        FindFreeFails(bmap1, own[b := IndirectOf(i)]);
        var d := FindFreeBlock(bmap1);
        if d != 0 { CountUpdate(bmap1, d, true); }
        else { assert bmap1[b := false] == bmap; }
      }
    }
  }
}
