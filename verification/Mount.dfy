/** Formatting a medium, and mounting one: the counters come from a scan of the lookup. */
module Mount {
  import opened Words
  import opened Layout
  import opened Medium
  import opened Directory
  import opened Tally
  import opened Store
  import opened Collector
  import opened Files
  import opened FileSystem
  import opened Api

  /** Counts blocks that start with a free entry, and deleted and used entries. */
  method Scan(g: Geometry, lu: seq<int>) returns (freeBlocks: nat, deleted: nat, used: nat)
    requires g.Valid() && |lu| == g.Total()
    ensures freeBlocks == FreeBlocks(g, lu, g.blocks) && deleted == All(lu, Gone) && used == All(lu, InUse)
  {
    hide Geometry.Total;
    hide Geometry.BlockStart;
    var block := 0;
    freeBlocks, deleted, used := 0, 0, 0;
    BlockStartZero(g);
    while block < g.blocks
      invariant block <= g.blocks && g.BlockStart(block) <= |lu|
      invariant freeBlocks == FreeBlocks(g, lu, block)
      invariant deleted == Count(lu, 0, g.BlockStart(block), Gone) && used == Count(lu, 0, g.BlockStart(block), InUse)
    {
      BlockFits(g, block);
      var start, entry := g.BlockStart(block), 0;
      while entry < g.n
        invariant entry <= g.n
        invariant freeBlocks == FreeBlocks(g, lu, block) + (if entry > 0 && FirstFree(g, lu, block) then 1 else 0)
        invariant deleted == Count(lu, 0, start + entry, Gone) && used == Count(lu, 0, start + entry, InUse)
      {
        var id := lu[start + entry];
        if id == FREE {
          if entry == 0 {
            freeBlocks := freeBlocks + 1;
          }
        } else if id == DELETED {
          deleted := deleted + 1;
        } else {
          used := used + 1;
        }
        entry := entry + 1;
      }
      block := block + 1;
    }
    TotalStart(g);
  }

  lemma BlockStartZero(g: Geometry)
    ensures g.BlockStart(0) == 0
  {
  }

  lemma TotalStart(g: Geometry)
    ensures g.BlockStart(g.blocks) == g.Total()
  {
  }

  /** Formats: every block is erased. */
  method Format(g: Geometry, flash: Flash) returns (fl: Flash)
    requires Shaped(g, flash)
    ensures Shaped(g, fl) && forall s :: 0 <= s < g.Total() ==> fl.lu[s] == FREE && fl.pages[s] == ERASED
  {
    hide Geometry.Total;
    hide Geometry.BlockStart;
    fl := flash;
    var block := 0;
    BlockStartZero(g);
    while block < g.blocks
      invariant block <= g.blocks && Shaped(g, fl) && g.BlockStart(block) <= g.Total()
      invariant forall s :: 0 <= s < g.BlockStart(block) ==> fl.lu[s] == FREE && fl.pages[s] == ERASED
    {
      BlockFits(g, block);
      fl := Erased(g, fl, block, 0);
      block := block + 1;
    }
    TotalStart(g);
  }

  lemma EmptyMedium(g: Geometry, fl: Flash)
    requires Shaped(g, fl) && forall s :: 0 <= s < |fl.lu| ==> fl.lu[s] == FREE && fl.pages[s] == ERASED
    ensures AllWords(fl.lu) && ErasedFree(fl) && DeadMarked(fl) && FreeSuffix(g, fl.lu)
    ensures Linked(g, fl, map[]) && AllFiles(g, Meaning(fl, map[])) && Disk(g, Meaning(fl, map[])) == map[]
  {
  }

  /** An erase count as the unsigned 16-bit number it is. */
  function CountOf(word: int): int {
    if word < 0 then word + 0x10000 else word
  }

  /** Some block carries erase count `c`. */
  ghost predicate Carried(counts: seq<int>, c: int) {
    exists b :: 0 <= b < |counts| && counts[b] != -1 && CountOf(counts[b]) == c
  }

  /** Finds the next erase count: one more than the largest there is; or, where the counts have wrapped
      around, one more than the smallest. */
  method NextCount(counts: seq<int>) returns (next: int, ghost least: int, ghost most: int)
    ensures forall b :: 0 <= b < |counts| && counts[b] != -1 ==> least <= CountOf(counts[b]) <= most
    ensures (forall b :: 0 <= b < |counts| ==> counts[b] == -1) ==> next == 1
    ensures least <= 0xffff && 0 <= most && (least == 0xffff || Carried(counts, least)) && (most == 0 || Carried(counts, most))
    ensures (forall b :: 0 <= b < |counts| ==> IsWord(counts[b])) ==> next == (if most - least > 0x7fff then least else most) + 1
  {
    var lo, hi, block := 0xffff, 0, 0;
    while block < |counts|
      invariant 0 <= block <= |counts| && lo <= 0xffff && 0 <= hi
      invariant forall b :: 0 <= b < block && counts[b] != -1 ==> lo <= CountOf(counts[b]) <= hi
      invariant (lo == 0xffff || Carried(counts, lo)) && (hi == 0 || Carried(counts, hi))
      invariant (forall b :: 0 <= b < |counts| ==> IsWord(counts[b])) ==> hi < 0xffff
      invariant (forall b :: 0 <= b < block ==> counts[b] == -1) ==> lo == 0xffff && hi == 0
    {
      var count := counts[block];
      if count != -1 {
        if CountOf(count) < lo {
          lo := CountOf(count);
        }
        if CountOf(count) > hi {
          hi := CountOf(count);
        }
      }
      block := block + 1;
    }
    least, most := lo, hi;
    if lo == 0 && hi == 0xffff {
      next := 0;
    } else if hi - lo > 0x7fff {
      next := lo + 1;
    } else {
      next := hi + 1;
    }
  }

  lemma MostCarried(counts: seq<int>, least: int, most: int)
    requires forall b :: 0 <= b < |counts| && counts[b] != -1 ==> least <= CountOf(counts[b]) <= most
    requires least <= 0xffff && 0 <= most && (least == 0xffff || Carried(counts, least)) && (most == 0 || Carried(counts, most))
    ensures forall c: int :: 0 < c < IX_FLAG && c in counts && (forall b :: 0 <= b < |counts| ==> 0 <= counts[b] <= c) ==>
      c == most && most - least <= 0x7fff && forall b :: 0 <= b < |counts| ==> IsWord(counts[b])
  {
    forall c: int | 0 < c < IX_FLAG && c in counts && (forall b :: 0 <= b < |counts| ==> 0 <= counts[b] <= c)
      ensures c == most && most - least <= 0x7fff
    {
      var b :| 0 <= b < |counts| && counts[b] == c;
      assert CountOf(counts[b]) == c;
    }
  }

  /** Mounts a medium: the counters are those of its lookup, and no descriptor is open. */
  method Mount(g: Geometry, flash: Flash, fdCount: nat, ghost dir: Dir) returns (fs: Spiffs)
    requires Shaped(g, flash) && AllWords(flash.lu) && ErasedFree(flash) && DeadMarked(flash) && FreeSuffix(g, flash.lu)
    ensures fresh(fs) && fs.Valid() && !fs.cleaning && fs.g == g && fs.flash == flash && fs.Drift() == 0
    ensures fs.freeCursorBlock == 0 && fs.freeCursorEntry == 0
    ensures forall most: int :: 0 < most < IX_FLAG && most in flash.counts && (forall b :: 0 <= b < |flash.counts| ==> 0 <= flash.counts[b] <= most) ==> fs.maxEraseCount == most + 1
    ensures |fs.fds| == fdCount && forall i :: 0 <= i < fdCount ==> fs.fds[i].fileNbr == 0 && fs.fds[i].score == 0 && fs.fds[i].pending.None? && fs.fds[i].win.None?
    ensures Linked(g, flash, dir) && AllFiles(g, Meaning(flash, dir)) && NamesDiffer(Disk(g, Meaning(flash, dir))) ==>
      Sound(g, fs.flash, dir, fs.fds)
  {
    hide All;
    hide FreeBlocks;
    hide FreeSuffix;
    hide Linked;
    hide AllFiles;
    hide NamesDiffer;
    var maxEraseCount, least, most := NextCount(flash.counts);
    MostCarried(flash.counts, least, most);
    var freeBlocks, deleted, used := Scan(g, flash.lu);
    fs := new Spiffs(g, flash, freeBlocks, used, deleted, maxEraseCount, fdCount);
    assert FdsOk(Meaning(flash, dir), dir, fs.fds);
  }
}
