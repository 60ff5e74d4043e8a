/** Making room: decide whether garbage collection is needed, and collect block after block. */
module Reclaim {
  import opened Words
  import opened Layout
  import opened Medium
  import opened Directory
  import opened Tally
  import opened Store
  import opened Slack
  import opened Maps
  import opened Collector
  import opened Circling
  import Candidates

  const GC_MAX_RUNS := 5

  /** Takes the entries of a block that is about to be erased out of the statistics. */
  method ErasePageStats(fs: Spiffs, bix: nat)
    requires Shaped(fs.g, fs.flash) && bix < fs.g.blocks
    modifies fs`pagesAllocated, fs`pagesDeleted
    ensures fs.g.BlockStart(bix) + fs.g.n <= |fs.flash.lu|
    ensures fs.pagesAllocated == old(fs.pagesAllocated) - Count(fs.flash.lu, fs.g.BlockStart(bix), fs.g.BlockStart(bix) + fs.g.n, InUse)
    ensures fs.pagesDeleted == old(fs.pagesDeleted) - Count(fs.flash.lu, fs.g.BlockStart(bix), fs.g.BlockStart(bix) + fs.g.n, Gone)
  {
    hide Geometry.Total;
    hide Geometry.BlockStart;
    BlockFits(fs.g, bix);
    var lo, entry, dele, allo := fs.g.BlockStart(bix), 0, 0, 0;
    while entry < fs.g.n
      invariant 0 <= entry <= fs.g.n
      invariant allo == Count(fs.flash.lu, lo, lo + entry, InUse)
      invariant dele == Count(fs.flash.lu, lo, lo + entry, Gone)
    {
      var id := fs.flash.lu[lo + entry];
      if id == FREE {
      } else if id == DELETED {
        dele := dele + 1;
      } else {
        allo := allo + 1;
      }
      entry := entry + 1;
    }
    fs.pagesAllocated := fs.pagesAllocated - allo;
    fs.pagesDeleted := fs.pagesDeleted - dele;
  }

  /** Pages that may still be written, two blocks being kept in reserve. */
  function FreePages(fs: Spiffs): int
    reads fs
  {
    fs.g.n * (fs.g.blocks - 2) - fs.pagesAllocated - fs.pagesDeleted
  }

  /** The estimate is exact: it is the number of free entries less two blocks. */
  lemma FreePagesCount(fs: Spiffs)
    requires fs.Valid()
    ensures FreePages(fs) == All(fs.flash.lu, Unused) - 2 * fs.g.n
  {
    hide FreeSuffix;
    hide CursorOk;
    hide FreeBlocks;
    hide ErasedFree;
    hide DeadMarked;
    hide AllWords;
    CountKinds(fs.flash.lu, 0, |fs.flash.lu|);
    assert fs.g.n * (fs.g.blocks - 2) == fs.g.blocks * fs.g.n - 2 * fs.g.n;
  }

  /** Erases a block that has been emptied and settles the statistics. */
  method EraseEmptied(fs: Spiffs, bix: nat, ghost dir: Dir)
    requires fs.Valid() && bix < fs.g.blocks
    requires NoLive(fs.flash, fs.g.BlockStart(bix), fs.g.BlockStart(bix) + fs.g.n)
    requires fs.freeCursorBlock == bix ==> fs.freeCursorEntry == 0
    modifies fs`flash, fs`log, fs`freeBlocks, fs`maxEraseCount, fs`pagesDeleted, fs`pagesAllocated
    ensures fs.Valid()
    ensures fs.Drift() == old(fs.Drift()) + (if FirstFree(fs.g, old(fs.flash).lu, bix) then 1 else 0)
    ensures Linked(fs.g, old(fs.flash), dir) ==> Linked(fs.g, fs.flash, dir) && Meaning(fs.flash, dir) == Meaning(old(fs.flash), dir)
    ensures fs.pagesAllocated == old(fs.pagesAllocated) && fs.freeBlocks == old(fs.freeBlocks) + 1 >= 1
    ensures fs.flash == Erased(fs.g, old(fs.flash), bix, old(fs.maxEraseCount)) && fs.maxEraseCount == NextErase(old(fs.maxEraseCount))
    ensures forall s :: InBlock(fs.g, bix, s) && 0 <= s < fs.g.Total() ==> fs.flash.lu[s] == FREE
    ensures All(fs.flash.lu, Unused) == |FreeOutside(fs.g, bix, old(fs.flash).lu)| + fs.g.n
  {
    hide FreeOutside;
    hide Geometry.Total;
    hide Geometry.BlockStart;
    hide FreeSuffix;
    hide CursorOk;
    hide ErasedFree;
    hide DeadMarked;
    hide All;
    hide FreeBlocks;
    hide FirstFree;
    hide Linked;
    hide Meaning;
    hide Erased;
    hide NoLive;
    ghost var v := fs.flash;
    BlockFits(fs.g, bix);
    NothingLive(fs.g, v, bix);
    EraseSound(fs.g, v, bix, fs.maxEraseCount, fs.freeCursorBlock, fs.freeCursorEntry);
    NoneInUse(fs.g, v, bix);
    ErasedLinked(fs.g, v, bix, fs.maxEraseCount, dir);
    ErasedEntries(fs.g, v, bix, fs.maxEraseCount);
    ErasedFreeEntries(fs.g, v, bix, fs.maxEraseCount);
    ErasePageStats(fs, bix);
    fs.EraseBlock(bix);
  }

  lemma ErasedFreeEntries(g: Geometry, v: Flash, b: nat, count: int)
    requires Shaped(g, v) && b < g.blocks
    ensures All(Erased(g, v, b, count).lu, Unused) == |FreeOutside(g, b, v.lu)| + g.n
  {
    hide Count;
    hide Geometry.BlockStart;
    hide Geometry.Total;
    BlockFits(g, b);
    var w := Erased(g, v, b, count);
    FreeAround(g, b, w.lu);
    CountAll(w.lu, g.BlockStart(b), g.BlockStart(b) + g.n, Unused);
    assert FreeOutside(g, b, w.lu) == FreeOutside(g, b, v.lu);
  }

  lemma NothingLive(g: Geometry, fl: Flash, b: nat)
    requires NoLive(fl, g.BlockStart(b), g.BlockStart(b) + g.n)
    ensures forall s :: InBlock(g, b, s) && 0 <= s < |fl.lu| ==> !Live(fl.lu[s])
  {
  }

  lemma ErasedEntries(g: Geometry, fl: Flash, b: nat, count: int)
    requires Shaped(g, fl) && b < g.blocks && AllWords(fl.lu)
    ensures var w := Erased(g, fl, b, count);
      Shaped(g, w) && AllWords(w.lu) && forall s :: InBlock(g, b, s) && 0 <= s < g.Total() ==> w.lu[s] == FREE
  {
  }

  /** A block without live entries means nothing. */
  lemma ErasedLinked(g: Geometry, fl: Flash, b: nat, count: int, dir: Dir)
    requires Shaped(g, fl) && b < g.blocks && g.BlockStart(b) + g.n <= |fl.lu| && NoLive(fl, g.BlockStart(b), g.BlockStart(b) + g.n)
    ensures Linked(g, fl, dir) ==> Linked(g, Erased(g, fl, b, count), dir) && Meaning(Erased(g, fl, b, count), dir) == Meaning(fl, dir)
  {
    hide Meaning;
    hide GoodPages;
    hide Locates;
    hide RefsLead;
    hide DataReferred;
    hide Headed;
    if Linked(g, fl, dir) {
      LiveSame(g, fl, Erased(g, fl, b, count), dir);
    }
  }

  /** Collects one block: empties it, settles the statistics, erases it. On a consistent medium it
      succeeds exactly if there is slack, which there is if the estimate of free pages is not
      negative; where it fails one index page may be lost with the pages it refers to. */
  method CollectBlock(fs: Spiffs, bix: nat, ghost dir0: Dir)
    returns (res: Status, ghost loss: Loss, ghost dir: Dir)
    requires fs.Valid() && bix < fs.g.blocks
    modifies fs`flash, fs`log, fs`freeBlocks, fs`maxEraseCount, fs`pagesDeleted, fs`pagesAllocated
    modifies fs`freeCursorBlock, fs`freeCursorEntry, fs`fds, fs`cursorBlock, fs`cursorEntry, fs`cleaning
    ensures Inner(res)
    ensures fs.Valid() && !fs.cleaning
    ensures fs.Drift() >= old(fs.Drift())
    ensures res == OK ==> fs.freeBlocks >= 1 && forall s :: InBlock(fs.g, bix, s) && 0 <= s < fs.g.Total() ==> fs.flash.lu[s] == FREE
    ensures Consistent(fs.g, old(fs.flash), dir0, old(fs.fds)) ==>
      && Survived(fs.g, old(fs.flash), dir0, old(fs.fds), fs.flash, loss, dir, fs.fds)
      && (res == OK ==> loss == NoLoss && fs.pagesAllocated == old(fs.pagesAllocated))
      && (res == OK <==> SlackOf(fs.g, bix, old(fs.flash).lu, dir0, {}) >= 0)
      && (old(FreePages(fs)) >= 0 ==> res == OK)
      && (res == OK ==> FreePages(fs) == old(FreePages(fs)) + Gain(fs.g, bix, old(fs.flash).lu, dir0))
    ensures res == OK ==> fs.flash.counts == old(fs.flash).counts[bix := old(fs.maxEraseCount)] && fs.maxEraseCount == NextErase(old(fs.maxEraseCount))
    ensures res == OK ==> DataStays(fs.g, bix, old(fs.flash).lu, fs.flash.lu)
    ensures Consistent(fs.g, old(fs.flash), dir0, old(fs.fds)) && OneFree(old(fs.flash).lu) && !NoData(old(fs.flash), fs.g.BlockStart(bix), fs.g.BlockStart(bix) + fs.g.n) ==>
      loss.Unstored?
    ensures Consistent(fs.g, old(fs.flash), dir0, old(fs.fds)) && Rotates(fs.g, old(fs.flash).lu, old(fs.freeCursorBlock), old(fs.freeCursorEntry), bix) ==>
      && res == OK && fs.freeBlocks == old(fs.freeBlocks)
      && Turned(fs.g, old(fs.flash), old(fs.maxEraseCount), old(fs.freeCursorBlock), old(fs.freeCursorEntry), bix, fs.flash, fs.maxEraseCount, fs.freeCursorBlock, fs.freeCursorEntry)
    ensures Consistent(fs.g, old(fs.flash), dir0, old(fs.fds)) && AllFree(old(fs.flash).lu) ==>
      res == OK && fs.Drift() == old(fs.Drift()) + 1
  {
    hide Inner;
    hide Lower;
    hide Spiffs.Valid;
    hide Rotates;
    hide Turned;
    hide Emptying;
    hide FirstFree;
    hide Erased;
    hide FreeSuffix;
    hide CursorOk;
    hide All;
    hide FreeBlocks;
    hide FreePages;
    hide SlackOf;
    hide Linked;
    hide FdsOk;
    hide AllFree;
    hide Meaning;
    hide ErasedFree;
    hide DeadMarked;
    hide NoLive;
    hide NoData;
    hide OneFree;
    hide RealLoss;
    hide OnlyFills;
    hide DataStays;
    hide Gain;
    hide FreeOutside;
    hide NextErase;
    hide MapsOk;
    hide Mapless;
    hide Calm;
    hide AllWords;
    hide Geometry.Total;
    hide Geometry.BlockStart;
    OkInner();
    ValidShape(fs);
    FreePagesCount(fs);
    if Linked(fs.g, fs.flash, dir0) {
      SlackGain(fs.g, bix, fs.flash, dir0);
      if FreePages(fs) >= 0 {
        ReserveSuffices(fs.g, bix, fs.flash, dir0);
      }
    }
    if Consistent(fs.g, fs.flash, dir0, fs.fds) && AllFree(fs.flash.lu) {
      NothingToDo(fs.g, bix, fs.flash, dir0);
    }
    ghost var v := fs.flash;
    fs.cleaning := true;
    res, loss, dir := Clean(fs, bix, dir0);
    fs.cleaning := false;
    ValidShape(fs);
    OnlyFree(v, fs.flash, fs.g, bix, fs.maxEraseCount);
    if Consistent(fs.g, v, dir0, old(fs.fds)) && Rotates(fs.g, v.lu, old(fs.freeCursorBlock), old(fs.freeCursorEntry), bix) {
      ErasedTurned(fs.g, v, fs.flash, fs.maxEraseCount, NextErase(fs.maxEraseCount), old(fs.freeCursorBlock), old(fs.freeCursorEntry), bix, fs.freeCursorBlock, fs.freeCursorEntry);
    }
    if res == OK {
      EraseEmptied(fs, bix, dir);
      NoLossYet(fs.flash);
      FreePagesCount(fs);
    }
  }

  /** On an erased medium there is nothing to move. */
  lemma NothingToDo(g: Geometry, b: nat, fl: Flash, dir: Dir)
    requires Linked(g, fl, dir) && AllFree(fl.lu)
    ensures SlackOf(g, b, fl.lu, dir, {}) >= 0
  {
    hide SlackOf;
    hide RefsLead;
    hide DataReferred;
    hide InBlock;
    EmptySlack(g, b, fl.lu, dir);
  }

  lemma OnlyFree(v: Flash, w: Flash, g: Geometry, b: nat, count: int)
    requires Shaped(g, v) && OnlyFills(g, b, v, w) && b < g.blocks
    ensures AllFree(v.lu) ==> w == v && FirstFree(g, w.lu, b)
    ensures b < |w.counts| && Erased(g, w, b, count).counts == v.counts[b := count] && DataStays(g, b, v.lu, Erased(g, w, b, count).lu)
  {
    hide Geometry.BlockStart;
    hide Geometry.Total;
    BlockFits(g, b);
  }

  /** Why a collection of block `bix` failed: from a medium that means the same as `v` there was no
      slack for it, and less than the two blocks in reserve was free. */
  ghost predicate TooTight(g: Geometry, v: Flash, dir0: Dir, w: Flash, dir: Dir, bix: nat) {
    && Linked(g, w, dir) && Meaning(w, dir) == Meaning(v, dir0) && bix < g.blocks
    && SlackOf(g, bix, w.lu, dir, {}) < 0 && All(w.lu, Unused) < 2 * g.n
  }

  /** From medium `v` on some collection failed. */
  ghost predicate Jammed(g: Geometry, v: Flash, dir0: Dir) {
    exists mid, dir1, bix :: TooTight(g, v, dir0, mid, dir1, bix)
  }

  lemma NoneInUse(g: Geometry, fl: Flash, b: nat)
    requires Shaped(g, fl) && g.BlockStart(b) + g.n <= |fl.lu| && NoLive(fl, g.BlockStart(b), g.BlockStart(b) + g.n)
    ensures Count(fl.lu, g.BlockStart(b), g.BlockStart(b) + g.n, InUse) == 0
  {
    CountNone(fl.lu, g.BlockStart(b), g.BlockStart(b) + g.n, InUse);
  }

  /** The pages that can be allocated for certain are part of the estimate. */
  lemma SpareIsFree(fs: Spiffs)
    requires fs.Valid() && fs.Spare() >= 1
    ensures FreePages(fs) >= fs.Spare() - 1 && (fs.Spare() >= Plenty(fs.g) ==> fs.freeBlocks > 3)
  {
    hide ErasedFree;
    hide DeadMarked;
    hide AllWords;
    hide FreeSuffix;
    hide All;
    hide FreeBlocks;
    hide FreePages;
    hide Geometry.Total;
    hide Geometry.BlockStart;
    FreePagesCount(fs);
    BlockFits(fs.g, 0);
    TailEntries(fs.g, fs.flash.lu, fs.g.blocks, fs.freeCursorBlock, fs.freeCursorEntry);
    AllIs(fs.flash.lu);
    RoomBlocks(fs.g, fs.freeBlocks, fs.freeCursorEntry);
    assert (fs.freeBlocks - 2) * fs.g.n == fs.freeBlocks * fs.g.n - 2 * fs.g.n;
  }

  lemma AllIs(lu: seq<int>)
    ensures All(lu, Unused) == Count(lu, 0, |lu|, Unused)
  {
  }

  /** One entry is free, and there is a data page in every block: whichever is collected, the data page
      goes to the free entry, and its index page has nowhere to go. */
  ghost predicate Doomed(g: Geometry, fl: Flash) {
    OneFree(fl.lu) && forall b :: 0 <= b < g.blocks ==> !NoData(fl, g.BlockStart(b), g.BlockStart(b) + g.n)
  }

  /** Room for `len` bytes is made by collecting blocks: there is not plenty, and with the deleted pages
      there could be enough. */
  predicate Collects(fs: Spiffs, len: nat)
    requires fs.g.Valid()
    reads fs
  {
    && !(fs.freeBlocks > 3 && len < FreePages(fs) * fs.g.dps)
    && (len + fs.g.dps - 1) / fs.g.dps <= FreePages(fs) + fs.pagesDeleted
  }

  /** Room for `len` bytes is made, and the collections get nowhere. */
  ghost predicate Idles(fs: Spiffs, len: nat)
    requires fs.g.Valid()
    reads fs
  {
    && Circles(fs.g, fs.flash, fs.maxEraseCount, fs.freeCursorBlock, fs.freeCursorEntry, GC_MAX_RUNS)
    && fs.freeBlocks == 1 && 0 < FreePages(fs) && len <= FreePages(fs) * fs.g.dps
  }

  lemma NoneDeleted(lu: seq<int>)
    ensures Undeleted(lu) ==> All(lu, Gone) == 0
  {
    if Undeleted(lu) {
      CountNone(lu, 0, |lu|, Gone);
    }
  }

  lemma AmongFree(len: nat, pages: int, dps: nat)
    requires dps > 0 && len <= pages * dps
    ensures (len + dps - 1) / dps <= pages
  {
    if (len + dps - 1) / dps > pages {
      Times(pages + 1, (len + dps - 1) / dps, dps);
    }
  }

  /** Collects the block that comes first. The estimate of free pages changes by its gain. */
  method CollectBest(fs: Spiffs, maxCandidates: nat, crammed: bool, ghost m: nat, ghost dir0: Dir)
    returns (res: Status, ghost best: nat, ghost loss: Loss, ghost dir: Dir)
    requires fs.Valid() && !fs.cleaning && maxCandidates > 0
    modifies fs`flash, fs`log, fs`freeBlocks, fs`maxEraseCount, fs`pagesDeleted, fs`pagesAllocated
    modifies fs`freeCursorBlock, fs`freeCursorEntry, fs`fds, fs`cursorBlock, fs`cursorEntry, fs`cleaning
    ensures Inner(res)
    ensures fs.Valid() && !fs.cleaning && fs.Drift() >= old(fs.Drift())
    ensures best < fs.g.blocks && Candidates.Foremost(fs.g, old(fs.flash), old(fs.maxEraseCount), crammed, best)
    ensures res == OK ==>
      && fs.freeBlocks >= 1 && (forall s :: InBlock(fs.g, best, s) && 0 <= s < fs.g.Total() ==> fs.flash.lu[s] == FREE)
      && fs.flash.counts == old(fs.flash).counts[best := old(fs.maxEraseCount)] && fs.maxEraseCount == NextErase(old(fs.maxEraseCount))
      && DataStays(fs.g, best, old(fs.flash).lu, fs.flash.lu)
    ensures Consistent(fs.g, old(fs.flash), dir0, old(fs.fds)) ==>
      && Survived(fs.g, old(fs.flash), dir0, old(fs.fds), fs.flash, loss, dir, fs.fds)
      && (res == OK ==> loss == NoLoss && FreePages(fs) == old(FreePages(fs)) + Gain(fs.g, best, old(fs.flash).lu, dir0) >= old(FreePages(fs)) - fs.g.n)
      && (old(FreePages(fs)) >= 0 ==> res == OK)
      && (res != OK ==> exists bix :: TooTight(fs.g, old(fs.flash), dir0, old(fs.flash), dir0, bix))
      && (Doomed(fs.g, old(fs.flash)) ==> loss.Unstored?)
      && (AllFree(old(fs.flash).lu) ==> res == OK && fs.Drift() == old(fs.Drift()) + 1)
      && (m > 0 && !crammed && Circles(fs.g, old(fs.flash), old(fs.maxEraseCount), old(fs.freeCursorBlock), old(fs.freeCursorEntry), m) ==>
            && res == OK && fs.freeBlocks == old(fs.freeBlocks) && FreePages(fs) == old(FreePages(fs))
            && Circles(fs.g, fs.flash, fs.maxEraseCount, fs.freeCursorBlock, fs.freeCursorEntry, m - 1))
  {
    hide Inner;
    hide Lower;
    hide Spiffs.Valid;
    hide Spiffs.Drift;
    hide Doomed;
    hide AllFree;
    hide TooTight;
    hide Front;
    hide AllWords;
    hide Circles;
    hide Rotates;
    hide Turned;
    hide Candidates.TopOf;
    hide FreeSuffix;
    hide CursorOk;
    hide All;
    hide FreeBlocks;
    hide Consistent;
    hide Survived;
    hide SlackOf;
    hide Meaning;
    hide OneFree;
    hide NoData;
    hide ErasedFree;
    hide DeadMarked;
    hide FreePages;
    hide Gain;
    hide DataStays;
    hide NextErase;
    hide Candidates.Ranked;
    hide Candidates.Foremost;
    hide Geometry.Total;
    hide Geometry.BlockStart;
    OkInner();
    ValidShape(fs);
    ghost var v, good := fs.flash, Consistent(fs.g, fs.flash, dir0, fs.fds);
    ghost var max, cb, ce := fs.maxEraseCount, fs.freeCursorBlock, fs.freeCursorEntry;
    var cands, count := Candidates.FindCandidate(fs.g, fs.flash, fs.maxEraseCount, maxCandidates, crammed);
    var cand := cands[0];
    FirstInRange(Candidates.Scores(fs.g, fs.flash, fs.maxEraseCount, crammed), cands[..], fs.g.blocks);
    Candidates.FirstForemost(fs.g, fs.flash, fs.maxEraseCount, crammed, cands[..]);
    best := cand;
    DoomedAt(fs.g, v, best);
    if good {
      GainAtLeast(fs.g, best, v, dir0, fs.fds);
    }
    FreePagesCount(fs);
    FreePagesIs(fs);
    ghost var circles := good && m > 0 && !crammed && Circles(fs.g, v, max, cb, ce, m);
    if circles {
      CirclesFirst(fs.g, v, max, cb, ce, m, cands[..], cands.Length);
    }
    res, loss, dir := CollectBlock(fs, cand, dir0);
    if res != OK && good {
      TightNow(fs.g, v, dir0, old(fs.fds), cand);
    }
    if circles {
      CirclesKept(fs.g, v, max, cb, ce, m, fs.flash, fs.maxEraseCount, fs.freeCursorBlock, fs.freeCursorEntry);
      FreePagesIs(fs);
    }
  }

  /** A collection that gets nowhere is of the block in front, and leaves as many to come but one. */
  lemma CirclesFirst(g: Geometry, v: Flash, max: int, cb: nat, ce: nat, m: nat, table: seq<int>, kept: nat)
    requires Shaped(g, v) && Circles(g, v, max, cb, ce, m) && m > 0
    requires Candidates.TopOf(Candidates.Scores(g, v, max, false), table, g.blocks, kept) && kept > 0
    ensures table[0] == Front(g, cb, ce) + 1 && Rotates(g, v.lu, cb, ce, Front(g, cb, ce) + 1)
  {
    hide Circles;
    hide Rotates;
    hide Candidates.TopOf;
    CirclesBest(g, v, max, cb, ce, m, table, kept);
    CirclesRotate(g, v, max, cb, ce, m);
  }

  lemma CirclesKept(g: Geometry, v: Flash, max: int, cb0: nat, ce0: nat, m: nat, w: Flash, max': int, cb: nat, ce: nat)
    requires g.Valid() && Circles(g, v, max, cb0, ce0, m) && m > 0
    requires Turned(g, v, max, cb0, ce0, Front(g, cb0, ce0) + 1, w, max', cb, ce)
    ensures Circles(g, w, max', cb, ce, m - 1) && All(v.lu, Gone) == 0 && All(w.lu, Gone) == 0
  {
    hide Circles;
    hide Turned;
    hide All;
    CirclesOn(g, v, max, cb0, ce0, m, w, max', cb, ce);
    CirclesUndeleted(g, v, max, cb0, ce0, m);
    CirclesUndeleted(g, w, max', cb, ce, m - 1);
  }

  lemma DoomedAt(g: Geometry, fl: Flash, b: nat)
    requires b < g.blocks
    ensures Doomed(g, fl) ==> OneFree(fl.lu) && !NoData(fl, g.BlockStart(b), g.BlockStart(b) + g.n)
  {
    hide OneFree;
    hide NoData;
  }

  lemma GainAtLeast(g: Geometry, b: nat, fl: Flash, dir: Dir, fds: seq<Fd>)
    requires Shaped(g, fl) && b < g.blocks && Consistent(g, fl, dir, fds)
    ensures Gain(g, b, fl.lu, dir) + g.n >= 0
  {
    hide Linked;
    hide CountIn;
    hide IndexOutside;
    hide FdsOk;
    BlockPages(g, b, fl, dir);
  }

  lemma FreePagesIs(fs: Spiffs)
    requires fs.Valid()
    ensures FreePages(fs) == fs.g.n * (fs.g.blocks - 2) - fs.pagesAllocated - All(fs.flash.lu, Gone)
  {
    hide All;
    hide FreeSuffix;
    hide FreeBlocks;
    hide ErasedFree;
    hide DeadMarked;
  }

  lemma CirclesUndeleted(g: Geometry, fl: Flash, max: int, cb: nat, ce: nat, m: nat)
    requires Circles(g, fl, max, cb, ce, m)
    ensures Undeleted(fl.lu) && All(fl.lu, Gone) == 0
  {
    NoneDeleted(fl.lu);
  }

  lemma TightNow(g: Geometry, v: Flash, dir: Dir, fds: seq<Fd>, bix: nat)
    requires Consistent(g, v, dir, fds) && bix < g.blocks && SlackOf(g, bix, v.lu, dir, {}) < 0 && All(v.lu, Unused) < 2 * g.n
    ensures TooTight(g, v, dir, v, dir, bix)
  {
  }

  lemma TightOn(g: Geometry, u: Flash, dir0: Dir, fds0: seq<Fd>, v: Flash, dir: Dir, fds: seq<Fd>)
    requires Survived(g, u, dir0, fds0, v, NoLoss, dir, fds) && exists bix :: TooTight(g, v, dir, v, dir, bix)
    ensures Jammed(g, u, dir0)
  {
    var bix :| TooTight(g, v, dir, v, dir, bix);
    assert TooTight(g, u, dir0, v, dir, bix);
  }

  // The rounds of one room check.

  /** One round: the block collected, by how much the free entries grew, and how many blocks are counted
      free after it. */
  datatype Round = Round(block: nat, gain: int, blocks: int)

  /** The estimate of free pages after some rounds, from estimate `f` before them. */
  ghost function Estimate(f: int, rounds: seq<Round>): int {
    if rounds == [] then f else Estimate(f, rounds[..|rounds| - 1]) + rounds[|rounds| - 1].gain
  }

  /** The estimate drops only if some round had a negative gain. */
  lemma {:induction false} EstimateDrops(f: int, rounds: seq<Round>)
    ensures Estimate(f, rounds) < f ==> exists r :: r in rounds && r.gain < 0
  {
    if rounds != [] {
      var last := rounds[|rounds| - 1];
      assert last in rounds;
      EstimateDrops(f, rounds[..|rounds| - 1]);
    }
  }

  /** Another round follows: fewer than five were made, at most two blocks are free or the room does not do,
      and the last round was not without result on a crammed medium. */
  ghost predicate GoesOn(g: Geometry, len: nat, f: int, rounds: seq<Round>) {
    rounds == [] ||
    var last, before := rounds[|rounds| - 1], Estimate(f, rounds[..|rounds| - 1]);
    && |rounds| < 5 && (last.blocks <= 2 || len > Estimate(f, rounds) * g.dps)
    && !(before <= 0 && last.gain == 0)
  }

  /** These rounds were made, from estimate `f`, to make room for `len` bytes: one after the other as long as
      another followed. */
  ghost predicate Made(g: Geometry, len: nat, f: int, rounds: seq<Round>) {
    forall i {:trigger rounds[..i]} :: 0 <= i < |rounds| ==> GoesOn(g, len, f, rounds[..i])
  }

  lemma MadeOne(g: Geometry, len: nat, f: int, rounds: seq<Round>, r: Round)
    requires Made(g, len, f, rounds) && GoesOn(g, len, f, rounds)
    ensures Made(g, len, f, rounds + [r]) && Estimate(f, rounds + [r]) == Estimate(f, rounds) + r.gain
    ensures GoesOn(g, len, f, rounds + [r]) <==>
      && |rounds| + 1 < GC_MAX_RUNS && (r.blocks <= 2 || len > (Estimate(f, rounds) + r.gain) * g.dps) && !(Estimate(f, rounds) <= 0 && r.gain == 0)
  {
    hide GoesOn;
    var all := rounds + [r];
    assert all[..|all| - 1] == rounds;
    forall i | 0 <= i < |all|
      ensures GoesOn(g, len, f, all[..i])
    {
      assert all[..i] == if i < |rounds| then rounds[..i] else rounds;
    }
    OneMore(g, len, f, rounds, r);
  }

  lemma OneMore(g: Geometry, len: nat, f: int, rounds: seq<Round>, r: Round)
    ensures Estimate(f, rounds + [r]) == Estimate(f, rounds) + r.gain
    ensures GoesOn(g, len, f, rounds + [r]) <==>
      && |rounds| + 1 < GC_MAX_RUNS && (r.blocks <= 2 || len > (Estimate(f, rounds) + r.gain) * g.dps) && !(Estimate(f, rounds) <= 0 && r.gain == 0)
  {
    assert (rounds + [r])[..|rounds + [r]| - 1] == rounds;
  }

  /** The free entries, but for two blocks' worth of them, hold `len` bytes. */
  ghost predicate Holds(g: Geometry, lu: seq<int>, len: nat) {
    len <= (All(lu, Unused) - 2 * g.n) * g.dps
  }

  /** Room for more bytes is room for fewer. */
  lemma HoldsLess(g: Geometry, lu: seq<int>, less: nat, len: nat)
    requires less <= len
    ensures Holds(g, lu, len) ==> Holds(g, lu, less)
  {
  }

  /** There is room to spare for `len` bytes, whichever blocks are collected. */
  predicate Ample(fs: Spiffs, len: nat)
    reads fs
  {
    len <= (FreePages(fs) - GC_MAX_RUNS * fs.g.n) * fs.g.dps
  }

  /** An estimate of `free` pages holds `len` bytes, but not with one page less, and the five blocks behind
      block `a` come first and lose room. */
  ghost predicate Falls(g: Geometry, len: nat, fl: Flash, max: int, free: int, a: nat) {
    && Drains(g, fl, max, a, GC_MAX_RUNS) && max + GC_MAX_RUNS < IX_FLAG
    && free >= GC_MAX_RUNS * g.n && (free - 1) * g.dps < len <= free * g.dps
  }

  /** There is just room, and making it loses it. */
  ghost predicate Dwindles(fs: Spiffs, len: nat)
    requires fs.g.Valid()
    reads fs
  {
    Collects(fs, len) && exists a: nat :: Falls(fs.g, len, fs.flash, fs.maxEraseCount, FreePages(fs), a)
  }

  lemma AmpleLess(fs: Spiffs, less: nat, len: nat)
    requires less <= len
    ensures Ample(fs, len) ==> Ample(fs, less)
  {
  }

  /** Where a room check stands: the medium and what is known of it. */
  datatype Stand = Stand(fl: Flash, dir: Dir, fds: seq<Fd>, max: int, cb: nat, ce: nat, free: int, blocks: int, drift: int)

  ghost function Now(fs: Spiffs, dir: Dir): Stand
    requires Shaped(fs.g, fs.flash)
    reads fs
  {
    Stand(fs.flash, dir, fs.fds, fs.maxEraseCount, fs.freeCursorBlock, fs.freeCursorEntry, FreePages(fs), fs.freeBlocks, fs.Drift())
  }

  /** Block `best` was collected, as one of `m` that get nowhere or lose room, if there are so many to come. */
  ghost predicate Collected(g: Geometry, s: Stand, t: Stand, best: nat, a: nat, m: nat)
    requires Shaped(g, s.fl)
  {
    && Candidates.Foremost(g, s.fl, s.max, s.free <= 0, best) && t.drift >= s.drift && t.blocks >= 1
    && (Consistent(g, s.fl, s.dir, s.fds) ==>
         && Survived(g, s.fl, s.dir, s.fds, t.fl, NoLoss, t.dir, t.fds) && !Doomed(g, s.fl) && (AllFree(s.fl.lu) ==> t.drift == s.drift + 1)
         && t.free == s.free + Gain(g, best, s.fl.lu, s.dir) >= s.free - g.n
         && (m > 0 && s.free > 0 && Circles(g, s.fl, s.max, s.cb, s.ce, m) ==> t.blocks == s.blocks && t.free == s.free && Circles(g, t.fl, t.max, t.cb, t.ce, m - 1))
         && (m > 0 && s.free > 0 && s.max + m < IX_FLAG && Drains(g, s.fl, s.max, a, m) ==> t.free < s.free && t.max == s.max + 1 && Drains(g, t.fl, t.max, a + 1, m - 1)))
  }

  /** One round more: collects the best candidate. */
  method CollectNext(fs: Spiffs, maxCandidates: nat, crammed: bool, ghost len: nat, ghost s0: Stand, ghost a0: nat, ghost tries: nat, ghost rounds: seq<Round>, ghost dir0: Dir)
    returns (res: Status, ghost best: nat, ghost loss: Loss, ghost dir: Dir)
    requires fs.Valid() && !fs.cleaning && maxCandidates > 0 && crammed == (FreePages(fs) <= 0) && tries < GC_MAX_RUNS
    requires Shaped(fs.g, s0.fl) && Shaped(fs.g, fs.flash) && Reached(fs.g, len, s0, Now(fs, dir0), tries, true, rounds) && Led(fs.g, len, s0, Now(fs, dir0), a0, tries, true, rounds)
    modifies fs`flash, fs`log, fs`freeBlocks, fs`maxEraseCount, fs`pagesDeleted, fs`pagesAllocated
    modifies fs`freeCursorBlock, fs`freeCursorEntry, fs`fds, fs`cursorBlock, fs`cursorEntry, fs`cleaning
    ensures Inner(res)
    ensures fs.Valid() && Shaped(fs.g, fs.flash) && !fs.cleaning && fs.Drift() >= old(fs.Drift())
    ensures rounds == [] ==> Candidates.Foremost(fs.g, s0.fl, s0.max, s0.free <= 0, best)
    ensures res == OK ==> Collected(fs.g, old(Now(fs, dir0)), Now(fs, dir), best, a0 + tries, GC_MAX_RUNS - tries)
    ensures res != OK ==> Stopped(fs.g, len, s0, a0, Now(fs, dir), loss)
  {
    hide Inner;
    hide Lower;
    hide Spiffs.Valid;
    hide Spiffs.Drift;
    hide Circles;
    hide FreeSuffix;
    hide CursorOk;
    hide All;
    hide FreeBlocks;
    hide Consistent;
    hide Survived;
    hide Gain;
    hide OneFree;
    hide NoData;
    hide AllFree;
    hide Doomed;
    hide Drains;
    hide DataStays;
    hide ErasedFree;
    hide DeadMarked;
    hide TooTight;
    hide FreePages;
    hide Candidates.Foremost;
    hide Reached;
    hide Led;
    hide Stopped;
    hide Geometry.Total;
    hide Geometry.BlockStart;
    OkInner();
    ghost var s, a, m := Now(fs, dir0), a0 + tries, GC_MAX_RUNS - tries;
    ReachedFirst(fs.g, len, s0, s, tries, rounds);
    ghost var v, max, drains := fs.flash, fs.maxEraseCount, m > 0 && !crammed && fs.maxEraseCount + m < IX_FLAG && Drains(fs.g, fs.flash, fs.maxEraseCount, a, m);
    if drains && Consistent(fs.g, v, dir0, fs.fds) {
      DrainsLoses(fs.g, v, max, a, m, dir0, fs.fds);
    }
    res, best, loss, dir := CollectBest(fs, maxCandidates, crammed, m, dir0);
    ValidShape(fs);
    if drains {
      DrainsBest(fs.g, v, max, a, m, best);
      if res == OK {
        DrainsOn(fs.g, v, max, a, m, fs.flash);
      }
    }
    if res != OK {
      ReachedStop(fs.g, len, s0, s, a0, tries, rounds, Now(fs, dir), loss);
    }
  }

  /** After `rounds`, from where it stood at `s0`, the check stands at `s`. */
  ghost predicate Reached(g: Geometry, len: nat, s0: Stand, s: Stand, tries: nat, again: bool, rounds: seq<Round>)
    requires Shaped(g, s0.fl)
  {
    && Made(g, len, s0.free, rounds) && (again <==> GoesOn(g, len, s0.free, rounds)) && s.free == Estimate(s0.free, rounds)
    && tries <= GC_MAX_RUNS && (again ==> tries < GC_MAX_RUNS && tries == |rounds|) && s.drift >= s0.drift
    && (rounds == [] ==> again && s == s0)
    && (rounds != [] ==> s.blocks == rounds[|rounds| - 1].blocks >= 1 && Candidates.Foremost(g, s0.fl, s0.max, s0.free <= 0, rounds[0].block))
    && (Consistent(g, s0.fl, s0.dir, s0.fds) ==>
         && Survived(g, s0.fl, s0.dir, s0.fds, s.fl, NoLoss, s.dir, s.fds)
         && (rounds != [] ==> rounds[0].gain == Gain(g, rounds[0].block, s0.fl.lu, s0.dir) && !Doomed(g, s0.fl) && (AllFree(s0.fl.lu) ==> s.drift > s0.drift)))
  }

  /** And that it got nowhere, or lost room, or kept some. */
  ghost predicate Led(g: Geometry, len: nat, s0: Stand, s: Stand, a: nat, tries: nat, again: bool, rounds: seq<Round>)
    requires Shaped(g, s0.fl)
  {
    Consistent(g, s0.fl, s0.dir, s0.fds) ==>
      && (Turns(g, len, s0) ==> tries == |rounds| <= GC_MAX_RUNS && Circles(g, s.fl, s.max, s.cb, s.ce, GC_MAX_RUNS - tries) && s.blocks == 1 && s.free == s0.free && (again <==> tries < GC_MAX_RUNS))
      && (s0.free >= GC_MAX_RUNS * g.n ==> |rounds| <= GC_MAX_RUNS && s.free >= s0.free - |rounds| * g.n)
      && (Falls(g, len, s0.fl, s0.max, s0.free, a) ==> tries == |rounds| <= GC_MAX_RUNS && Drains(g, s.fl, s.max, a + tries, GC_MAX_RUNS - tries) && s.max == s0.max + tries && s.free <= s0.free - tries && (again <==> tries < GC_MAX_RUNS))
  }

  ghost predicate Turns(g: Geometry, len: nat, s: Stand) {
    Circles(g, s.fl, s.max, s.cb, s.ce, GC_MAX_RUNS) && s.blocks == 1 && 0 < s.free && len <= s.free * g.dps
  }

  lemma ReachedNone(g: Geometry, len: nat, s: Stand, a: nat)
    requires Shaped(g, s.fl)
    ensures Reached(g, len, s, s, 0, true, []) && Led(g, len, s, s, a, 0, true, [])
  {
    hide Consistent;
    MadeNone(g, len, s.free);
    if Consistent(g, s.fl, s.dir, s.fds) {
      SurvivedNone(g, s.fl, s.dir, s.fds);
    }
  }

  /** Whether another round follows. */
  predicate Again(g: Geometry, len: nat, prev: int, free: int, blocks: int, tries: nat) {
    !(prev <= 0 && prev == free) && tries + 1 < GC_MAX_RUNS && (blocks <= 2 || len > free * g.dps)
  }

  lemma ReachedOn(g: Geometry, len: nat, s0: Stand, s: Stand, t: Stand, best: nat, a: nat, m: nat, tries: nat, rounds: seq<Round>)
    requires Shaped(g, s0.fl) && Shaped(g, s.fl) && Reached(g, len, s0, s, tries, true, rounds) && Collected(g, s, t, best, a, m)
    ensures
      var again := Again(g, len, s.free, t.free, t.blocks, tries);
      Reached(g, len, s0, t, if s.free <= 0 && s.free == t.free then tries else tries + 1, again, rounds + [Round(best, t.free - s.free, t.blocks)])
  {
    hide Consistent;
    hide Survived;
    hide Gain;
    hide Doomed;
    hide AllFree;
    hide Circles;
    hide Drains;
    hide Made;
    hide Estimate;
    hide GoesOn;
    hide Candidates.Foremost;
    MadeOne(g, len, s0.free, rounds, Round(best, t.free - s.free, t.blocks));
    if Consistent(g, s0.fl, s0.dir, s0.fds) {
      SurvivedOn(g, s0.fl, s0.dir, s0.fds, s.fl, s.dir, s.fds, t.fl, NoLoss, t.dir, t.fds);
    }
  }

  lemma LedOn(g: Geometry, len: nat, s0: Stand, s: Stand, t: Stand, best: nat, a: nat, tries: nat, rounds: seq<Round>)
    requires Shaped(g, s0.fl) && Shaped(g, s.fl) && Reached(g, len, s0, s, tries, true, rounds) && Led(g, len, s0, s, a, tries, true, rounds)
    requires tries < GC_MAX_RUNS && Collected(g, s, t, best, a + tries, GC_MAX_RUNS - tries)
    ensures
      var again := Again(g, len, s.free, t.free, t.blocks, tries);
      Led(g, len, s0, t, a, if s.free <= 0 && s.free == t.free then tries else tries + 1, again, rounds + [Round(best, t.free - s.free, t.blocks)])
  {
    hide Consistent;
    hide Survived;
    hide Gain;
    hide Doomed;
    hide AllFree;
    hide Circles;
    hide Drains;
    hide Made;
    hide Estimate;
    hide GoesOn;
    hide Candidates.Foremost;
    if Consistent(g, s0.fl, s0.dir, s0.fds) {
      SurvivedOn(g, s0.fl, s0.dir, s0.fds, s.fl, s.dir, s.fds, s.fl, NoLoss, s.dir, s.fds);
      Narrower(tries, g.n);
      Shrunk(t.free, s0.free, g.dps);
    }
  }

  lemma ReachedFirst(g: Geometry, len: nat, s0: Stand, s: Stand, tries: nat, rounds: seq<Round>)
    requires Shaped(g, s0.fl) && Reached(g, len, s0, s, tries, true, rounds)
    ensures s.drift >= s0.drift && (rounds == [] ==> s == s0)
    ensures rounds != [] ==> Candidates.Foremost(g, s0.fl, s0.max, s0.free <= 0, rounds[0].block)
  {
  }

  /** A round failed. */
  lemma ReachedStop(g: Geometry, len: nat, s0: Stand, s: Stand, a: nat, tries: nat, rounds: seq<Round>, t: Stand, loss: Loss)
    requires Shaped(g, s0.fl) && Reached(g, len, s0, s, tries, true, rounds) && Led(g, len, s0, s, a, tries, true, rounds) && t.drift >= s.drift
    requires Consistent(g, s.fl, s.dir, s.fds) ==>
      && Survived(g, s.fl, s.dir, s.fds, t.fl, loss, t.dir, t.fds) && s.free < 0 && !AllFree(s.fl.lu) && (Doomed(g, s.fl) ==> loss.Unstored?)
      && exists bix :: TooTight(g, s.fl, s.dir, s.fl, s.dir, bix)
    ensures Stopped(g, len, s0, a, t, loss)
  {
    hide Consistent;
    hide Survived;
    hide Gain;
    hide Doomed;
    hide AllFree;
    hide Circles;
    hide Drains;
    hide Made;
    hide Estimate;
    hide GoesOn;
    hide TooTight;
    hide Jammed;
    hide Candidates.Foremost;
    if Consistent(g, s0.fl, s0.dir, s0.fds) {
      SurvivedOn(g, s0.fl, s0.dir, s0.fds, s.fl, s.dir, s.fds, t.fl, loss, t.dir, t.fds);
      TightOn(g, s0.fl, s0.dir, s0.fds, s.fl, s.dir, s.fds);
      RoundsLeft(|rounds|, g.n);
    }
  }

  lemma ReachedAny(g: Geometry, len: nat, s0: Stand, s: Stand, tries: nat, rounds: seq<Round>)
    requires Shaped(g, s0.fl) && Reached(g, len, s0, s, tries, false, rounds)
    ensures rounds != [] && s.drift >= s0.drift && Candidates.Foremost(g, s0.fl, s0.max, s0.free <= 0, rounds[0].block)
  {
  }

  lemma RoundsLeft(k: nat, n: nat)
    requires k <= GC_MAX_RUNS
    ensures k * n <= GC_MAX_RUNS * n
  {
    Times(k, GC_MAX_RUNS, n);
  }

  /** No other round follows. */
  lemma ReachedEnd(g: Geometry, len: nat, s0: Stand, s: Stand, a: nat, tries: nat, rounds: seq<Round>)
    requires Shaped(g, s0.fl) && Reached(g, len, s0, s, tries, false, rounds) && Led(g, len, s0, s, a, tries, false, rounds)
    ensures rounds != [] && Made(g, len, s0.free, rounds) && !GoesOn(g, len, s0.free, rounds) && s.free == Estimate(s0.free, rounds)
    ensures s.drift >= s0.drift && s.blocks == rounds[|rounds| - 1].blocks >= 1 && Candidates.Foremost(g, s0.fl, s0.max, s0.free <= 0, rounds[0].block)
    ensures Consistent(g, s0.fl, s0.dir, s0.fds) ==>
      && Survived(g, s0.fl, s0.dir, s0.fds, s.fl, NoLoss, s.dir, s.fds) && !Doomed(g, s0.fl) && (AllFree(s0.fl.lu) ==> s.drift > s0.drift)
      && rounds[0].gain == Gain(g, rounds[0].block, s0.fl.lu, s0.dir)
      && (Turns(g, len, s0) ==> s.blocks == 1 && Undeleted(s.fl.lu) && s.free == s0.free)
      && (s0.free >= GC_MAX_RUNS * g.n ==> s.free >= s0.free - GC_MAX_RUNS * g.n)
      && (Falls(g, len, s0.fl, s0.max, s0.free, a) ==> s.free < s0.free)
  {
    hide Consistent;
    hide Survived;
    hide Gain;
    hide Doomed;
    hide AllFree;
    hide Circles;
    hide Drains;
    hide Made;
    hide Estimate;
    hide GoesOn;
    hide Candidates.Foremost;
    if Consistent(g, s0.fl, s0.dir, s0.fds) {
      if |rounds| <= GC_MAX_RUNS {
        RoundsLeft(|rounds|, g.n);
      }
      if Turns(g, len, s0) {
        CirclesUndeleted(g, s.fl, s.max, s.cb, s.ce, 0);
      }
    }
  }

  /** A round was made, and it was settled whether another follows. */
  lemma RoundOn(g: Geometry, len: nat, s0: Stand, s: Stand, t: Stand, best: nat, a: nat, tries: nat, tries': nat, again: bool, rounds: seq<Round>)
    requires Shaped(g, s0.fl) && Shaped(g, s.fl) && Reached(g, len, s0, s, tries, true, rounds) && Led(g, len, s0, s, a, tries, true, rounds)
    requires tries < GC_MAX_RUNS && Collected(g, s, t, best, a + tries, GC_MAX_RUNS - tries)
    requires if s.free <= 0 && s.free == t.free then tries' == tries && !again
      else tries' == tries + 1 && again == (tries' < GC_MAX_RUNS && (t.blocks <= 2 || len > t.free * g.dps))
    ensures Reached(g, len, s0, t, tries', again, rounds + [Round(best, t.free - s.free, t.blocks)])
    ensures Led(g, len, s0, t, a, tries', again, rounds + [Round(best, t.free - s.free, t.blocks)])
  {
    hide Reached;
    hide Led;
    hide Collected;
    ReachedOn(g, len, s0, s, t, best, a + tries, GC_MAX_RUNS - tries, tries, rounds);
    LedOn(g, len, s0, s, t, best, a, tries, rounds);
  }

  /** Where the blocks are that lose room. */
  lemma FallsAt(fs: Spiffs, len: nat) returns (a: nat)
    requires fs.g.Valid()
    ensures Dwindles(fs, len) ==> Falls(fs.g, len, fs.flash, fs.maxEraseCount, FreePages(fs), a)
  {
    hide Falls;
    a := 0;
    if Dwindles(fs, len) {
      a :| Falls(fs.g, len, fs.flash, fs.maxEraseCount, FreePages(fs), a);
    }
  }

  /** Why the rounds stopped: from `s0`, with medium and descriptors as in `t`. */
  ghost predicate Stopped(g: Geometry, len: nat, s0: Stand, a: nat, t: Stand, loss: Loss) {
    Consistent(g, s0.fl, s0.dir, s0.fds) ==>
      && Survived(g, s0.fl, s0.dir, s0.fds, t.fl, loss, t.dir, t.fds) && (Doomed(g, s0.fl) ==> loss.Unstored?) && (AllFree(s0.fl.lu) ==> t.drift > s0.drift)
      && Jammed(g, s0.fl, s0.dir)
      && !Turns(g, len, s0) && s0.free < GC_MAX_RUNS * g.n && !Falls(g, len, s0.fl, s0.max, s0.free, a)
  }

  /** Collects block after block until there is room for `len` bytes, at least one and at most five. */
  method CollectRounds(fs: Spiffs, len: nat, maxCandidates: nat, ghost a: nat, ghost dir0: Dir)
    returns (res: Status, ghost rounds: seq<Round>, ghost first: nat, tries: nat, ghost loss: Loss, ghost dir: Dir)
    requires fs.Valid() && !fs.cleaning && maxCandidates > 0 && Shaped(fs.g, fs.flash)
    modifies fs`flash, fs`log, fs`freeBlocks, fs`maxEraseCount, fs`pagesDeleted, fs`pagesAllocated
    modifies fs`freeCursorBlock, fs`freeCursorEntry, fs`fds, fs`cursorBlock, fs`cursorEntry, fs`cleaning
    ensures Inner(res)
    ensures fs.Valid() && Shaped(fs.g, fs.flash) && !fs.cleaning && fs.Drift() >= old(fs.Drift())
    ensures Candidates.Foremost(fs.g, old(fs.flash), old(fs.maxEraseCount), old(FreePages(fs)) <= 0, first)
    ensures res == OK ==> loss == NoLoss && rounds != [] && first == rounds[0].block
    ensures res == OK ==> Reached(fs.g, len, old(Now(fs, dir0)), Now(fs, dir), tries, false, rounds) && Led(fs.g, len, old(Now(fs, dir0)), Now(fs, dir), a, tries, false, rounds)
    ensures res != OK ==> Stopped(fs.g, len, old(Now(fs, dir0)), a, Now(fs, dir), loss)
  {
    hide Inner;
    hide Spiffs.Valid;
    hide Spiffs.Drift;
    hide Circles;
    hide Drains;
    hide Consistent;
    hide Survived;
    hide Gain;
    hide Meaning;
    hide AllFree;
    hide Doomed;
    hide TooTight;
    hide Jammed;
    hide FreePages;
    hide Estimate;
    hide GoesOn;
    hide Made;
    hide Reached;
    hide Led;
    hide Dwindles;
    hide Turns;
    hide Falls;
    hide Collected;
    hide Undeleted;
    hide Stopped;
    hide Lower;
    hide Candidates.Foremost;
    hide Geometry.Total;
    hide Geometry.BlockStart;
    OkInner();
    dir, loss, res, rounds, first := dir0, NoLoss, OK, [], 0;
    var freePages := FreePages(fs);
    ghost var g, s0 := fs.g, Now(fs, dir);
    ReachedNone(g, len, s0, a);
    ghost var s := s0;
    var again := true;
    tries := 0;
    while again
      invariant fs.Valid() && Shaped(g, fs.flash) && !fs.cleaning && res == OK && loss == NoLoss
      invariant s == Now(fs, dir) && freePages == s.free && (again ==> tries < GC_MAX_RUNS) && 0 <= tries <= GC_MAX_RUNS
      invariant Reached(g, len, s0, s, tries, again, rounds) && Led(g, len, s0, s, a, tries, again, rounds)
      invariant rounds != [] ==> first == rounds[0].block
      decreases GC_MAX_RUNS - tries, again
    {
      var prev := freePages;
      ghost var before, best := s, 0;
      ReachedFirst(g, len, s0, s, tries, rounds);
      res, best, loss, dir := CollectNext(fs, maxCandidates, freePages <= 0, len, s0, a, tries, rounds, dir);
      s, freePages := Now(fs, dir), FreePages(fs);
      if rounds == [] {
        first := best;
      }
      if res != OK {
        return;
      }
      loss := NoLoss;
      ghost var tried := tries;
      if prev <= 0 && prev == freePages {
        // no result on a crammed medium: stop wearing it
        again := false;
      } else {
        tries := tries + 1;
        again := tries < GC_MAX_RUNS && (fs.freeBlocks <= 2 || len > freePages * fs.g.dps);
      }
      RoundOn(g, len, s0, before, s, best, a, tried, tries, again, rounds);
      rounds := rounds + [Round(best, s.free - before.free, s.blocks)];
    }
    ReachedAny(g, len, s0, s, tries, rounds);
  }

  /** Collects block after block, and looks whether there is room for `len` bytes then. */
  method Collect(fs: Spiffs, len: nat, maxCandidates: nat, ghost dir0: Dir)
    returns (res: Status, ghost rounds: seq<Round>, ghost first: nat, ghost loss: Loss, ghost dir: Dir)
    requires fs.Valid() && !fs.cleaning && maxCandidates > 0
    modifies fs`flash, fs`log, fs`freeBlocks, fs`maxEraseCount, fs`pagesDeleted, fs`pagesAllocated
    modifies fs`freeCursorBlock, fs`freeCursorEntry, fs`fds, fs`cursorBlock, fs`cursorEntry, fs`cleaning
    ensures Lower(res)
    ensures fs.Valid() && !fs.cleaning && fs.Drift() >= old(fs.Drift())
    ensures Candidates.Foremost(fs.g, old(fs.flash), old(fs.maxEraseCount), old(FreePages(fs)) <= 0, first)
    ensures res == OK || res == ERR_FULL ==>
      && (res == OK <==> Holds(fs.g, fs.flash.lu, len))
      && rounds != [] && rounds[0].block == first && fs.freeBlocks == rounds[|rounds| - 1].blocks >= 1 && FreePages(fs) == Estimate(old(FreePages(fs)), rounds)
      && Made(fs.g, len, old(FreePages(fs)), rounds) && !GoesOn(fs.g, len, old(FreePages(fs)), rounds)
    ensures res == ERR_FULL && old(Holds(fs.g, fs.flash.lu, len)) ==> exists r :: r in rounds && r.gain < 0
    ensures Consistent(fs.g, old(fs.flash), dir0, old(fs.fds)) ==>
      && Survived(fs.g, old(fs.flash), dir0, old(fs.fds), fs.flash, loss, dir, fs.fds)
      && (res == OK || res == ERR_FULL ==> loss == NoLoss && rounds[0].gain == Gain(fs.g, first, old(fs.flash).lu, dir0))
      && (res == OK || res == ERR_FULL || Jammed(fs.g, old(fs.flash), dir0))
      && (Doomed(fs.g, old(fs.flash)) ==> loss.Unstored?)
      && (AllFree(old(fs.flash).lu) ==> fs.Drift() > old(fs.Drift()))
      && (old(Idles(fs, len)) ==> res == OK && fs.freeBlocks == 1 && Undeleted(fs.flash.lu))
      && (old(Ample(fs, len)) ==> res == OK)
      && (old(Dwindles(fs, len)) ==> res == ERR_FULL)
  {
    hide Lower;
    hide Spiffs.Valid;
    hide Spiffs.Drift;
    hide Circles;
    hide Drains;
    hide Consistent;
    hide Survived;
    hide Gain;
    hide Meaning;
    hide AllFree;
    hide Doomed;
    hide TooTight;
    hide Jammed;
    hide FreePages;
    hide Estimate;
    hide GoesOn;
    hide Made;
    hide Reached;
    hide Led;
    hide Turns;
    hide Dwindles;
    hide Idles;
    hide Ample;
    hide Falls;
    hide Collected;
    hide Undeleted;
    hide All;
    hide Candidates.Foremost;
    hide Geometry.Total;
    hide Geometry.BlockStart;
    OkInner();
    ValidShape(fs);
    FreePagesCount(fs);
    RoomKinds(fs, len, dir0);
    ghost var s0 := Now(fs, dir0);
    ghost var a := FallsAt(fs, len);
    var tries;
    res, rounds, first, tries, loss, dir := CollectRounds(fs, len, maxCandidates, a, dir0);
    if res != OK {
      return;
    }
    ReachedEnd(fs.g, len, s0, Now(fs, dir), a, tries, rounds);
    var freePages := FreePages(fs);
    FreePagesCount(fs);
    RoomLeft(s0.free, freePages, fs.g.n, fs.g.dps);
    EstimateDrops(s0.free, rounds);
    Times(s0.free, if s0.free <= freePages then freePages else s0.free, fs.g.dps);
    if len > freePages * fs.g.dps {
      res := ERR_FULL;
    }
  }

  lemma RoomLeft(f: int, now: int, n: nat, dps: nat)
    ensures now < f ==> now * dps <= (f - 1) * dps
    ensures f - GC_MAX_RUNS * n <= now ==> (f - GC_MAX_RUNS * n) * dps <= now * dps
  {
    Shrunk(now, f, dps);
    if f - GC_MAX_RUNS * n <= now {
      Times(f - GC_MAX_RUNS * n, now, dps);
    }
  }

  lemma MadeNone(g: Geometry, len: nat, f: int)
    ensures Made(g, len, f, []) && GoesOn(g, len, f, []) && Estimate(f, []) == f
  {
  }

  lemma Narrower(tries: nat, n: nat)
    requires tries < GC_MAX_RUNS
    ensures GC_MAX_RUNS * n - tries * n >= n
  {
  }

  lemma Shrunk(now: int, f: int, dps: nat)
    ensures now < f ==> now * dps <= (f - 1) * dps
  {
    if now < f {
      Times(now, f - 1, dps);
    }
  }

  lemma DrainsLoses(g: Geometry, fl: Flash, max: int, a: nat, m: nat, dir: Dir, fds: seq<Fd>)
    requires Shaped(g, fl) && Consistent(g, fl, dir, fds) && Drains(g, fl, max, a, m) && m > 0
    ensures Gain(g, a + 1, fl.lu, dir) < 0
  {
    hide Linked;
    hide Drains;
    hide FdsOk;
    hide Gain;
    DrainsGain(g, fl, max, a, m, dir);
  }

  /** Makes room for `len` bytes. Where no collection fails the answer is exact: there is room if and only
      if the free entries hold the bytes, two blocks' worth of entries not counted. With room to spare it
      is found; with just enough it may be lost (`Dwindles`). A consistent medium keeps its meaning
      whether or not room could be made, unless a collection failed; and that happens only when, at its
      start, less than the reserve was left. */
  method Check(fs: Spiffs, len: nat, maxCandidates: nat, ghost dir0: Dir)
    returns (res: Status, ghost rounds: seq<Round>, ghost first: nat, ghost loss: Loss, ghost dir: Dir)
    requires fs.Valid() && !fs.cleaning && maxCandidates > 0
    modifies fs`flash, fs`log, fs`freeBlocks, fs`maxEraseCount, fs`pagesDeleted, fs`pagesAllocated
    modifies fs`freeCursorBlock, fs`freeCursorEntry, fs`fds, fs`cursorBlock, fs`cursorEntry, fs`cleaning
    ensures Lower(res)
    ensures fs.Valid() && !fs.cleaning
    ensures fs.Drift() >= old(fs.Drift())
    ensures res == OK || res == ERR_FULL ==> (res == OK <==> Holds(fs.g, fs.flash.lu, len))
    ensures res == OK ==> fs.freeBlocks >= 1
    ensures res == ERR_FULL && old(Holds(fs.g, fs.flash.lu, len)) ==> exists r :: r in rounds && r.gain < 0
    ensures !old(Collects(fs, len)) ==>
      unchanged(fs) && dir == dir0 && rounds == [] && res == if old(fs.freeBlocks) > 3 && len < old(FreePages(fs)) * fs.g.dps then OK else ERR_FULL
    ensures old(Collects(fs, len)) ==>
      && Candidates.Foremost(fs.g, old(fs.flash), old(fs.maxEraseCount), old(FreePages(fs)) <= 0, first)
      && (res == OK || res == ERR_FULL ==>
           && rounds != [] && rounds[0].block == first && fs.freeBlocks == rounds[|rounds| - 1].blocks && FreePages(fs) == Estimate(old(FreePages(fs)), rounds)
           && Made(fs.g, len, old(FreePages(fs)), rounds) && !GoesOn(fs.g, len, old(FreePages(fs)), rounds))
    ensures old(fs.freeBlocks) > 3 && len < old(FreePages(fs)) * fs.g.dps ==> res == OK && unchanged(fs) && dir == dir0
    ensures old(fs.Spare()) >= Plenty(fs.g) && len < (old(fs.Spare()) - 1) * fs.g.dps ==> res == OK && unchanged(fs) && dir == dir0
    ensures Consistent(fs.g, old(fs.flash), dir0, old(fs.fds)) ==>
      && Survived(fs.g, old(fs.flash), dir0, old(fs.fds), fs.flash, loss, dir, fs.fds)
      && (res == OK || res == ERR_FULL ==> loss == NoLoss)
      && (old(Collects(fs, len)) && (res == OK || res == ERR_FULL) ==> rounds[0].gain == Gain(fs.g, first, old(fs.flash).lu, dir0))
      && (res == OK || res == ERR_FULL || Jammed(fs.g, old(fs.flash), dir0))
      && (old(Collects(fs, len)) && Doomed(fs.g, old(fs.flash)) ==> loss.Unstored?)
      && (old(Collects(fs, len)) && AllFree(old(fs.flash).lu) ==> fs.Drift() > old(fs.Drift()))
      && (old(Idles(fs, len)) ==> res == OK && fs.freeBlocks == 1 && Undeleted(fs.flash.lu))
      && (old(Ample(fs, len)) ==> res == OK)
      && (old(Dwindles(fs, len)) ==> res == ERR_FULL)
  {
    hide Lower;
    hide Circles;
    hide FreeSuffix;
    hide CursorOk;
    hide All;
    hide FreeBlocks;
    hide Consistent;
    hide Survived;
    hide Gain;
    hide Meaning;
    hide AllFree;
    hide Doomed;
    hide Drains;
    hide ErasedFree;
    hide DeadMarked;
    hide TooTight;
    hide Jammed;
    hide FreePages;
    hide Estimate;
    hide GoesOn;
    hide Made;
    hide Candidates.Foremost;
    hide Undeleted;
    hide Spiffs.Valid;
    hide Spiffs.Drift;
    hide Spiffs.Spare;
    hide Plenty;
    hide Falls;
    hide Turns;
    hide Idles;
    hide Dwindles;
    hide Ample;
    hide AllWords;
    hide Geometry.Total;
    hide Geometry.BlockStart;
    OkInner();
    dir, loss, res, rounds, first := dir0, NoLoss, OK, [], 0;
    ValidShape(fs);
    var freePages := FreePages(fs);
    FreePagesCount(fs);
    if Consistent(fs.g, fs.flash, dir0, fs.fds) {
      SurvivedNone(fs.g, fs.flash, dir0, fs.fds);
    }
    SpareHolds(fs, len);
    RoomKinds(fs, len, dir0);
    if fs.freeBlocks > 3 && len < freePages * fs.g.dps {
      return;
    }
    DeletedCount(fs);
    var needed := (len + fs.g.dps - 1) / fs.g.dps;
    if needed > freePages + fs.pagesDeleted {
      res := ERR_FULL;
      return;
    }
    res, rounds, first, loss, dir := Collect(fs, len, maxCandidates, dir);
  }

  /** Enough spare pages are plenty of room, and room that is there leads to no early refusal. */
  lemma SpareHolds(fs: Spiffs, len: nat)
    requires fs.Valid()
    ensures fs.Spare() >= Plenty(fs.g) && len < (fs.Spare() - 1) * fs.g.dps ==> fs.freeBlocks > 3 && len < FreePages(fs) * fs.g.dps
    ensures len <= FreePages(fs) * fs.g.dps ==> (len + fs.g.dps - 1) / fs.g.dps <= FreePages(fs)
  {
    hide Spiffs.Spare;
    hide Plenty;
    hide FreePages;
    hide FreeSuffix;
    hide All;
    if fs.Spare() >= Plenty(fs.g) {
      PlentyHolds(fs.g, fs.Spare());
      SpareIsFree(fs);
      Times(fs.Spare() - 1, FreePages(fs), fs.g.dps);
    }
    if len <= FreePages(fs) * fs.g.dps {
      AmongFree(len, FreePages(fs), fs.g.dps);
    }
  }

  lemma DeletedCount(fs: Spiffs)
    requires fs.Valid()
    ensures fs.pagesDeleted >= 0
  {
  }

  /** What the kinds of room say of the estimate. */
  lemma RoomKinds(fs: Spiffs, len: nat, dir: Dir)
    requires fs.Valid() && Shaped(fs.g, fs.flash)
    ensures Ample(fs, len) ==> len <= (FreePages(fs) - GC_MAX_RUNS * fs.g.n) * fs.g.dps && len <= FreePages(fs) * fs.g.dps && FreePages(fs) >= GC_MAX_RUNS * fs.g.n
    ensures Idles(fs, len) ==> Turns(fs.g, len, Now(fs, dir)) && len <= FreePages(fs) * fs.g.dps && fs.freeBlocks <= 3
    ensures Dwindles(fs, len) ==> Collects(fs, len) && (FreePages(fs) - 1) * fs.g.dps < len <= FreePages(fs) * fs.g.dps
  {
    hide FreePages;
    hide Circles;
    hide Drains;
    var f, n, dps := FreePages(fs), GC_MAX_RUNS * fs.g.n, fs.g.dps;
    if Ample(fs, len) {
      Times(f - n, f, dps);
      if f < n {
        Times(f - n, -1, dps);
      }
    }
  }

  /** Plenty of spare pages hold one data page, and two with one more. */
  lemma PlentyHolds(g: Geometry, spare: int)
    requires g.Valid()
    ensures spare >= Plenty(g) ==> spare >= 1 && g.dps < (spare - 1) * g.dps
    ensures spare >= Plenty(g) + 1 ==> g.dps * 2 < (spare - 1) * g.dps
  {
    if spare >= Plenty(g) {
      Times(2, spare - 1, g.dps);
    }
    if spare >= Plenty(g) + 1 {
      Times(3, spare - 1, g.dps);
    }
  }

  lemma Times(a: int, b: int, d: nat)
    requires a <= b
    ensures a * d <= b * d
  {
    assert b * d - a * d == (b - a) * d;
  }

  lemma FirstInRange(s: seq<int>, table: seq<int>, n: nat)
    requires Candidates.TopOf(s, table, n, |table|) && |table| > 0
    ensures 0 <= table[0] < n
  {
  }
}
