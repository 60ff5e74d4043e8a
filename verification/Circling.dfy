/** Collections that get nowhere: the block worth most is full of index pages, which fill the free block in
    front of the cursor, and the block that is erased takes its place. */
module Circling {
  import opened Words
  import opened Layout
  import opened Medium
  import opened Directory
  import opened Tally
  import opened Store
  import opened Slack
  import opened Collector
  import Candidates

  /** The next `m` collections each move one block on. The block in front of the cursor is free, the `m`
      behind it are full of index pages, the longer unerased the nearer, all other blocks were erased
      since, and no entry is deleted. */
  ghost predicate Circles(g: Geometry, fl: Flash, max: int, cb: nat, ce: nat, m: nat) {
    var a := Front(g, cb, ce);
    && (ce == 0 || ce >= g.n) && g.n < Candidates.W_ERASE_AGE && cb < g.blocks && a + m < g.blocks && |fl.counts| == g.blocks
    && Queued(g, fl.lu, a, m) && Aging(fl.counts, a, m, max)
    && max + m < IX_FLAG
  }

  /** Block `a` is free, and the next `m` are full of index pages. */
  ghost predicate Queued(g: Geometry, lu: seq<int>, a: nat, m: nat) {
    && Undeleted(lu)
    && (forall s :: InBlock(g, a, s) && 0 <= s < |lu| ==> lu[s] == FREE)
    && (forall j: nat, s :: a < j <= a + m && InBlock(g, j, s) && 0 <= s < |lu| ==> Live(lu[s]) && IsIndexId(lu[s]))
  }

  /** Of the blocks behind block `a` each was erased before all others that are not between. */
  ghost predicate Aging(counts: seq<int>, a: nat, m: nat, max: int) {
    && (forall j: nat, c: nat :: a < j <= a + m && j < |counts| && c < |counts| && !(a < c <= j) ==> counts[j] < counts[c])
    && (forall c: nat :: c < |counts| ==> 0 <= counts[c] < max)
  }

  predicate Undeleted(lu: seq<int>) {
    forall s :: 0 <= s < |lu| ==> lu[s] != DELETED
  }

  /** Block `b` was collected: its pages are in the block that was in front of the cursor, and it is erased. */
  ghost predicate Turned(g: Geometry, v: Flash, max: int, cb0: nat, ce0: nat, b: nat, w: Flash, max': int, cb: nat, ce: nat) {
    var a := Front(g, cb0, ce0);
    && b < |v.counts| && w.counts == v.counts[b := max] && max' == NextErase(max)
    && cb == a && ce == g.n && |w.lu| == |v.lu|
    && forall s :: 0 <= s < |v.lu| ==>
         if InBlock(g, b, s) then w.lu[s] == FREE
         else if InBlock(g, a, s) then Live(w.lu[s]) && IsIndexId(w.lu[s])
         else w.lu[s] == v.lu[s]
  }

  lemma ErasedTurned(g: Geometry, v: Flash, mid: Flash, max: int, max': int, cb0: nat, ce0: nat, b: nat, cb: nat, ce: nat)
    requires Shaped(g, v) && Shaped(g, mid) && Rotates(g, v.lu, cb0, ce0, b) && Emptying(g, v, mid, cb0, ce0, b, cb, ce)
    requires max' == NextErase(max)
    ensures Turned(g, v, max, cb0, ce0, b, Erased(g, mid, b, max), max', cb, ce)
    ensures FreeBlocks(g, Erased(g, mid, b, max).lu, g.blocks) == FreeBlocks(g, v.lu, g.blocks) && !FirstFree(g, mid.lu, b)
  {
    hide Geometry.Total;
    hide Geometry.BlockStart;
    hide FreeBlocks;
    var a, w := Front(g, cb0, ce0), Erased(g, mid, b, max);
    BlockFits(g, a);
    BlockFits(g, b);
    RotateApart(g, a, b);
    assert Turned(g, v, max, cb0, ce0, b, w, max', cb, ce);
    FreeMoves(g, v.lu, w.lu, a, b);
  }

  /** Block `b` becomes free in place of block `a`. */
  lemma FreeMoves(g: Geometry, v: seq<int>, w: seq<int>, a: nat, b: nat)
    requires g.Valid() && |v| == |w| == g.Total() && a < g.blocks && b < g.blocks && a != b
    requires FirstFree(g, v, a) && !FirstFree(g, w, a) && !FirstFree(g, v, b) && FirstFree(g, w, b)
    requires forall s :: 0 <= s < |v| && !InBlock(g, a, s) && !InBlock(g, b, s) ==> w[s] == v[s]
    ensures FreeBlocks(g, w, g.blocks) == FreeBlocks(g, v, g.blocks)
  {
    hide Geometry.Total;
    hide Geometry.BlockStart;
    var mid := v[g.BlockStart(a) := DELETED];
    forall c: nat | c < g.blocks && c != a
      ensures FirstFree(g, mid, c) == FirstFree(g, v, c) && (c != b ==> FirstFree(g, w, c) == FirstFree(g, mid, c))
    {
      BlockFits(g, c);
      RotateApart(g, c, a);
      if c != b {
        RotateApart(g, c, b);
      }
    }
    FreeBlocksUpdate(g, v, mid, a, g.blocks);
    FreeBlocksUpdate(g, mid, w, b, g.blocks);
  }

  /** The block behind the free one can be collected into it. */
  lemma CirclesRotate(g: Geometry, fl: Flash, max: int, cb: nat, ce: nat, m: nat)
    requires g.Valid() && Circles(g, fl, max, cb, ce, m) && m > 0
    ensures Rotates(g, fl.lu, cb, ce, Front(g, cb, ce) + 1)
  {
  }

  /** And when it was, one collection less is to come. */
  lemma CirclesOn(g: Geometry, v: Flash, max: int, cb0: nat, ce0: nat, m: nat, w: Flash, max': int, cb: nat, ce: nat)
    requires g.Valid() && Circles(g, v, max, cb0, ce0, m) && m > 0
    requires Turned(g, v, max, cb0, ce0, Front(g, cb0, ce0) + 1, w, max', cb, ce)
    ensures Circles(g, w, max', cb, ce, m - 1)
  {
    hide Queued;
    hide Aging;
    var a := Front(g, cb0, ce0);
    assert Front(g, cb, ce) == a + 1;
    QueuedOn(g, v, max, cb0, ce0, m, w, max', cb, ce);
    AgingOn(v.counts, a, m, max);
  }

  lemma QueuedOn(g: Geometry, v: Flash, max: int, cb0: nat, ce0: nat, m: nat, w: Flash, max': int, cb: nat, ce: nat)
    requires Queued(g, v.lu, Front(g, cb0, ce0), m) && m > 0
    requires Turned(g, v, max, cb0, ce0, Front(g, cb0, ce0) + 1, w, max', cb, ce)
    ensures Queued(g, w.lu, Front(g, cb0, ce0) + 1, m - 1)
  {
    hide Geometry.BlockStart;
    var a := Front(g, cb0, ce0);
    forall j: nat, s | a + 1 < j <= a + m && InBlock(g, j, s) && 0 <= s < |w.lu|
      ensures Live(w.lu[s]) && IsIndexId(w.lu[s])
    {
      BlocksOrdered(g, a, j);
      BlocksOrdered(g, a + 1, j);
    }
  }

  lemma AgingOn(counts: seq<int>, a: nat, m: nat, max: int)
    requires Aging(counts, a, m, max) && m > 0 && a + m < |counts|
    ensures Aging(counts[a + 1 := max], a + 1, m - 1, max + 1)
  {
  }

  /** The block behind the free one scores highest. */
  lemma CirclesBest(g: Geometry, fl: Flash, max: int, cb: nat, ce: nat, m: nat, table: seq<int>, kept: nat)
    requires Shaped(g, fl) && Circles(g, fl, max, cb, ce, m) && m > 0
    requires Candidates.TopOf(Candidates.Scores(g, fl, max, false), table, g.blocks, kept) && kept > 0
    ensures table[0] == Front(g, cb, ce) + 1
  {
    hide Geometry.Total;
    hide Geometry.BlockStart;
    hide Queued;
    hide Candidates.Score;
    QueuedWhole(g, fl.lu, Front(g, cb, ce), m);
    var s, b := Candidates.Scores(g, fl, max, false), Front(g, cb, ce) + 1;
    forall c: nat | c < g.blocks
      ensures !Candidates.Better(s, c, b)
    {
      ScoreNear(g, fl, max, b);
      ScoreNear(g, fl, max, c);
    }
    FirstIs(s, table, g.blocks, kept, b);
  }

  lemma QueuedWhole(g: Geometry, lu: seq<int>, a: nat, m: nat)
    requires Queued(g, lu, a, m)
    ensures Undeleted(lu)
  {
  }

  lemma FirstIs(s: seq<int>, table: seq<int>, seen: nat, kept: nat, b: nat)
    requires Candidates.TopOf(s, table, seen, kept) && kept > 0 && b < seen
    requires forall c: nat :: c < seen ==> !Candidates.Better(s, c, b)
    ensures table[0] == b
  {
    hide Candidates.Better;
    var c := table[0];
    assert !Candidates.Better(s, c, b);
    assert b in table[..kept];
    var i :| 0 <= i < kept && table[i] == b;
    assert i == 0;
  }

  /** Where no entry is deleted, the score is that of the age, less at most the size of a block. */
  lemma ScoreNear(g: Geometry, fl: Flash, max: int, b: nat)
    requires Shaped(g, fl) && b < g.blocks && Undeleted(fl.lu) && 0 <= fl.counts[b] < max
    ensures g.BlockStart(b) + g.n <= |fl.lu|
    ensures var age := (max - fl.counts[b]) * Candidates.W_ERASE_AGE;
      age - g.n <= Candidates.Score(g, fl, max, false, b) <= age
  {
    hide Geometry.Total;
    hide Geometry.BlockStart;
    BlockFits(g, b);
    var lo := g.BlockStart(b);
    CountNone(fl.lu, lo, lo + g.n, Gone);
    CountKinds(fl.lu, lo, lo + g.n);
  }

  // Collections that lose room.

  /** The next `m` collections are of blocks full of data pages, the longest unerased first. */
  ghost predicate Drains(g: Geometry, fl: Flash, max: int, a: nat, m: nat) {
    && g.n <= 4 && a + m < g.blocks && |fl.counts| == g.blocks && Aging(fl.counts, a, m, max)
    && forall j: nat, s :: a < j <= a + m && InBlock(g, j, s) && 0 <= s < |fl.lu| ==> Live(fl.lu[s]) && !IsIndexId(fl.lu[s])
  }

  /** The first of them is the best candidate. */
  lemma DrainsBest(g: Geometry, fl: Flash, max: int, a: nat, m: nat, best: nat)
    requires Shaped(g, fl) && Drains(g, fl, max, a, m) && m > 0 && best < g.blocks
    requires Candidates.Foremost(g, fl, max, false, best)
    ensures best == a + 1
  {
    hide Geometry.Total;
    hide Geometry.BlockStart;
    hide Count;
    BlockKinds(g, fl.lu, best);
    DataOnly(g, fl.lu, a + 1);
    assert !Candidates.Outlasts(g, fl, max, false, a + 1, best);
  }

  lemma BlockKinds(g: Geometry, lu: seq<int>, b: nat)
    requires g.Valid() && |lu| == g.Total() && b < g.blocks
    ensures CountIn(g, lu, b, InUse) + CountIn(g, lu, b, Gone) + CountIn(g, lu, b, Unused) == g.n
  {
    hide Geometry.Total;
    hide Geometry.BlockStart;
    BlockFits(g, b);
    CountKinds(lu, g.BlockStart(b), g.BlockStart(b) + g.n);
  }

  lemma DataOnly(g: Geometry, lu: seq<int>, b: nat)
    requires g.Valid() && |lu| == g.Total() && b < g.blocks && forall s :: InBlock(g, b, s) && 0 <= s < |lu| ==> Live(lu[s]) && !IsIndexId(lu[s])
    ensures CountIn(g, lu, b, InUse) == g.n && CountIn(g, lu, b, Gone) == 0
  {
    hide Geometry.Total;
    hide Geometry.BlockStart;
    BlockFits(g, b);
    forall s | g.BlockStart(b) <= s < g.BlockStart(b) + g.n
      ensures Live(lu[s])
    {
      assert InBlock(g, b, s);
    }
    CountAll(lu, g.BlockStart(b), g.BlockStart(b) + g.n, InUse);
    CountNone(lu, g.BlockStart(b), g.BlockStart(b) + g.n, Gone);
  }

  /** Collecting it loses room: an index page outside is stored anew, and nothing in the block was deleted. */
  lemma DrainsGain(g: Geometry, fl: Flash, max: int, a: nat, m: nat, dir: Dir)
    requires g.Valid() && |fl.lu| == g.Total() && Linked(g, fl, dir) && Drains(g, fl, max, a, m) && m > 0
    ensures Gain(g, a + 1, fl.lu, dir) < 0
  {
    hide Geometry.Total;
    hide Geometry.BlockStart;
    hide ErasedFree;
    hide RefsLead;
    hide Headed;
    hide CountIn;
    var b := a + 1;
    DataOnly(g, fl.lu, b);
    BlockFits(g, b);
    var s := g.BlockStart(b);
    assert InBlock(g, b, s);
    var k := KeyAt(fl, s);
    assert k in dir && dir[k] == s && Referred(g, fl, dir, k);
    var x := IndexKey(g, k);
    assert KeyAt(fl, dir[x]) == x;
    assert k in PagesIn(g, b, dir) && x in IndexKeys(g, PagesIn(g, b, dir));
    assert x in IndexOutside(g, b, dir);
  }

  lemma DrainsOn(g: Geometry, v: Flash, max: int, a: nat, m: nat, w: Flash)
    requires g.Valid() && Drains(g, v, max, a, m) && m > 0 && max + m < IX_FLAG
    requires DataStays(g, a + 1, v.lu, w.lu) && w.counts == v.counts[a + 1 := max]
    ensures Drains(g, w, NextErase(max), a + 1, m - 1)
  {
    hide Geometry.BlockStart;
    hide Aging;
    AgingOn(v.counts, a, m, max);
    forall j: nat, s | a + 1 < j <= a + m && InBlock(g, j, s) && 0 <= s < |w.lu|
      ensures Live(w.lu[s]) && !IsIndexId(w.lu[s])
    {
      BlocksOrdered(g, a + 1, j);
    }
  }

  // What is left then.

  ghost function Interval(lo: int, n: nat): (r: set<int>)
    ensures |r| == n && forall s :: s in r <==> lo <= s < lo + n
  {
    if n == 0 then {} else Interval(lo, n - 1) + {lo + n - 1}
  }

  /** A block without deleted entries keeps all of its entries but those of `x`. */
  lemma AllKept(g: Geometry, lu: seq<int>, x: set<int>, b: nat)
    requires g.Valid() && |lu| == g.Total() && Undeleted(lu) && b < g.blocks
    ensures |Keeps(g, lu, x, b)| + |x| >= g.n
  {
    hide Geometry.Total;
    hide Geometry.BlockStart;
    BlockFits(g, b);
    var all, kept := Interval(g.BlockStart(b), g.n), Keeps(g, lu, x, b);
    assert all <= kept + x;
    Fewer(all, kept + x);
  }

  /** With one free block and no entry deleted, no page can be had, and a block is deleted throughout only
      when all of its entries are. */
  lemma IdleStock(fs: Spiffs, x: set<int>)
    requires fs.Valid() && fs.freeBlocks == 1 && Undeleted(fs.flash.lu)
    ensures fs.Stock(x).left == 0 && fs.Stock(x).hold + |x| >= fs.g.n
  {
    hide FreeSuffix;
    hide CursorOk;
    hide All;
    hide FreeBlocks;
    hide ErasedFree;
    hide DeadMarked;
    hide Hold;
    hide Keeps;
    hide Undeleted;
    hide Geometry.Total;
    var g, lu := fs.g, fs.flash.lu;
    forall c: nat | c < g.blocks
      ensures |Keeps(g, lu, x, c)| + |x| >= g.n
    {
      AllKept(g, lu, x, c);
    }
    BlockFits(g, 0);
    if g.n >= |x| {
      HoldAtLeast(g, lu, x, g.blocks, g.n - |x|);
    }
  }
}
