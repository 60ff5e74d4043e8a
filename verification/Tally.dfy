/** Counting lookup entries, and where the free ones are. */
module Tally {
  import opened Layout
  import opened Medium

  datatype Kind = Unused | Gone | InUse

  function KindOf(entry: int): Kind {
    if entry == FREE then Unused else if entry == DELETED then Gone else InUse
  }

  /** How many of the entries lo..hi are of kind `c`. */
  function Count(lu: seq<int>, lo: int, hi: int, c: Kind): (r: nat)
    requires 0 <= lo <= hi <= |lu|
    ensures r <= hi - lo
    decreases hi - lo
  {
    if lo == hi then 0 else Count(lu, lo, hi - 1, c) + (if KindOf(lu[hi - 1]) == c then 1 else 0)
  }

  lemma {:induction false} CountSplit(lu: seq<int>, lo: int, mid: int, hi: int, c: Kind)
    requires 0 <= lo <= mid <= hi <= |lu|
    ensures Count(lu, lo, hi, c) == Count(lu, lo, mid, c) + Count(lu, mid, hi, c)
    decreases hi
  {
    if mid < hi {
      CountSplit(lu, lo, mid, hi - 1, c);
    }
  }

  lemma {:induction false} CountSame(lu: seq<int>, lu': seq<int>, lo: int, hi: int, c: Kind)
    requires 0 <= lo <= hi <= |lu| && hi <= |lu'|
    requires forall x :: lo <= x < hi ==> KindOf(lu[x]) == KindOf(lu'[x])
    ensures Count(lu, lo, hi, c) == Count(lu', lo, hi, c)
    decreases hi
  {
    if lo < hi {
      CountSame(lu, lu', lo, hi - 1, c);
    }
  }

  /** One entry changes. */
  lemma {:induction false} CountUpdate(lu: seq<int>, i: int, v: int, lo: int, hi: int, c: Kind)
    requires 0 <= lo <= i < hi <= |lu|
    ensures Count(lu[i := v], lo, hi, c)
         == Count(lu, lo, hi, c) + (if KindOf(v) == c then 1 else 0) - (if KindOf(lu[i]) == c then 1 else 0)
    decreases hi
  {
    if i == hi - 1 {
      CountSame(lu, lu[i := v], lo, hi - 1, c);
    } else {
      CountUpdate(lu, i, v, lo, hi - 1, c);
    }
  }

  /** Where entries stay of a kind, or become so, there are no fewer of it. */
  lemma {:induction false} CountMore(lu: seq<int>, lu': seq<int>, lo: int, hi: int, c: Kind)
    requires 0 <= lo <= hi <= |lu| && hi <= |lu'| && forall s :: lo <= s < hi && KindOf(lu[s]) == c ==> KindOf(lu'[s]) == c
    ensures Count(lu, lo, hi, c) <= Count(lu', lo, hi, c)
    decreases hi - lo
  {
    if lo < hi {
      CountMore(lu, lu', lo, hi - 1, c);
    }
  }

  lemma {:induction false} CountAll(lu: seq<int>, lo: int, hi: int, c: Kind)
    requires 0 <= lo <= hi <= |lu|
    requires forall x :: lo <= x < hi ==> KindOf(lu[x]) == c
    ensures Count(lu, lo, hi, c) == hi - lo
    decreases hi
  {
    if lo < hi {
      CountAll(lu, lo, hi - 1, c);
    }
  }

  lemma {:induction false} CountNone(lu: seq<int>, lo: int, hi: int, c: Kind)
    requires 0 <= lo <= hi <= |lu|
    requires forall x :: lo <= x < hi ==> KindOf(lu[x]) != c
    ensures Count(lu, lo, hi, c) == 0
    decreases hi
  {
    if lo < hi {
      CountNone(lu, lo, hi - 1, c);
    }
  }

  /** Every entry is of exactly one kind. */
  lemma {:induction false} CountKinds(lu: seq<int>, lo: int, hi: int)
    requires 0 <= lo <= hi <= |lu|
    ensures Count(lu, lo, hi, Unused) + Count(lu, lo, hi, Gone) + Count(lu, lo, hi, InUse) == hi - lo
    decreases hi
  {
    if lo < hi {
      CountKinds(lu, lo, hi - 1);
    }
  }

  function All(lu: seq<int>, c: Kind): nat {
    Count(lu, 0, |lu|, c)
  }

  /** A range of entries becomes free. */
  lemma CountErase(lu: seq<int>, lu': seq<int>, lo: int, hi: int, c: Kind)
    requires 0 <= lo <= hi <= |lu| == |lu'|
    requires forall x :: 0 <= x < |lu| ==> lu'[x] == if lo <= x < hi then FREE else lu[x]
    ensures All(lu', c) == All(lu, c) - Count(lu, lo, hi, c) + (if c == Unused then hi - lo else 0)
  {
    CountSplit(lu, 0, lo, |lu|, c);
    CountSplit(lu, lo, hi, |lu|, c);
    CountSplit(lu', 0, lo, |lu|, c);
    CountSplit(lu', lo, hi, |lu|, c);
    CountSame(lu, lu', 0, lo, c);
    CountSame(lu, lu', hi, |lu|, c);
    if c == Unused {
      CountAll(lu', lo, hi, c);
    } else {
      CountNone(lu', lo, hi, c);
    }
  }

  /** How many entries of kind `c` block `b` holds. */
  function CountIn(g: Geometry, lu: seq<int>, b: nat, c: Kind): nat {
    if g.BlockStart(b) + g.n <= |lu| then Count(lu, g.BlockStart(b), g.BlockStart(b) + g.n, c) else 0
  }

  // Free blocks: blocks whose first entry is free.

  function FreeBlocks(g: Geometry, lu: seq<int>, b: nat): (r: nat)
    requires |lu| == g.Total() && g.Valid()
    ensures r <= b
  {
    if b == 0 then 0
    else FreeBlocks(g, lu, b - 1) + (if b <= g.blocks && FirstFree(g, lu, b - 1) then 1 else 0)
  }

  predicate FirstFree(g: Geometry, lu: seq<int>, b: nat) {
    g.BlockStart(b) < |lu| && lu[g.BlockStart(b)] == FREE
  }

  lemma {:induction false} FreeBlocksSame(g: Geometry, lu: seq<int>, lu': seq<int>, b: nat)
    requires |lu| == |lu'| == g.Total() && g.Valid()
    requires forall c :: 0 <= c < b ==> FirstFree(g, lu, c) == FirstFree(g, lu', c)
    ensures FreeBlocks(g, lu, b) == FreeBlocks(g, lu', b)
  {
    if b > 0 {
      FreeBlocksSame(g, lu, lu', b - 1);
      assert FirstFree(g, lu, b - 1) == FirstFree(g, lu', b - 1);
    }
  }

  /** Only block `d` changes its first entry. */
  lemma {:induction false} FreeBlocksUpdate(g: Geometry, lu: seq<int>, lu': seq<int>, d: nat, b: nat)
    requires |lu| == |lu'| == g.Total() && g.Valid()
    requires d < b <= g.blocks
    requires forall c :: 0 <= c < b && c != d ==> FirstFree(g, lu, c) == FirstFree(g, lu', c)
    ensures FreeBlocks(g, lu', b) - (if FirstFree(g, lu', d) then 1 else 0)
         == FreeBlocks(g, lu, b) - (if FirstFree(g, lu, d) then 1 else 0)
  {
    if d == b - 1 {
      FreeBlocksSame(g, lu, lu', b - 1);
    } else {
      FreeBlocksUpdate(g, lu, lu', d, b - 1);
      assert FirstFree(g, lu, b - 1) == FirstFree(g, lu', b - 1);
    }
  }

  /** A free block has a free entry. */
  lemma {:induction false} FreeBlockEntry(g: Geometry, lu: seq<int>, b: nat)
    requires |lu| == g.Total() && g.Valid() && FreeBlocks(g, lu, b) > 0
    ensures exists t: nat :: t < |lu| && lu[t] == FREE
  {
    if FirstFree(g, lu, b - 1) {
      var t: nat := g.BlockStart(b - 1);
      assert t < |lu| && lu[t] == FREE;
    } else {
      FreeBlockEntry(g, lu, b - 1);
    }
  }

  // Where the free entries are.

  /** In every block the free entries come last. */
  ghost predicate FreeSuffix(g: Geometry, lu: seq<int>) {
    forall b: nat, s, t :: InBlock(g, b, s) && InBlock(g, b, t) && 0 <= s <= t < |lu| && lu[s] == FREE ==> lu[t] == FREE
  }

  /** The free cursor stands at the start of a block, past its end, or at its first free entry. */
  predicate CursorOk(g: Geometry, lu: seq<int>, b: nat, e: nat) {
    && b < g.blocks && e <= g.n
    && (0 < e < g.n ==>
         g.BlockStart(b) + e < |lu| && lu[g.BlockStart(b) + e] == FREE && lu[g.BlockStart(b) + e - 1] != FREE)
  }

  /** A free block is free throughout. */
  lemma FreeBlockCount(g: Geometry, lu: seq<int>, b: nat)
    requires |lu| == g.Total() && FreeSuffix(g, lu) && b < g.blocks && FirstFree(g, lu, b)
    ensures g.BlockStart(b) + g.n <= |lu| && Count(lu, g.BlockStart(b), g.BlockStart(b) + g.n, Unused) == g.n
  {
    hide Geometry.Total;
    hide Geometry.BlockStart;
    BlockFits(g, b);
    var lo := g.BlockStart(b);
    forall x | lo <= x < lo + g.n
      ensures lu[x] == FREE
    {
      assert InBlock(g, b, lo) && InBlock(g, b, x);
    }
    CountAll(lu, lo, lo + g.n, Unused);
  }

  /** The entries behind the cursor, if it stands inside a block. */
  function Tail(g: Geometry, e: nat): nat {
    if 0 < e < g.n then g.n - e else 0
  }

  /** The free entries are those of the free blocks, those behind the cursor, and perhaps others. */
  lemma {:induction false} TailEntries(g: Geometry, lu: seq<int>, b: nat, cb: nat, ce: nat)
    requires g.Valid() && |lu| == g.Total() && FreeSuffix(g, lu) && CursorOk(g, lu, cb, ce) && b <= g.blocks && g.BlockStart(b) <= |lu|
    ensures Count(lu, 0, g.BlockStart(b), Unused) >= FreeBlocks(g, lu, b) * g.n + (if cb < b then Tail(g, ce) else 0)
  {
    hide FreeSuffix;
    hide FirstFree;
    hide Count;
    hide CursorOk;
    hide Geometry.Total;
    hide Geometry.BlockStart;
    if b > 0 {
      BlockFits(g, b - 1);
      var lo, f := g.BlockStart(b - 1), FreeBlocks(g, lu, b - 1);
      TailEntries(g, lu, b - 1, cb, ce);
      CountSplit(lu, 0, lo, lo + g.n, Unused);
      if FirstFree(g, lu, b - 1) {
        FreeBlockCount(g, lu, b - 1);
        assert (f + 1) * g.n == f * g.n + g.n;
      }
      if cb == b - 1 && 0 < ce < g.n {
        TailCount(g, lu, cb, ce);
      }
    }
  }

  lemma TailCount(g: Geometry, lu: seq<int>, cb: nat, ce: nat)
    requires g.Valid() && |lu| == g.Total() && FreeSuffix(g, lu) && CursorOk(g, lu, cb, ce) && 0 < ce < g.n
    ensures g.BlockStart(cb) + g.n <= |lu| && !FirstFree(g, lu, cb) && Count(lu, g.BlockStart(cb), g.BlockStart(cb) + g.n, Unused) >= g.n - ce
  {
    hide Geometry.Total;
    hide Geometry.BlockStart;
    BlockFits(g, cb);
    var lo := g.BlockStart(cb);
    forall s | lo + ce <= s < lo + g.n
      ensures lu[s] == FREE
    {
      assert InBlock(g, cb, lo + ce) && InBlock(g, cb, s);
    }
    assert InBlock(g, cb, lo) && InBlock(g, cb, lo + ce - 1);
    CountSplit(lu, lo, lo + ce, lo + g.n, Unused);
    CountAll(lu, lo + ce, lo + g.n, Unused);
  }

  // What the page primitives do to the tallies.

  /** One entry in use is deleted. */
  lemma DropTally(g: Geometry, lu: seq<int>, s: int)
    requires g.Valid() && |lu| == g.Total() && 0 <= s < |lu| && Live(lu[s]) && FreeSuffix(g, lu)
    ensures FreeSuffix(g, lu[s := DELETED])
    ensures All(lu[s := DELETED], InUse) == All(lu, InUse) - 1 && All(lu[s := DELETED], Gone) == All(lu, Gone) + 1
    ensures FreeBlocks(g, lu[s := DELETED], g.blocks) == FreeBlocks(g, lu, g.blocks)
    ensures forall b, e :: CursorOk(g, lu, b, e) ==> CursorOk(g, lu[s := DELETED], b, e)
  {
    CountUpdate(lu, s, DELETED, 0, |lu|, InUse);
    CountUpdate(lu, s, DELETED, 0, |lu|, Gone);
    FreeBlocksSame(g, lu, lu[s := DELETED], g.blocks);
  }

  /** The first free entry of a block is taken. */
  lemma PlaceTally(g: Geometry, lu: seq<int>, block: nat, entry: nat, id: int)
    requires g.Valid() && |lu| == g.Total() && block < g.blocks && entry < g.n
    requires g.BlockStart(block) + entry < |lu| && lu[g.BlockStart(block) + entry] == FREE && Live(id) && FreeSuffix(g, lu)
    requires entry == 0 || lu[g.BlockStart(block) + entry - 1] != FREE
    ensures var w := lu[g.BlockStart(block) + entry := id];
      && FreeSuffix(g, w) && CursorOk(g, w, block, entry + 1)
      && All(w, InUse) == All(lu, InUse) + 1 && All(w, Gone) == All(lu, Gone)
      && FreeBlocks(g, w, g.blocks) == FreeBlocks(g, lu, g.blocks) - (if entry == 0 then 1 else 0)
  {
    hide Geometry.Total;
    var f := g.BlockStart(block) + entry;
    var w := lu[f := id];
    CountUpdate(lu, f, id, 0, |lu|, InUse);
    CountUpdate(lu, f, id, 0, |lu|, Gone);
    assert entry > 0 ==> InBlock(g, block, f - 1);
    forall b: nat, s, t | InBlock(g, b, s) && InBlock(g, b, t) && 0 <= s <= t < |w| && w[s] == FREE
      ensures w[t] == FREE
    {
      if t == f {
        BlocksApart(g, b, block, f);
      }
    }
    BlockFits(g, block);
    if entry + 1 < g.n {
      assert InBlock(g, block, f) && InBlock(g, block, f + 1);
    }
    forall c | 0 <= c < g.blocks && c != block
      ensures FirstFree(g, w, c) == FirstFree(g, lu, c)
    {
      if g.BlockStart(c) == f {
        BlocksApart(g, c, block, f);
      }
    }
    FreeBlocksUpdate(g, lu, w, block, g.blocks);
  }

  /** A block without entries in use is erased. */
  lemma EraseTally(g: Geometry, lu: seq<int>, lu': seq<int>, b: nat)
    requires g.Valid() && |lu| == |lu'| == g.Total() && b < g.blocks && FreeSuffix(g, lu)
    requires forall x :: 0 <= x < |lu| ==> lu'[x] == if InBlock(g, b, x) then FREE else lu[x]
    ensures g.BlockStart(b) + g.n <= |lu|
    ensures FreeSuffix(g, lu')
    ensures forall c :: All(lu', c) == All(lu, c) - Count(lu, g.BlockStart(b), g.BlockStart(b) + g.n, c) + (if c == Unused then g.n else 0)
    ensures FreeBlocks(g, lu', g.blocks) == FreeBlocks(g, lu, g.blocks) + (if FirstFree(g, lu, b) then 0 else 1)
    ensures forall cb, ce :: CursorOk(g, lu, cb, ce) && (cb == b ==> ce == 0 || ce == g.n) ==> CursorOk(g, lu', cb, ce)
  {
    hide Geometry.Total;
    hide Geometry.BlockStart;
    BlockFits(g, b);
    var lo := g.BlockStart(b);
    forall c ensures All(lu', c) == All(lu, c) - Count(lu, lo, lo + g.n, c) + (if c == Unused then g.n else 0) {
      CountErase(lu, lu', lo, lo + g.n, c);
    }
    forall c: nat, s, t | InBlock(g, c, s) && InBlock(g, c, t) && 0 <= s <= t < |lu'| && lu'[s] == FREE
      ensures lu'[t] == FREE
    {
      if InBlock(g, b, s) {
        BlocksApart(g, b, c, s);
      }
    }
    forall c: nat | c < g.blocks && c != b
      ensures FirstFree(g, lu', c) == FirstFree(g, lu, c)
    {
      BlockFits(g, c);
      if InBlock(g, b, g.BlockStart(c)) {
        BlocksApart(g, b, c, g.BlockStart(c));
      }
    }
    FreeBlocksUpdate(g, lu, lu', b, g.blocks);
    forall cb: nat, ce: nat | CursorOk(g, lu, cb, ce) && (cb == b ==> ce == 0 || ce == g.n)
      ensures CursorOk(g, lu', cb, ce)
    {
      if 0 < ce < g.n {
        var x := g.BlockStart(cb) + ce;
        if InBlock(g, b, x - 1) {
          BlocksApart(g, b, cb, x - 1);
        }
      }
    }
  }
}
