/** How much room emptying a block takes, set against the room there is. */
module Slack {
  import opened Layout
  import opened Medium
  import opened Directory
  import opened Tally

  /** The free entries outside block `b`: where its pages can go for good. */
  ghost function FreeOutside(g: Geometry, b: nat, lu: seq<int>): set<int> {
    set s | 0 <= s < |lu| && !InBlock(g, b, s) && lu[s] == FREE
  }

  /** The pages in block `b`. */
  ghost function PagesIn(g: Geometry, b: nat, dir: Dir): set<Key> {
    set k | k in dir && InBlock(g, b, dir[k])
  }

  /** The index pages of the data pages among `keys`. */
  ghost function IndexKeys(g: Geometry, keys: set<Key>): set<Key>
    requires g.Valid()
  {
    set k | k in keys && !IsIndexId(k.id) :: IndexKey(g, k)
  }

  /** The pages that must be written to empty block `b`: those in it, and the index pages that refer
      to them, wherever they are. */
  ghost function ToWrite(g: Geometry, b: nat, dir: Dir): set<Key>
    requires g.Valid()
  {
    PagesIn(g, b, dir) + IndexKeys(g, PagesIn(g, b, dir))
  }

  /** The free entries outside block `b`, less the pages to be written; `held` is the index page in
      the work buffer, if there is one, which is to be written too. */
  ghost function SlackOf(g: Geometry, b: nat, lu: seq<int>, dir: Dir, held: set<Key>): int
    requires g.Valid()
  {
    |FreeOutside(g, b, lu)| - |ToWrite(g, b, dir) + held|
  }

  /** The free entries after a page went from slot `s` to the free slot `f`. */
  lemma FreeAfter(g: Geometry, b: nat, lu: seq<int>, s: int, f: int, id: int)
    requires 0 <= s < |lu| && 0 <= f < |lu| && lu[f] == FREE && lu[s] != FREE && Live(id)
    ensures |FreeOutside(g, b, lu[f := id][s := DELETED])| == |FreeOutside(g, b, lu)| - (if InBlock(g, b, f) then 0 else 1)
  {
    hide InBlock;
    var after := FreeOutside(g, b, lu[f := id][s := DELETED]);
    assert after == FreeOutside(g, b, lu) - {f};
    assert f in FreeOutside(g, b, lu) <==> !InBlock(g, b, f);
  }

  /** Moving a data page of the index page in the buffer leaves the slack as it is. */
  lemma DataMoved(g: Geometry, b: nat, lu: seq<int>, dir: Dir, k: Key, f: int)
    requires g.Valid() && k in dir && !IsIndexId(k.id) && Live(k.id)
    requires forall q :: q in dir && !IsIndexId(q.id) ==> q.id <= MAX_ID
    requires 0 <= dir[k] < |lu| && 0 <= f < |lu| && lu[f] == FREE && lu[dir[k]] != FREE && InBlock(g, b, dir[k])
    ensures SlackOf(g, b, lu[f := k.id][dir[k] := DELETED], dir[k := f], {IndexKey(g, k)}) == SlackOf(g, b, lu, dir, {IndexKey(g, k)})
  {
    hide InBlock;
    FreeAfter(g, b, lu, dir[k], f, k.id);
    var before, after := PagesIn(g, b, dir), PagesIn(g, b, dir[k := f]);
    var x := IndexKey(g, k);
    if InBlock(g, b, f) {
      assert after == before;
    } else {
      assert after == before - {k};
      var all := ToWrite(g, b, dir) + {x};
      assert ToWrite(g, b, dir[k := f]) + {x} == all - {k};
      assert k in all;
    }
  }

  /** Storing an index page that was to be written, with no page left in the block that it refers
      to, leaves the slack as it is. */
  lemma IndexMoved(g: Geometry, b: nat, lu: seq<int>, dir: Dir, k: Key, f: int, held: set<Key>)
    requires g.Valid() && k in dir && IsIndexId(k.id) && Live(k.id) && held <= {k}
    requires 0 <= dir[k] < |lu| && 0 <= f < |lu| && lu[f] == FREE && lu[dir[k]] != FREE
    requires k in held || InBlock(g, b, dir[k])
    requires forall q :: q in dir && !IsIndexId(q.id) && InBlock(g, b, dir[q]) ==> IndexKey(g, q) != k
    ensures SlackOf(g, b, lu[f := k.id][dir[k] := DELETED], dir[k := f], {}) == SlackOf(g, b, lu, dir, held)
  {
    hide InBlock;
    FreeAfter(g, b, lu, dir[k], f, k.id);
    var all := ToWrite(g, b, dir) + held;
    assert IndexKeys(g, PagesIn(g, b, dir[k := f])) == IndexKeys(g, PagesIn(g, b, dir));
    if InBlock(g, b, f) {
      assert ToWrite(g, b, dir[k := f]) + {} == all;
    } else {
      assert ToWrite(g, b, dir[k := f]) + {} == all - {k};
      assert k in all;
    }
  }

  /** The index page of a data page in the block is to be written anyway. */
  lemma HeldAnyway(g: Geometry, b: nat, lu: seq<int>, dir: Dir, k: Key)
    requires g.Valid() && k in dir && !IsIndexId(k.id) && InBlock(g, b, dir[k])
    ensures SlackOf(g, b, lu, dir, {IndexKey(g, k)}) == SlackOf(g, b, lu, dir, {})
  {
    hide InBlock;
    assert k in PagesIn(g, b, dir);
    assert ToWrite(g, b, dir) + {IndexKey(g, k)} == ToWrite(g, b, dir) + {};
  }

  /** With pages to be written, and slack, there is a free entry for the next page to go to; and
      without a free entry there is no slack. */
  lemma RoomForNext(g: Geometry, b: nat, lu: seq<int>, dir: Dir, held: set<Key>, k: Key)
    requires g.Valid() && k in ToWrite(g, b, dir) + held
    ensures SlackOf(g, b, lu, dir, held) >= 0 ==> exists t: nat :: t < |lu| && lu[t] == FREE
    ensures (forall t: nat :: t < |lu| ==> lu[t] != FREE) ==> SlackOf(g, b, lu, dir, held) < 0
  {
    hide InBlock;
    var all := ToWrite(g, b, dir) + held;
    assert |all| > 0 by {
      assert k in all;
    }
    if t :| t in FreeOutside(g, b, lu) {
      var n: nat := t;
      assert lu[n] == FREE;
    } else {
      assert FreeOutside(g, b, lu) == {};
    }
  }

  /** An emptied block has slack: what remains of the free entries. */
  lemma EmptySlack(g: Geometry, b: nat, lu: seq<int>, dir: Dir)
    requires g.Valid() && forall k :: k in dir ==> !InBlock(g, b, dir[k])
    ensures SlackOf(g, b, lu, dir, {}) == |FreeOutside(g, b, lu)| >= 0
  {
    assert PagesIn(g, b, dir) == {};
    assert ToWrite(g, b, dir) + {} == {};
  }

  // The reserve.

  /** The keys of the pages in slots `lo` to `hi`. */
  ghost function KeysBetween(dir: Dir, lo: int, hi: int): set<Key> {
    set k | k in dir && lo <= dir[k] < hi
  }

  lemma {:induction false} LiveBetween(g: Geometry, fl: Flash, dir: Dir, lo: int, hi: int)
    requires Linked(g, fl, dir) && 0 <= lo <= hi <= |fl.lu|
    ensures |KeysBetween(dir, lo, hi)| == Count(fl.lu, lo, hi, InUse)
  {
    hide RefsLead;
    hide DataReferred;
    hide Headed;
    hide GoodPages;
    hide ErasedFree;
    if hi > lo {
      LiveBetween(g, fl, dir, lo, hi - 1);
      var k := KeyAt(fl, hi - 1);
      if Live(fl.lu[hi - 1]) {
        assert KeysBetween(dir, lo, hi) == KeysBetween(dir, lo, hi - 1) + {k};
      } else {
        assert KeysBetween(dir, lo, hi) == KeysBetween(dir, lo, hi - 1);
      }
    } else {
      assert KeysBetween(dir, lo, hi) == {};
    }
  }

  ghost function FreeBetween(lu: seq<int>, lo: int, hi: int): set<int> {
    set s | lo <= s < hi && 0 <= s < |lu| && lu[s] == FREE
  }

  lemma {:induction false} FreeCount(lu: seq<int>, lo: int, hi: int)
    requires 0 <= lo <= hi <= |lu|
    ensures |FreeBetween(lu, lo, hi)| == Count(lu, lo, hi, Unused)
  {
    if hi > lo {
      FreeCount(lu, lo, hi - 1);
      if lu[hi - 1] == FREE {
        assert FreeBetween(lu, lo, hi) == FreeBetween(lu, lo, hi - 1) + {hi - 1};
      } else {
        assert FreeBetween(lu, lo, hi) == FreeBetween(lu, lo, hi - 1);
      }
    } else {
      assert FreeBetween(lu, lo, hi) == {};
    }
  }

  lemma {:induction false} FewerIndexKeys(g: Geometry, keys: set<Key>)
    requires g.Valid()
    ensures |IndexKeys(g, keys)| <= |keys|
    decreases |keys|
  {
    if k :| k in keys {
      var rest := keys - {k};
      FewerIndexKeys(g, rest);
      assert IndexKeys(g, keys) <= IndexKeys(g, rest) + {IndexKey(g, k)};
      Smaller(IndexKeys(g, keys), IndexKeys(g, rest) + {IndexKey(g, k)});
    } else {
      assert IndexKeys(g, keys) == {};
    }
  }

  lemma Smaller(a: set<Key>, b: set<Key>)
    requires a <= b
    ensures |a| <= |b|
  {
    assert b == a + (b - a);
  }

  lemma FreeSplit(g: Geometry, b: nat, lu: seq<int>)
    requires g.BlockStart(b) + g.n <= |lu|
    ensures |FreeBetween(lu, 0, |lu|)| == |FreeOutside(g, b, lu)| + |FreeBetween(lu, g.BlockStart(b), g.BlockStart(b) + g.n)|
  {
    hide Geometry.BlockStart;
    var inside := FreeBetween(lu, g.BlockStart(b), g.BlockStart(b) + g.n);
    assert FreeBetween(lu, 0, |lu|) == FreeOutside(g, b, lu) + inside;
    assert FreeOutside(g, b, lu) !! inside;
  }

  /** The two blocks kept in reserve are enough to empty any block: if the estimate of free pages is
      not negative, no collection runs out of room. */
  lemma ReserveSuffices(g: Geometry, b: nat, fl: Flash, dir: Dir)
    requires Linked(g, fl, dir) && b < g.blocks && All(fl.lu, Unused) >= 2 * g.n
    ensures SlackOf(g, b, fl.lu, dir, {}) >= 0
  {
    hide FreeBetween;
    hide FreeOutside;
    hide Geometry.BlockStart;
    hide Geometry.Total;
    hide RefsLead;
    hide DataReferred;
    hide GoodPages;
    hide Count;
    BlockFits(g, b);
    var lu, lo, hi := fl.lu, g.BlockStart(b), g.BlockStart(b) + g.n;
    LiveBetween(g, fl, dir, lo, hi);
    assert PagesIn(g, b, dir) == KeysBetween(dir, lo, hi);
    FewerIndexKeys(g, PagesIn(g, b, dir));
    FreeCount(lu, 0, |lu|);
    FreeCount(lu, lo, hi);
    FreeSplit(g, b, lu);
    CountKinds(lu, lo, hi);
    assert ToWrite(g, b, dir) + {} == ToWrite(g, b, dir);
  }

  // What a collection gains.

  /** The index pages outside block `b` that refer to pages in it: they are stored anew, and leave a
      deleted entry each. */
  ghost function IndexOutside(g: Geometry, b: nat, dir: Dir): set<Key>
    requires g.Valid()
  {
    IndexKeys(g, PagesIn(g, b, dir)) - PagesIn(g, b, dir)
  }

  /** By how much the free entries grow when block `b` is collected: its deleted entries, less the index
      pages that leave one elsewhere. */
  ghost function Gain(g: Geometry, b: nat, lu: seq<int>, dir: Dir): int
    requires g.Valid()
  {
    CountIn(g, lu, b, Gone) - |IndexOutside(g, b, dir)|
  }

  lemma FreeAround(g: Geometry, b: nat, lu: seq<int>)
    requires g.Valid() && b < g.blocks && |lu| == g.Total()
    ensures All(lu, Unused) == |FreeOutside(g, b, lu)| + CountIn(g, lu, b, Unused)
  {
    hide FreeBetween;
    hide FreeOutside;
    hide Geometry.BlockStart;
    hide Geometry.Total;
    hide Count;
    BlockFits(g, b);
    FreeCount(lu, 0, |lu|);
    FreeCount(lu, g.BlockStart(b), g.BlockStart(b) + g.n);
    FreeSplit(g, b, lu);
  }

  /** The slack is what the free entries outside the block will be, and the block is free then too. */
  lemma SlackGain(g: Geometry, b: nat, fl: Flash, dir: Dir)
    requires g.Valid() && b < g.blocks && |fl.lu| == g.Total() && Linked(g, fl, dir)
    ensures SlackOf(g, b, fl.lu, dir, {}) + g.n == All(fl.lu, Unused) + Gain(g, b, fl.lu, dir)
  {
    hide FreeBetween;
    hide FreeOutside;
    hide Geometry.BlockStart;
    hide Geometry.Total;
    hide Linked;
    hide Count;
    hide PagesIn;
    hide IndexKeys;
    hide CountIn;
    FreeAround(g, b, fl.lu);
    BlockPages(g, b, fl, dir);
    var pages, keys := PagesIn(g, b, dir), IndexKeys(g, PagesIn(g, b, dir));
    assert ToWrite(g, b, dir) + {} == pages + (keys - pages);
  }

  /** A block holds as many used entries as pages; and as many index pages can be outside, and no more. */
  lemma BlockPages(g: Geometry, b: nat, fl: Flash, dir: Dir)
    requires g.Valid() && b < g.blocks && |fl.lu| == g.Total() && Linked(g, fl, dir)
    ensures |PagesIn(g, b, dir)| == CountIn(g, fl.lu, b, InUse) && |IndexOutside(g, b, dir)| <= CountIn(g, fl.lu, b, InUse)
    ensures CountIn(g, fl.lu, b, InUse) + CountIn(g, fl.lu, b, Gone) + CountIn(g, fl.lu, b, Unused) == g.n
  {
    hide Geometry.BlockStart;
    hide Geometry.Total;
    hide Linked;
    hide Count;
    hide PagesIn;
    hide IndexKeys;
    BlockFits(g, b);
    var lu, lo, hi := fl.lu, g.BlockStart(b), g.BlockStart(b) + g.n;
    LiveBetween(g, fl, dir, lo, hi);
    KeysInBlock(g, b, dir);
    var pages, keys := PagesIn(g, b, dir), IndexKeys(g, PagesIn(g, b, dir));
    FewerIndexKeys(g, pages);
    Smaller(keys - pages, keys);
    CountKinds(lu, lo, hi);
  }

  lemma KeysInBlock(g: Geometry, b: nat, dir: Dir)
    ensures PagesIn(g, b, dir) == KeysBetween(dir, g.BlockStart(b), g.BlockStart(b) + g.n)
  {
  }

  // The live entries and the directory.

  /** The count of entries in use is the number of pages the medium means: it depends on the meaning
      alone. */
  lemma LiveCount(g: Geometry, fl: Flash, dir: Dir)
    requires Linked(g, fl, dir)
    ensures All(fl.lu, InUse) == |Meaning(fl, dir).Keys|
  {
    LiveBetween(g, fl, dir, 0, |fl.lu|);
    assert KeysBetween(dir, 0, |fl.lu|) == dir.Keys;
  }
}
