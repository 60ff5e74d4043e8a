/** Writes that stop for want of a page, and media on which they do harm. */
module Stops {
  import opened Words
  import opened Layout
  import opened Medium
  import opened Directory
  import opened Tally
  import opened Store
  import opened Collector
  import opened Circling
  import opened Files
  import opened FileSystem
  import opened Appending
  import opened Holding
  import opened Plans
  import opened Media
  import opened Removal
  import opened Maps
  import opened Following
  import Modifying
  import FileIO
  import Reclaim
  import Slack

  // How many pages can be had at the end of a medium.

  /** The free entries from entry `k` on: those up to the next block, those of the blocks behind but for
      two, and the first of the one before the last. */
  function Behind(g: Geometry, free: int, k: nat): int
    requires g.Valid()
  {
    if free < 2 then 0 else (if Rem(k, g.n) == 0 then 0 else g.n - Rem(k, g.n)) + (free - 2) * g.n + 1
  }

  /** With nothing but free entries from entry `k` on, that many pages can be had. */
  lemma {:induction false} QuotaBehind(g: Geometry, lu: seq<int>, free: int, k: nat)
    requires g.Valid() && |lu| > 0 && k <= |lu| && Behind(g, free, k) <= |lu| - k
    requires forall s :: k <= s < |lu| ==> lu[s] == FREE
    ensures Quota(g, lu, free, 0, k) == Behind(g, free, k)
    decreases |lu| - k
  {
    hide Rem;
    if free >= 2 {
      assert (free - 2) * g.n >= 0;
      QuotRemNext(k, g.n);
      var next := if Rem(k, g.n) == 0 then free - 1 else free;
      assert (free - 3) * g.n == (free - 2) * g.n - g.n;
      QuotaBehind(g, lu, next, k + 1);
    }
  }

  /** Where exactly the blocks from `lo` up to `hi` are free. */
  lemma {:induction false} FreeFrom(g: Geometry, lu: seq<int>, lo: nat, hi: nat, b: nat)
    requires g.Valid() && |lu| == g.Total() && b <= g.blocks && lo <= hi
    requires forall c: nat :: c < b ==> (FirstFree(g, lu, c) <==> lo <= c < hi)
    ensures FreeBlocks(g, lu, b) == if b <= lo then 0 else if b < hi then b - lo else hi - lo
  {
    if b > 0 {
      FreeFrom(g, lu, lo, hi, b - 1);
    }
  }

  /** Entries in use up to `m`, and free ones behind. */
  lemma UsedCount(lu: seq<int>, m: nat)
    requires m <= |lu| && (forall s :: 0 <= s < m ==> Live(lu[s])) && (forall s :: m <= s < |lu| ==> lu[s] == FREE)
    ensures All(lu, InUse) == m && All(lu, Gone) == 0 && Undeleted(lu)
  {
    CountSplit(lu, 0, m, |lu|, InUse);
    CountAll(lu, 0, m, InUse);
    CountNone(lu, m, |lu|, InUse);
    CountNone(lu, 0, |lu|, Gone);
  }

  // One index page too many.

  const WIDE := Geometry(5, 5, 1, 1, 1, 1, 2)

  /** Five empty files in the first block; the first is the one to be written. */
  function Five(): Plot {
    Plot(seq(25, s => if s == 0 then IndexOf(0) else if s < 5 then Other else Vacant), [0], [], [1, 1, 1, 1, 1])
  }

  lemma FiveDrawn()
    ensures Plotted(WIDE, Five()) && FreeSuffix(WIDE, Drawn(WIDE, Five()).lu) && Five().ix == [0] && Five().data == []
    ensures var lu := Drawn(WIDE, Five()).lu;
      |lu| == 25 && (forall s :: 0 <= s < 5 ==> Live(lu[s])) && (forall s :: 5 <= s < 25 ==> lu[s] == FREE)
  {
    var lu := Drawn(WIDE, Five()).lu;
    forall b: nat, s, t | InBlock(WIDE, b, s) && InBlock(WIDE, b, t) && 0 <= s <= t < |lu| && lu[s] == FREE
      ensures lu[t] == FREE
    {
      assert s >= 5;
    }
  }

  /** Eleven pages can be had, and five headers lie in the first block. */
  lemma FiveStock(fs: Spiffs)
    requires fs.Valid() && fs.Drift() == 0 && fs.g == WIDE && fs.flash == Drawn(WIDE, Five()) && fs.freeCursorBlock == 0 && fs.freeCursorEntry == 0
    ensures fs.freeBlocks == 4 && Reclaim.FreePages(fs) == 10 && fs.Stock({}).left == 11 && fs.Stock({}).hold >= 5
  {
    hide FreeSuffix;
    hide FreeBlocks;
    hide All;
    hide ErasedFree;
    hide DeadMarked;
    hide AllWords;
    hide Quota;
    hide Hold;
    hide Keeps;
    hide Drawn;
    hide Undeleted;
    var lu := fs.flash.lu;
    FiveDrawn();
    UsedCount(lu, 5);
    FreeFrom(WIDE, lu, 1, 5, 5);
    assert fs.freeBlocks == 4;
    QuotaSkip(WIDE, lu, 4, 0, 0, 5);
    assert Rem(5, 5) == 0;
    QuotaBehind(WIDE, lu, 4, 5);
    forall c: nat | c < 5
      ensures |Keeps(WIDE, lu, {}, c)| >= 5
    {
      AllKept(WIDE, lu, {}, c);
    }
    HoldAtLeast(WIDE, lu, {}, 5, 5);
  }

  /** Five bytes take twelve pages, the twelfth for the last of the bytes. */
  lemma FivePlan()
    ensures First(WIDE, 0) == 0 && Last(WIDE, 0, 5) == 4
    ensures AppendDrops(WIDE, 0, 0, 4) == 4 && AppendStop(WIDE, 0, 0, 4, 11) == AtData(4)
  {
    hide Quot;
    hide IxSpan;
    QuotOne(0);
    QuotOne(4);
    SpanOne(WIDE, 0);
    SpanOne(WIDE, 1);
    SpanOne(WIDE, 2);
    SpanOne(WIDE, 3);
    SpanOne(WIDE, 4);
    assert AppendStop(WIDE, 0, 4, 4, 2) == AtData(4);
    assert AppendStop(WIDE, 0, 3, 4, 5) == AtData(4);
    assert AppendStop(WIDE, 0, 2, 4, 8) == AtData(4);
    assert AppendStop(WIDE, 0, 1, 4, 10) == AtData(4);
    assert AppendDrops(WIDE, 0, 4, 4) == 2;
    assert AppendDrops(WIDE, 0, 2, 4) == 4;
  }

  /** Writing five bytes to the first of them: four are in place and the header counts them, but the index
      has a page more than a file of four bytes has. */
  method IndexTooMany(data: seq<int>, maxCandidates: nat)
    returns (fs: Spiffs, res: Status, written: nat, room: bool, ghost word: int, ghost top: nat, ghost dir: Dir)
    requires |data| == 5 && maxCandidates > 0
    ensures FileOf(WIDE, Meaning(Drawn(WIDE, Five()), Places(WIDE, Five())), 1) == File([1], [])
    ensures room && res != OK && written == 4
    ensures Linked(WIDE, fs.flash, dir) && HeaderHas(fs.flash, dir, 1, 4) && IndexPages(Meaning(fs.flash, dir), 1, 4) && TopIx(WIDE, 4) == 3
    ensures forall e, n: nat :: !(Linked(WIDE, fs.flash, e) && IsFile(WIDE, Meaning(fs.flash, e), 1, n))
  {
    hide AllWords;
    hide ErasedFree;
    hide DeadMarked;
    hide FreeSuffix;
    hide CursorOk;
    hide FreeBlocks;
    hide All;
    hide Linked;
    hide AllFiles;
    hide NamesDiffer;
    hide FdsOk;
    hide Meaning;
    hide Disk;
    hide IsFile;
    hide FileOf;
    hide IndexPages;
    hide Drawn;
    hide Places;
    hide Five;
    hide Plotted;
    hide Spiffs.Stock;
    hide Spiffs.CanTake;
    hide Spiffs.Spare;
    hide OpenFile;
    hide Reclaim.Jammed;
    hide Survived;
    hide SameOpen;
    hide Mapless;
    hide Reclaim.FreePages;
    hide Appending.Ended;
    hide Followed;
    hide Writer;
    hide PageCount;
    hide TopIx;
    hide AppendDrops;
    hide AppendStop;
    hide First;
    hide Last;
    FiveDrawn();
    DrawnSound(WIDE, Five());
    fs := Opened(WIDE, Drawn(WIDE, Five()), 0, 1, 0, Places(WIDE, Five()));
    FiveStock(fs);
    FivePlan();
    ghost var stage, stock, loss, lu, free, m0 := Whole, Supply(0, 0), NoLoss, [], 0, Meaning(fs.flash, Places(WIDE, Five()));
    res, written, room, stage, stock, loss, word, top, lu, free, dir := Append(fs, 0, 0, data, maxCandidates, Places(WIDE, Five()));
    assert stage == AtData(4);
    FiveLeft(data, written, word, top);
    EndedTop(WIDE, m0, fs.flash, loss, dir, fs.fds, 0, 1, 0, data, written, word, top);
  }

  lemma FiveLeft(data: seq<int>, n: nat, word: int, top: nat)
    requires |data| == 5 && AppendStopped(WIDE, 0, 5, AtData(4), n, word, top)
    ensures n == 4 && word == 4 && top == 4 && TopIx(WIDE, 4) == 3 && !AppendOrder(WIDE, 0, data, AtData(4))
  {
    hide Quot;
    hide IxSpan;
    QuotOne(0);
    QuotOne(3);
    QuotOne(4);
    SpanOne(WIDE, 0);
    SpanOne(WIDE, 3);
    SpanOne(WIDE, 4);
  }

  lemma EndedTop(g: Geometry, m0: Image, fl: Flash, loss: Loss, dir: Dir, fds: seq<Fd>, fdi: nat, o: int, off: nat, data: seq<int>, n: nat, word: int, top: nat)
    requires g.Valid() && Appending.Ended(g, m0, fl, loss, dir, fds, fdi, o, off, data, n, word, top) && off == 0
    ensures Linked(g, fl, dir) && HeaderHas(fl, dir, o, word) && IndexPages(Meaning(fl, dir), o, top)
  {
    hide Linked;
    hide FdsTrack;
    hide RealLoss;
    hide IndexPages;
    hide PageCount;
  }

  // References lost.

  const PAIRED := Geometry(10, 2, 1, 2, 1, 1, 2)

  /** A file of six bytes: in each of six blocks a page of it and the header of an empty file, and four
      free blocks. */
  function Six(): Plot {
    Plot(SixSlots(), [0, 2, 4], [6, 8, 10], [1, 1, 1, 1, 1, 1, 1, 1, 1, 1])
  }

  function SixSlots(): seq<Slot> {
    [IndexOf(0), Other, IndexOf(1), Other, IndexOf(2), Other, DataOf(0), Other, DataOf(1), Other, DataOf(2), Other]
    + [Vacant, Vacant, Vacant, Vacant, Vacant, Vacant, Vacant, Vacant]
  }

  lemma SixPlaced()
    ensures var slots := SixSlots();
      && |slots| == 20 && (forall s :: 12 <= s < 20 ==> slots[s] == Vacant)
      && slots[0] == IndexOf(0) && slots[2] == IndexOf(1) && slots[4] == IndexOf(2) && slots[6] == DataOf(0) && slots[8] == DataOf(1) && slots[10] == DataOf(2)
      && slots[1] == slots[3] == slots[5] == slots[7] == slots[9] == slots[11] == Other
  {
  }

  lemma SixPlotted()
    ensures Plotted(PAIRED, Six()) && Six().ix[0] == 0 && |Six().data| == 3 && |Six().slots| == 20
    ensures forall s {:trigger Six().slots[s]} :: 0 <= s < 20 ==> (Six().slots[s] == Vacant <==> s >= 12)
    ensures forall b: nat :: b < 10 ==> !Six().slots[2 * b + 1].IndexOf? && !Six().slots[2 * b + 1].DataOf?
  {
    hide SixSlots;
    SixPlaced();
    var slots := SixSlots();
    forall s | 0 <= s < 20
      ensures slots[s].IndexOf? ==> s == 0 || s == 2 || s == 4
      ensures slots[s].DataOf? ==> s == 6 || s == 8 || s == 10
      ensures slots[s] == Vacant ==> s >= 12
    {
      assert s >= 12 || s == 0 || s == 1 || s == 2 || s == 3 || s == 4 || s == 5 || s == 6 || s == 7 || s == 8 || s == 9 || s == 10 || s == 11;
    }
    assert Plain(PAIRED);
  }

  lemma SixDrawn()
    ensures Plotted(PAIRED, Six()) && FreeSuffix(PAIRED, Drawn(PAIRED, Six()).lu) && Six().ix[0] == 0 && |Six().data| == 3
    ensures var lu := Drawn(PAIRED, Six()).lu;
      |lu| == 20 && (forall s :: 0 <= s < 12 ==> Live(lu[s])) && (forall s :: 12 <= s < 20 ==> lu[s] == FREE)
  {
    hide Plotted;
    hide Six;
    hide PageOf;
    SixPlotted();
    var lu := Drawn(PAIRED, Six()).lu;
    forall s | 0 <= s < 20
      ensures lu[s] == FREE <==> s >= 12
      ensures lu[s] != DELETED
    {
      SlotGood(PAIRED, Six(), Six().slots[s], s);
    }
    forall b: nat, s, t | InBlock(PAIRED, b, s) && InBlock(PAIRED, b, t) && 0 <= s <= t < |lu| && lu[s] == FREE
      ensures lu[t] == FREE
    {
      assert s >= 12;
    }
  }

  /** Where the file is not. */
  lemma NotOwn(g: Geometry, p: Plot, s: nat)
    requires Plotted(g, p) && s < |p.slots| && !p.slots[s].IndexOf? && !p.slots[s].DataOf?
    ensures s !in OwnSlots(Places(g, p), 1) && Drawn(g, p).lu[s] != DELETED
  {
    hide PageOf;
    SlotGood(g, p, p.slots[s], s);
  }

  /** In each block an entry is neither deleted nor the file's. */
  lemma SixKeeps(c: nat)
    requires c < 10 && Plotted(PAIRED, Six())
    ensures |Keeps(PAIRED, Drawn(PAIRED, Six()).lu, OwnSlots(Places(PAIRED, Six()), 1), c)| >= 1
  {
    hide Plotted;
    hide OwnSlots;
    hide Places;
    hide Six;
    SixPlotted();
    var lu, x, s := Drawn(PAIRED, Six()).lu, OwnSlots(Places(PAIRED, Six()), 1), 2 * c + 1;
    NotOwn(PAIRED, Six(), s);
    assert s in Keeps(PAIRED, lu, x, c);
  }

  lemma SixStock(fs: Spiffs)
    requires Plotted(PAIRED, Six()) && fs.Valid() && fs.Drift() == 0 && fs.g == PAIRED && fs.flash == Drawn(PAIRED, Six()) && fs.freeCursorBlock == 0 && fs.freeCursorEntry == 0
    ensures var stock := fs.Stock(OwnSlots(Places(PAIRED, Six()), 1));
      fs.freeBlocks == 4 && Reclaim.FreePages(fs) == 4 && stock.left == 5 && stock.hold >= 1
  {
    hide FreeSuffix;
    hide FreeBlocks;
    hide All;
    hide ErasedFree;
    hide DeadMarked;
    hide AllWords;
    hide Quota;
    hide Hold;
    hide Keeps;
    hide Drawn;
    hide Undeleted;
    hide OwnSlots;
    hide Plotted;
    hide Six;
    hide Places;
    var lu, x := fs.flash.lu, OwnSlots(Places(PAIRED, Six()), 1);
    SixDrawn();
    UsedCount(lu, 12);
    FreeFrom(PAIRED, lu, 6, 10, 10);
    assert fs.freeBlocks == 4;
    QuotaSkip(PAIRED, lu, 4, 0, 0, 12);
    assert Rem(12, 2) == 0 by {
      QuotRemOf(6, 0, 2);
    }
    QuotaBehind(PAIRED, lu, 4, 12);
    forall c: nat | c < 10
      ensures |Keeps(PAIRED, lu, x, c)| >= 1
    {
      SixKeeps(c);
    }
    HoldAtLeast(PAIRED, lu, x, 10, 1);
  }

  /** To change the last five bytes takes six pages, the sixth for the last index page. */
  lemma SixPlan()
    ensures First(PAIRED, 1) == 0 && Last(PAIRED, 1, 5) == 2
    ensures ModifyStop(PAIRED, 1, 0, 2, 5) == AtEnd
  {
    hide Quot;
    hide IxSpan;
    QuotRemOf(0, 1, 2);
    QuotRemOf(2, 1, 2);
    SpanOne(PAIRED, 0);
    SpanOne(PAIRED, 1);
    SpanOne(PAIRED, 2);
    assert ModifyStop(PAIRED, 1, 3, 2, 0) == AtEnd;
    assert ModifyStop(PAIRED, 1, 2, 2, 2) == AtEnd;
    assert ModifyStop(PAIRED, 1, 1, 2, 4) == AtEnd;
  }

  /** Changing them leaves a medium that no directory fits: the last index page refers to a page that was
      deleted. */
  method ReferencesLost(data: seq<int>, maxCandidates: nat, junk: int)
    returns (fs: Spiffs, res: Status, written: nat, room: bool, ghost loss: Loss)
    requires |data| == 5 && maxCandidates > 0
    ensures Plotted(PAIRED, Six()) && FileOf(PAIRED, Meaning(Drawn(PAIRED, Six()), Places(PAIRED, Six())), 1) == File([1], seq(6, _ => 0))
    ensures room && res != OK && written == 5 && loss.Unstored? && Loser(fs.flash, loss) == 1
    ensures forall e :: !Linked(PAIRED, fs.flash, e)
  {
    hide AllWords;
    hide ErasedFree;
    hide DeadMarked;
    hide FreeSuffix;
    hide CursorOk;
    hide FreeBlocks;
    hide All;
    hide Linked;
    hide AllFiles;
    hide NamesDiffer;
    hide FdsOk;
    hide Meaning;
    hide Disk;
    hide IsFile;
    hide FileOf;
    hide Drawn;
    hide Places;
    hide Six;
    hide Plotted;
    hide Spiffs.Stock;
    hide Spiffs.CanTake;
    hide Spiffs.Spare;
    hide OpenFile;
    hide Reclaim.Jammed;
    hide Survived;
    hide SameOpen;
    hide Mapless;
    hide Reclaim.FreePages;
    hide Modifying.Modified;
    hide Followed;
    hide Writer;
    hide OwnSlots;
    hide ModifyStop;
    hide First;
    hide Last;
    SixDrawn();
    DrawnSound(PAIRED, Six());
    fs := Opened(PAIRED, Drawn(PAIRED, Six()), 0, 1, 6, Places(PAIRED, Six()));
    SixStock(fs);
    SixPlan();
    ghost var stage, stock, pix, dir;
    ghost var m0 := Meaning(fs.flash, Places(PAIRED, Six()));
    res, written, room, stage, stock, loss, pix, dir := Modifying.Modify(fs, 0, 1, data, maxCandidates, junk, Places(PAIRED, Six()));
    assert stage == AtEnd;
    ModifiedLoser(PAIRED, m0, fs.flash, loss, dir, fs.fds, 0, pix, 1, 6, 1, data, 1 + written);
  }

  lemma ModifiedLoser(g: Geometry, m0: Image, fl: Flash, loss: Loss, dir: Dir, fds: seq<Fd>, fdi: nat, pix: int, o: int, len: nat, off: nat, data: seq<int>, n: nat)
    requires g.Valid() && Modifying.Modified(g, m0, fl, loss, dir, fds, fdi, pix, o, len, off, data, n)
    ensures loss.Unstored? ==> Loser(fl, loss) == o
  {
    hide RealLoss;
    hide Consistent;
    hide Altered;
  }

  // Room that is lost.

  const NARROW := Geometry(17, 1, 1, 1, 1, 1, 2)

  /** A file of five bytes, one page in each of ten blocks, and seven free blocks. Those of the data pages
      were erased longest ago. */
  function Row(): Plot {
    Plot(seq(17, (s: nat) => RowSlot(s)), seq(5, i => if i == 0 then 0 else i + 5), seq(5, i => i + 1), seq(17, b => if 1 <= b <= 5 then b else 9))
  }

  function RowSlot(s: nat): Slot {
    if s == 0 then IndexOf(0) else if s <= 5 then DataOf(s - 1) else if s <= 9 then IndexOf(s - 5) else Vacant
  }

  lemma RowPlotted()
    ensures Plotted(NARROW, Row()) && Row().ix[0] == 0 && |Row().data| == 5
  {
  }

  lemma RowDrawn()
    ensures Plotted(NARROW, Row()) && Row().ix[0] == 0 && |Row().data| == 5
    ensures var lu := Drawn(NARROW, Row()).lu; RowEntries(lu) && lu[0] == IndexId(1) && FreeSuffix(NARROW, lu)
    ensures Drawn(NARROW, Row()).counts == Row().counts
  {
    hide Plotted;
    hide PageOf;
    RowPlotted();
  }

  ghost predicate RowEntries(lu: seq<int>) {
    && |lu| == 17 && (forall s :: 0 <= s < 10 ==> Live(lu[s])) && (forall s :: 1 <= s <= 5 ==> !IsIndexId(lu[s]))
    && (forall s :: 10 <= s < 17 ==> lu[s] == FREE)
  }

  lemma RowAging()
    ensures Aging(Row().counts, 0, 5, 10)
  {
  }

  /** Five pages are free beside the two blocks in reserve, and making room for them takes them. */
  lemma RowDwindles(fs: Spiffs)
    requires fs.Valid() && fs.Drift() == 0 && fs.g == NARROW && fs.flash == Drawn(NARROW, Row()) && fs.maxEraseCount == 10
    ensures Reclaim.FreePages(fs) == 5 && fs.freeBlocks == 7 && Reclaim.Holds(NARROW, fs.flash.lu, 5) && Reclaim.Dwindles(fs, 5)
  {
    hide FreeSuffix;
    hide FreeBlocks;
    hide All;
    hide ErasedFree;
    hide DeadMarked;
    hide AllWords;
    hide Undeleted;
    hide Aging;
    hide PageOf;
    var lu := fs.flash.lu;
    RowDrawn();
    UsedCount(lu, 10);
    FreeFrom(NARROW, lu, 10, 17, 17);
    Reclaim.FreePagesCount(fs);
    RowAging();
    assert Drains(NARROW, fs.flash, 10, 0, 5);
    assert Reclaim.Falls(NARROW, 5, fs.flash, 10, 5, 0);
  }

  lemma RowCount(fs: Spiffs)
    requires fs.flash.counts == Row().counts
    requires forall most: int :: 0 < most < IX_FLAG && most in fs.flash.counts && (forall b :: 0 <= b < |fs.flash.counts| ==> 0 <= fs.flash.counts[b] <= most) ==> fs.maxEraseCount == most + 1
    ensures fs.maxEraseCount == 10
  {
    var counts := fs.flash.counts;
    assert counts[0] == 9;
    assert 9 in counts;
  }

  /** Appending four bytes, for which there is room: the room check collects five blocks, each time an
      index page in another block is stored anew, and refuses the write for want of room. The file keeps
      its bytes, but there is no room any more. */
  method RoomLost(data: seq<int>, maxCandidates: nat)
    returns (fs: Spiffs, res: Status, room: bool, ghost dir: Dir)
    requires |data| == 4 && maxCandidates > 0
    ensures Plotted(NARROW, Row()) && Reclaim.Holds(NARROW, Drawn(NARROW, Row()).lu, |data| + NARROW.dps)
    ensures !room && res == ERR_FULL && fs.g == NARROW && !Reclaim.Holds(NARROW, fs.flash.lu, |data| + NARROW.dps)
    ensures Linked(NARROW, fs.flash, dir) && Meaning(fs.flash, dir) == Meaning(Drawn(NARROW, Row()), Places(NARROW, Row()))
  {
    hide AllWords;
    hide ErasedFree;
    hide DeadMarked;
    hide FreeSuffix;
    hide CursorOk;
    hide FreeBlocks;
    hide All;
    hide Linked;
    hide AllFiles;
    hide NamesDiffer;
    hide FdsOk;
    hide Meaning;
    hide Disk;
    hide IsFile;
    hide FileOf;
    hide Drawn;
    hide Places;
    hide Row;
    hide Plotted;
    hide Spiffs.Stock;
    hide Spiffs.CanTake;
    hide Spiffs.Spare;
    hide OpenFile;
    hide Reclaim.Jammed;
    hide Reclaim.Holds;
    hide Reclaim.Dwindles;
    hide Reclaim.Idles;
    hide Reclaim.FreePages;
    hide Appending.Ended;
    hide Followed;
    hide Mapless;
    hide MapsOk;
    hide SameOpen;
    RowDrawn();
    DrawnSound(NARROW, Row());
    fs := Opened(NARROW, Drawn(NARROW, Row()), 0, 1, 5, Places(NARROW, Row()));
    RowCount(fs);
    RowDwindles(fs);
    var written;
    ghost var stage, stock, loss, word, top, lu, free;
    res, written, room, stage, stock, loss, word, top, lu, free, dir := Append(fs, 0, 5, data, maxCandidates, Places(NARROW, Row()));
  }

  // Collections that get nowhere.

  const ROUND := Geometry(8, 4, 1, 1, 1, 1, 2)

  /** A free block, five blocks full of headers, the longer unerased the nearer, and two with one page
      each, a byte of the file and an empty file. */
  function Ring(): Plot {
    Plot(seq(32, (s: nat) => RingSlot(s)), [4], [24], [6, 1, 2, 3, 4, 5, 6, 6])
  }

  function RingSlot(s: nat): Slot {
    if s == 4 then IndexOf(0) else if s == 24 then DataOf(0) else if 4 < s < 24 || s == 28 then Other else Vacant
  }

  lemma RingDrawn()
    ensures Plotted(ROUND, Ring()) && Ring().ix == [4] && Ring().data == [24] && Ring().slots[5] == Other
    ensures var lu := Drawn(ROUND, Ring()).lu; RingEntries(lu) && lu[4] == IndexId(1) && lu[5] == IndexId(7)
  {
  }

  ghost predicate RingEntries(lu: seq<int>) {
    && |lu| == 32 && (forall s :: 4 <= s < 24 ==> Live(lu[s]) && IsIndexId(lu[s])) && Live(lu[24]) && Live(lu[28])
    && (forall s :: (0 <= s < 4 || 25 <= s < 28 || 29 <= s < 32) ==> lu[s] == FREE)
  }

  lemma RingSuffix(lu: seq<int>)
    requires RingEntries(lu)
    ensures FreeSuffix(ROUND, lu) && Undeleted(lu) && Queued(ROUND, lu, 0, 5)
  {
    forall b: nat, s, t | InBlock(ROUND, b, s) && InBlock(ROUND, b, t) && 0 <= s <= t < |lu| && lu[s] == FREE
      ensures lu[t] == FREE
    {
      assert s < 4 || 25 <= s < 28 || 29 <= s < 32;
    }
  }

  lemma RingCounts(lu: seq<int>)
    requires RingEntries(lu)
    ensures All(lu, InUse) == 22 && All(lu, Gone) == 0
  {
    hide Count;
    CountNone(lu, 0, 32, Gone);
    CountSplit(lu, 0, 4, 32, InUse);
    CountSplit(lu, 4, 25, 32, InUse);
    CountSplit(lu, 25, 28, 32, InUse);
    CountSplit(lu, 28, 29, 32, InUse);
    CountNone(lu, 0, 4, InUse);
    CountAll(lu, 4, 25, InUse);
    CountNone(lu, 25, 28, InUse);
    CountAll(lu, 28, 29, InUse);
    CountNone(lu, 29, 32, InUse);
  }

  lemma RingFree(lu: seq<int>)
    requires RingEntries(lu)
    ensures FreeBlocks(ROUND, lu, 8) == 1
  {
    forall c: nat | c < 8
      ensures FirstFree(ROUND, lu, c) <==> c < 1
    {
      assert c == 0 || 4 <= 4 * c < 24 || c == 6 || c == 7;
    }
    FreeFrom(ROUND, lu, 0, 1, 8);
  }

  /** Two pages are free beside the two blocks in reserve, and making room for them gets nowhere. */
  lemma RingIdles(fs: Spiffs)
    requires fs.Valid() && fs.Drift() == 0 && fs.g == ROUND && fs.flash == Drawn(ROUND, Ring()) && fs.freeCursorBlock == 0 && fs.freeCursorEntry == 0 && fs.maxEraseCount == 7
    ensures Reclaim.Idles(fs, 2)
  {
    hide FreeSuffix;
    hide FreeBlocks;
    hide All;
    hide ErasedFree;
    hide DeadMarked;
    hide AllWords;
    hide PageOf;
    RingDrawn();
    RingSuffix(fs.flash.lu);
    RingCounts(fs.flash.lu);
    RingFree(fs.flash.lu);
    assert fs.flash.counts == [6, 1, 2, 3, 4, 5, 6, 6];
    assert Aging([6, 1, 2, 3, 4, 5, 6, 6], 0, 5, 7);
  }

  /** Writing one byte to an empty file, although the room check finds room for it: nothing is written,
      and the header of the file is left with length 0, which no file has, and over which no length can
      be stored. */
  method LeftAtZero(data: seq<int>, maxCandidates: nat)
    returns (fs: Spiffs, res: Status, written: nat, room: bool, ghost dir: Dir)
    requires |data| == 1 && maxCandidates > 0
    ensures Plotted(ROUND, Ring()) && IsFile(ROUND, Meaning(Drawn(ROUND, Ring()), Places(ROUND, Ring())), 7, 0)
    ensures room && res != OK && written == 0 && Linked(ROUND, fs.flash, dir) && HeaderHas(fs.flash, dir, 7, 0)
    ensures forall n: nat :: HeaderHas(WithLength(ROUND, fs.flash, dir, 7, n), dir, 7, 0)
    ensures forall e, n: nat :: !(Linked(ROUND, fs.flash, e) && IsFile(ROUND, Meaning(fs.flash, e), 7, n))
  {
    hide AllWords;
    hide ErasedFree;
    hide DeadMarked;
    hide FreeSuffix;
    hide CursorOk;
    hide FreeBlocks;
    hide All;
    hide Linked;
    hide AllFiles;
    hide NamesDiffer;
    hide FdsOk;
    hide Meaning;
    hide Disk;
    hide IsFile;
    hide FileOf;
    hide IndexPages;
    hide Drawn;
    hide Places;
    hide Plotted;
    hide Spiffs.Stock;
    hide Spiffs.CanTake;
    hide Spiffs.Spare;
    hide Reclaim.FreePages;
    hide Reclaim.Idles;
    hide Reclaim.Jammed;
    hide Survived;
    hide Appending.Ended;
    hide Followed;
    hide Writer;
    hide PageCount;
    hide TopIx;
    hide Foreseen;
    hide First;
    hide Last;
    hide Undeleted;
    hide Roomy;
    hide HeaderHas;
    hide WithLength;
    RingDrawn();
    RingSuffix(Drawn(ROUND, Ring()).lu);
    DrawnSound(ROUND, Ring());
    DrawnOther(ROUND, Ring(), 5);
    OtherPlace(ROUND, Ring(), 5);
    fs := Opened(ROUND, Drawn(ROUND, Ring()), 5, 7, 0, Places(ROUND, Ring()));
    RingCount(fs);
    RingIdles(fs);
    ghost var stage, stock, loss, word, top, lu, free, m0 := Whole, Supply(0, 0), NoLoss, NONE, 0, [], 0, Meaning(fs.flash, Places(ROUND, Ring()));
    res, written, room, stage, stock, loss, word, top, lu, free, dir := Append(fs, 0, 0, data, maxCandidates, Places(ROUND, Ring()));
    NotRoomy(ROUND, lu);
    EndedWord(ROUND, m0, fs.flash, loss, dir, fs.fds, 0, 7, 0, data, written, word, top);
    EndedTop(ROUND, m0, fs.flash, loss, dir, fs.fds, 0, 7, 0, data, written, word, top);
    StoppedAtZero(ROUND, data, stage, word, top);
    forall n: nat
      ensures HeaderHas(WithLength(ROUND, fs.flash, dir, 7, n), dir, 7, 0)
    {
      StuckHere(ROUND, fs.flash, dir, 7, n);
    }
  }

  /** What the header of object `o` becomes when length `n` is programmed into it. */
  ghost function WithLength(g: Geometry, fl: Flash, dir: Dir, o: int, n: int): Flash {
    var x := Key(IndexId(o), 0);
    if x in dir && 0 <= dir[x] < |fl.pages| && fl.pages[dir[x]].body.Header? then
      var page := fl.pages[dir[x]]; Apply(g, fl, PageWrite(dir[x], page.(body := page.body.(size := n))))
    else fl
  }

  /** No length can be stored over length 0. */
  lemma StuckHere(g: Geometry, fl: Flash, dir: Dir, o: int, n: nat)
    requires Linked(g, fl, dir) && HeaderHas(fl, dir, o, 0) && 1 <= o <= MAX_ID
    ensures HeaderHas(WithLength(g, fl, dir, o, n), dir, o, 0)
  {
    hide Linked;
    hide Held;
    var t: nat := dir[Key(IndexId(o), 0)];
    var page := fl.pages[t];
    HeldLoad(g, fl, dir, o, 0);
    HeldPage(g, fl, dir, o, 0, t, page);
    HeldSize(g, fl, dir, o, t, page, n);
    ExtendsItself(page.body);
    LengthStuck(g, fl, dir, o, t, page.(body := page.body.(size := n)), n);
  }

  lemma NotRoomy(g: Geometry, lu: seq<int>)
    requires g.Valid() && |lu| == g.Total() && Undeleted(lu)
    ensures !Roomy(g, lu, 1)
  {
    forall b: nat | b < g.blocks
      ensures !AllGone(g, lu, b)
    {
      BlockFits(g, b);
      assert InBlock(g, b, g.BlockStart(b));
    }
  }

  lemma OtherPlace(g: Geometry, p: Plot, s: nat)
    requires Plotted(g, p) && s < |p.slots| && p.slots[s] == Other
    ensures var k := Key(IndexId(s + 2), 0); k in Places(g, p) && Places(g, p)[k] == s
  {
    hide Places;
    assert KeyOf(p.slots[s], s) == Key(IndexId(s + 2), 0);
  }

  lemma StoppedAtZero(g: Geometry, data: seq<int>, stage: Stage, word: int, top: nat)
    requires g.Valid() && |data| == 1 && AppendStopped(g, 0, 1, stage, 0, word, top)
    ensures !AppendOrder(g, 0, data, stage) && stage != Whole
  {
    hide Quot;
    QuotRemOf(0, 0, g.dps);
  }

  lemma RingCount(fs: Spiffs)
    requires fs.flash == Drawn(ROUND, Ring())
    requires forall most: int :: 0 < most < IX_FLAG && most in fs.flash.counts && (forall b :: 0 <= b < |fs.flash.counts| ==> 0 <= fs.flash.counts[b] <= most) ==> fs.maxEraseCount == most + 1
    ensures fs.maxEraseCount == 7
  {
    hide EntryOf;
    hide PageOf;
    var counts := fs.flash.counts;
    assert counts == [6, 1, 2, 3, 4, 5, 6, 6];
    assert counts[0] == 6;
    assert 6 in counts;
  }

  lemma RingOwn()
    requires Plotted(ROUND, Ring())
    ensures |OwnKeys(Places(ROUND, Ring()), 1)| <= 2
  {
    hide Plotted;
    hide Places;
    RingDrawn();
    var keys, d := OwnKeys(Places(ROUND, Ring()), 1), Places(ROUND, Ring());
    forall k | k in keys
      ensures k == Key(1, 0) || k == Key(IndexId(1), 0)
    {
      PlaceKey(ROUND, Ring(), k);
    }
    assert keys <= {Key(1, 0), Key(IndexId(1), 0)};
    Slack.Smaller(keys, {Key(1, 0), Key(IndexId(1), 0)});
  }

  /** The pages of the file are those that are drawn. */
  lemma PlaceKey(g: Geometry, p: Plot, k: Key)
    requires Plotted(g, p) && k in Places(g, p) && ObjectId(k.id) == 1
    ensures (k.id == 1 && 0 <= k.span < |p.data|) || (k.id == IndexId(1) && 0 <= k.span < |p.ix|)
  {
    hide PageOf;
    var s := Places(g, p)[k];
    assert k == KeyOf(p.slots[s], s);
  }

  /** Emptying the file of one byte, although the room check finds room for it, stops for want of a page for
      a new header, and leaves no file. */
  method TruncationStops(maxCandidates: nat)
    returns (fs: Spiffs, res: Status, ghost room: bool)
    requires maxCandidates > 0
    ensures Plotted(ROUND, Ring()) && FileOf(ROUND, Meaning(Drawn(ROUND, Ring()), Places(ROUND, Ring())), 1) == File([1], [0])
    ensures room && res != OK
    ensures forall e, n: nat :: !(Linked(ROUND, fs.flash, e) && IsFile(ROUND, Meaning(fs.flash, e), 1, n))
  {
    hide AllWords;
    hide ErasedFree;
    hide DeadMarked;
    hide FreeSuffix;
    hide CursorOk;
    hide FreeBlocks;
    hide All;
    hide Linked;
    hide AllFiles;
    hide NamesDiffer;
    hide FdsOk;
    hide Meaning;
    hide Disk;
    hide IsFile;
    hide FileOf;
    hide IndexPages;
    hide Drawn;
    hide Places;
    hide Plotted;
    hide Spiffs.Stock;
    hide Spiffs.CanTake;
    hide Spiffs.Spare;
    hide Reclaim.FreePages;
    hide Reclaim.Idles;
    hide Survived;
    hide Removed;
    hide Emptied;
    hide FileIO.Harmed;
    hide BlankMaps;
    hide MapsOk;
    hide Mapless;
    hide SameOpen;
    hide TopIx;
    hide OwnKeys;
    hide OwnSlots;
    RingDrawn();
    RingSuffix(Drawn(ROUND, Ring()).lu);
    DrawnSound(ROUND, Ring());
    assert seq(1, _ => 0) == [0];
    fs := Opened(ROUND, Drawn(ROUND, Ring()), 4, 1, 1, Places(ROUND, Ring()));
    RingCount(fs);
    RingIdles(fs);
    RingOwn();
    FirstTop(ROUND);
    ghost var stock, loss, dir, m0 := Supply(0, 0), NoLoss, map[], Meaning(fs.flash, Places(ROUND, Ring()));
    res, room, stock, loss, dir := Truncate(fs, 0, false, maxCandidates, Places(ROUND, Ring()));
    forall e, n: nat
      ensures !(Linked(ROUND, fs.flash, e) && IsFile(ROUND, Meaning(fs.flash, e), 1, n))
    {
      FileIO.HarmedExact(ROUND, m0, fs.flash, loss, dir, fs.fds, 1, e, n);
    }
  }

  lemma FirstTop(g: Geometry)
    requires g.Valid()
    ensures TopIx(g, 1) == 0
  {
    assert Quot(0, g.dps) == 0;
  }
}
