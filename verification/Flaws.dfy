/** Where the program does not do what it is for: media and calls that show it. */
module Flaws {
  import opened Words
  import opened Layout
  import opened Medium
  import opened Directory
  import opened Tally
  import opened Store
  import opened Collector
  import opened Files
  import opened FileSystem
  import opened Names
  import opened Maps
  import opened Api
  import opened History
  import opened Appending
  import opened Following
  import opened Slack
  import opened Removal
  import opened Plans
  import FileIO
  import Media
  import Crash
  import Mount
  import Reclaim

  // A file destroyed by making another.

  const SMALL := Geometry(4, 3, 1, 1, 4, 1, 2)

  function DataPage(span: int): Page {
    Page(1, span, DATA_FLAGS, Data([span + 1]))
  }

  const DEAD := Page(1, 0, Flags(false, false, true, false, true), Data([0]))

  const HEADER := Page(IndexId(1), 0, INDEX_FLAGS, Header(4, [97, 0], [0, 3, 6, 10]))

  /** A file of four bytes with the name "a": a data page in each block, deleted pages around them, and
      one free entry. */
  const CRAMMED := Flash(
    [1, DELETED, DELETED, 1, DELETED, DELETED, 1, DELETED, DELETED, IndexId(1), 1, FREE],
    [DataPage(0), DEAD, DEAD, DataPage(1), DEAD, DEAD, DataPage(2), DEAD, DEAD, HEADER, DataPage(3), ERASED],
    [1, 1, 1, 1])

  const PLACES: Dir := map[Key(1, 0) := 0, Key(1, 1) := 3, Key(1, 2) := 6, Key(IndexId(1), 0) := 9, Key(1, 3) := 10]

  lemma CrammedShape()
    ensures Shaped(SMALL, CRAMMED) && AllWords(CRAMMED.lu) && ErasedFree(CRAMMED) && DeadMarked(CRAMMED)
    ensures FreeSuffix(SMALL, CRAMMED.lu)
  {
    forall b: nat, s, t | InBlock(SMALL, b, s) && InBlock(SMALL, b, t) && 0 <= s <= t < |CRAMMED.lu| && CRAMMED.lu[s] == FREE
      ensures CRAMMED.lu[t] == FREE
    {
      assert s == 11;
    }
  }

  lemma CrammedPages()
    ensures GoodPages(SMALL, CRAMMED) && Headed(PLACES)
    ensures Locates(CRAMMED, PLACES)
  {
    forall s | 0 <= s < |CRAMMED.lu| && Live(CRAMMED.lu[s])
      ensures KeyAt(CRAMMED, s) in PLACES && PLACES[KeyAt(CRAMMED, s)] == s && GoodPage(SMALL, CRAMMED.lu[s], CRAMMED.pages[s])
    {
      assert s == 0 || s == 3 || s == 6 || s == 9 || s == 10;
    }
  }

  lemma CrammedRefs()
    ensures RefsAt(CRAMMED, PLACES, Key(IndexId(1), 0)) == [0, 3, 6, 10]
    ensures RefsLead(SMALL, CRAMMED, PLACES)
  {
    var x := Key(IndexId(1), 0);
    assert RefsAt(CRAMMED, PLACES, x) == [0, 3, 6, 10];
    forall k, i | k in PLACES && IsIndexId(k.id) && RefAt(CRAMMED, PLACES, k, i) != NONE
      ensures RefLeads(SMALL, CRAMMED, k, i, RefAt(CRAMMED, PLACES, k, i))
    {
      assert k == x && (i == 0 || i == 1 || i == 2 || i == 3);
      assert RefAt(CRAMMED, PLACES, x, 0) == 0 && RefAt(CRAMMED, PLACES, x, 1) == 3 && RefAt(CRAMMED, PLACES, x, 2) == 6 && RefAt(CRAMMED, PLACES, x, 3) == 10;
    }
  }

  lemma CrammedReferred(span: nat)
    requires span < 4
    ensures Referred(SMALL, CRAMMED, PLACES, Key(1, span))
  {
    var x := Key(IndexId(1), 0);
    CrammedRefs();
    assert IndexKey(SMALL, Key(1, span)) == x && IxEntry(SMALL, span) == span;
    assert RefAt(CRAMMED, PLACES, x, span) == [0, 3, 6, 10][span];
  }

  lemma CrammedLinked()
    ensures Linked(SMALL, CRAMMED, PLACES)
  {
    hide Referred;
    hide RefsLead;
    hide Locates;
    hide GoodPages;
    hide ErasedFree;
    hide Headed;
    CrammedShape();
    CrammedPages();
    CrammedRefs();
    forall k | k in PLACES && !IsIndexId(k.id)
      ensures Referred(SMALL, CRAMMED, PLACES, k)
    {
      CrammedReferred(0);
      CrammedReferred(1);
      CrammedReferred(2);
      CrammedReferred(3);
      assert k == Key(1, 0) || k == Key(1, 1) || k == Key(1, 2) || k == Key(1, 3);
    }
  }

  lemma CrammedFile()
    ensures AllFiles(SMALL, Meaning(CRAMMED, PLACES)) && NamesDiffer(Disk(SMALL, Meaning(CRAMMED, PLACES)))
    ensures Disk(SMALL, Meaning(CRAMMED, PLACES)) == map[1 := File([97], [1, 2, 3, 4])]
  {
    var m := Meaning(CRAMMED, PLACES);
    assert m[Key(IndexId(1), 0)] == Header(4, [97, 0], []);
    forall o
      ensures o in Ids(m) <==> o == 1
    {
      if o in Ids(m) {
        var k :| k in m && IsIndexId(k.id) && k.span == 0 && ObjectId(k.id) == o;
      }
      InIds(m, 1);
    }
    assert PageCount(SMALL, 4) == 4 && TopIx(SMALL, 4) == 0;
    assert DataPages(SMALL, m, 1, 4);
    assert IsFile(SMALL, m, 1, 4);
    assert CStr([97, 0]) == [97] by {
      StrUnique([97, 0], [97]);
    }
    assert Contents(SMALL, m, 1, 4) == [1, 2, 3, 4];
  }

  lemma HasData(fl: Flash, lo: int, hi: int, s: int)
    requires 0 <= lo <= s < hi && s < |fl.lu| && fl.lu[s] > 0
    ensures !NoData(fl, lo, hi)
  {
  }

  lemma CrammedBlock(b: nat)
    requires b < 4
    ensures !NoData(CRAMMED, 3 * b, 3 * b + 3)
  {
    hide NoData;
    HasData(CRAMMED, 3 * b, 3 * b + 3, if b == 3 then 10 else 3 * b);
  }

  lemma CrammedFree()
    ensures OneFree(CRAMMED.lu)
  {
    assert CRAMMED.lu[11] == FREE && forall x :: 0 <= x < 12 && x != 11 ==> CRAMMED.lu[x] != FREE;
  }

  lemma CrammedDoomed()
    ensures Reclaim.Doomed(SMALL, CRAMMED)
  {
    hide NoData;
    hide OneFree;
    CrammedFree();
    forall b | 0 <= b < SMALL.blocks
      ensures !NoData(CRAMMED, SMALL.BlockStart(b), SMALL.BlockStart(b) + SMALL.n)
    {
      CrammedBlock(b);
    }
  }

  lemma CrammedCounts()
    ensures FreeBlocks(SMALL, CRAMMED.lu, 4) == 0 && All(CRAMMED.lu, InUse) == 5 && All(CRAMMED.lu, Gone) == 6
  {
    assert FreeBlocks(SMALL, CRAMMED.lu, 2) == 0;
    assert FreeBlocks(SMALL, CRAMMED.lu, 4) == 0;
    CountSplit(CRAMMED.lu, 0, 6, 12, InUse);
    CountSplit(CRAMMED.lu, 0, 6, 12, Gone);
    Six(CRAMMED.lu, 0, InUse);
    Six(CRAMMED.lu, 6, InUse);
    Six(CRAMMED.lu, 0, Gone);
    Six(CRAMMED.lu, 6, Gone);
  }

  lemma Six(lu: seq<int>, lo: nat, c: Kind)
    requires lo + 6 <= |lu|
    ensures Count(lu, lo, lo + 6, c) ==
      (if KindOf(lu[lo]) == c then 1 else 0) + (if KindOf(lu[lo + 1]) == c then 1 else 0) + (if KindOf(lu[lo + 2]) == c then 1 else 0)
      + (if KindOf(lu[lo + 3]) == c then 1 else 0) + (if KindOf(lu[lo + 4]) == c then 1 else 0) + (if KindOf(lu[lo + 5]) == c then 1 else 0)
  {
    assert Count(lu, lo, lo + 2, c) == Count(lu, lo, lo + 1, c) + (if KindOf(lu[lo + 1]) == c then 1 else 0);
    assert Count(lu, lo, lo + 4, c) == Count(lu, lo, lo + 2, c) + (if KindOf(lu[lo + 2]) == c then 1 else 0) + (if KindOf(lu[lo + 3]) == c then 1 else 0);
  }

  lemma CrammedMounted(fs: Spiffs)
    requires fs.g == SMALL && fs.flash == CRAMMED && fs.Valid() && fs.Drift() == 0
    ensures Reclaim.Collects(fs, fs.g.dps) && IdLeft(fs.flash.lu, 1)
  {
    hide AllWords;
    hide ErasedFree;
    hide DeadMarked;
    hide FreeSuffix;
    hide FreeBlocks;
    hide All;
    CrammedCounts();
    assert !Taken(CRAMMED.lu, 2);
  }

  lemma NotNamed(d: map<int, File>, path: seq<int>)
    requires d == map[1 := File([97], [1, 2, 3, 4])] && path != [97]
    ensures !Api.Named(d, path)
  {
  }

  /** If there is only one object, it is the one that lost an index page. */
  lemma OnlyLoser(g: Geometry, v: Flash, dir0: Dir, fds0: seq<Fd>, w: Flash, loss: Loss, dir: Dir, fds: seq<Fd>, o: int)
    requires Sound(g, v, dir0, fds0) && Survived(g, v, dir0, fds0, w, loss, dir, fds) && loss.Unstored?
    requires forall k :: k in dir0 && IsIndexId(k.id) ==> k.id == IndexId(o)
    ensures forall e, n: nat :: !(Linked(g, w, e) && IsFile(g, Meaning(w, e), o, n))
  {
    hide RefsLead;
    hide DataReferred;
    hide GoodPages;
    hide ErasedFree;
    hide AllFiles;
    hide NamesDiffer;
    hide FdsOk;
    hide Calm;
    hide IsFile;
    SurvivedSpared(g, v, dir0, fds0, w, loss, dir, fds);
    var m := Mended(w, loss);
    assert m.lu == w.lu && KeyAt(m, loss.t) in dir && dir.Keys == Meaning(m, dir).Keys == Meaning(v, dir0).Keys == dir0.Keys;
    assert ObjectId(IndexId(o)) == o || Loser(w, loss) == o;
    forall e, n: nat
      ensures !(Linked(g, w, e) && IsFile(g, Meaning(w, e), o, n))
    {
      FileIO.HarmedExact(g, Meaning(v, dir0), w, loss, dir, fds, o, e, n);
    }
  }

  /** Making any other file on this medium destroys the one that is there: one of its data pages goes
      to the free entry, and there is no room to store its index page again. */
  method CreatLoses(path: seq<int>, maxCandidates: nat, fdCount: nat)
    returns (fs: Spiffs, res: Status, ghost loss: Loss, ghost dir: Dir)
    requires IsPath(path, SMALL.nameLen) && path != [97] && maxCandidates > 0
    ensures Disk(SMALL, Meaning(CRAMMED, PLACES)) == map[1 := File([97], [1, 2, 3, 4])]
    ensures res != OK && forall e, n: nat :: !(Linked(SMALL, fs.flash, e) && IsFile(SMALL, Meaning(fs.flash, e), 1, n))
  {
    hide Linked;
    hide AllFiles;
    hide NamesDiffer;
    hide FdsOk;
    hide Meaning;
    hide Disk;
    hide IsFile;
    hide AllWords;
    hide ErasedFree;
    hide DeadMarked;
    hide FreeSuffix;
    hide CursorOk;
    hide FreeBlocks;
    hide All;
    hide Survived;
    hide Reclaim.Doomed;
    hide Reclaim.Collects;
    hide IdLeft;
    hide Quiet;
    hide Api.Named;
    hide Sound;
    CrammedShape();
    CrammedLinked();
    CrammedFile();
    CrammedDoomed();
    fs := Mount.Mount(SMALL, CRAMMED, fdCount, PLACES);
    CrammedMounted(fs);
    ghost var id, fds0 := 0, fs.fds;
    NotNamed(Disk(fs.g, Meaning(fs.flash, PLACES)), path);
    assert Reclaim.Doomed(fs.g, fs.flash);
    res, id, loss, dir := Api.Creat(fs, path, 1, maxCandidates, PLACES);
    assert loss.Unstored?;
    OnlyLoser(SMALL, CRAMMED, PLACES, fds0, fs.flash, loss, dir, fs.fds, 1);
  }

  // A write that stops in the middle, although there was room.

  ghost function KeyRange(id: int, n: nat): (r: set<Key>)
    ensures |r| == n && forall k :: k in r <==> k.id == id && 0 <= k.span < n
  {
    if n == 0 then {} else KeyRange(id, n - 1) + {Key(id, n - 1)}
  }

  /** With a free block left, the pages of a file fit into the other blocks. */
  lemma FilePages(fs: Spiffs, dir: Dir, o: int, len: nat)
    requires fs.Valid() && fs.Drift() == 0 && fs.freeBlocks >= 1
    requires Linked(fs.g, fs.flash, dir) && IsFile(fs.g, Meaning(fs.flash, dir), o, len)
    ensures PageCount(fs.g, len) + TopIx(fs.g, len) + 1 <= fs.g.Total() - fs.g.n
  {
    hide CursorOk;
    hide FreeSuffix;
    hide ErasedFree;
    hide DeadMarked;
    hide AllWords;
    hide Linked;
    hide FreeBlocks;
    hide Geometry.Total;
    hide Geometry.BlockStart;
    hide PageCount;
    hide TopIx;
    hide Count;
    var g, lu, m := fs.g, fs.flash.lu, Meaning(fs.flash, dir);
    PagesOf(g, m, o, PageCount(g, len), TopIx(g, len));
    LiveCount(g, fs.flash, dir);
    BlockFits(g, 0);
    CountKinds(lu, 0, |lu|);
    FreeAtLeast(g, lu, fs.freeCursorBlock, fs.freeCursorEntry);
  }

  lemma PagesOf(g: Geometry, m: Image, o: int, count: nat, top: nat)
    requires DataPages(g, m, o, count) && IndexPages(m, o, top) && 1 <= o <= MAX_ID
    ensures count + top + 1 <= |m.Keys|
  {
    var all := KeyRange(o, count) + KeyRange(IndexId(o), top + 1);
    assert KeyRange(o, count) !! KeyRange(IndexId(o), top + 1);
    forall k | k in all
      ensures k in m
    {
      assert k == Key(o, k.span) || k == Key(IndexId(o), k.span);
    }
    assert all <= m.Keys;
    Slack.Smaller(all, m.Keys);
  }

  lemma FreeAtLeast(g: Geometry, lu: seq<int>, cb: nat, ce: nat)
    requires g.Valid() && |lu| == g.Total() && FreeSuffix(g, lu) && CursorOk(g, lu, cb, ce) && FreeBlocks(g, lu, g.blocks) >= 1
    ensures Count(lu, 0, |lu|, Unused) >= g.n
  {
    hide FreeSuffix;
    hide FreeBlocks;
    hide Count;
    hide Geometry.Total;
    hide Geometry.BlockStart;
    BlockFits(g, 0);
    TailEntries(g, lu, g.blocks, cb, ce);
    assert (FreeBlocks(g, lu, g.blocks) - 1) * g.n >= 0;
    assert FreeBlocks(g, lu, g.blocks) * g.n == (FreeBlocks(g, lu, g.blocks) - 1) * g.n + g.n;
  }

  /** The room check counts data pages alone. An append that passes it, and needs more pages with its
      index pages than fit beside one free block, stops in the middle. */
  method AppendStops(fs: Spiffs, fdi: nat, data: seq<int>, maxCandidates: nat, ghost dir0: Dir)
    returns (res: Status, written: nat, ghost loss: Loss, ghost dir: Dir)
    requires fs.Valid() && !fs.cleaning && fs.Drift() == 0 && maxCandidates > 0 && |data| > 0
    requires Consistent(fs.g, fs.flash, dir0, fs.fds) && OpenFile(fs.g, Meaning(fs.flash, dir0), fs.fds, fdi)
    requires fs.freeBlocks > 3 && |data| + fs.g.dps < Reclaim.FreePages(fs) * fs.g.dps
    requires var len := Length(fs.fds[fdi].size) + |data|; PageCount(fs.g, len) + TopIx(fs.g, len) + 1 > fs.g.Total() - fs.g.n
    modifies fs
    ensures fs.Valid() && res != OK && !fs.CanTake()
    ensures old(Length(fs.fds[fdi].size)) == 0 ==> written > 0
  {
    hide FreeSuffix;
    hide CursorOk;
    hide All;
    hide FreeBlocks;
    hide ErasedFree;
    hide DeadMarked;
    hide Linked;
    hide FdsOk;
    hide Meaning;
    hide IsFile;
    hide PageCount;
    hide TopIx;
    hide Writer;
    hide Appending.Ended;
    hide Reclaim.FreePages;
    hide Spiffs.CanTake;
    hide Followed;
    var room;
    ghost var stage, stock, word, top, lu, free;
    ghost var o, n, m0 := ObjectId(fs.fds[fdi].objId), Length(fs.fds[fdi].size), Meaning(fs.flash, dir0);
    OpenId(fs.g, m0, fs.fds, fdi);
    var size := Length(fs.fds[fdi].size);
    res, written, room, stage, stock, loss, word, top, lu, free, dir := Append(fs, fdi, size, data, maxCandidates, dir0);
    EndedWord(fs.g, m0, fs.flash, loss, dir, fs.fds, fdi, o, n, data, n + written, word, top);
    if res == OK {
      WholeFile(fs.g, fs.flash, loss, dir, fs.fds, fdi, m0, o, n, data, top);
      FilePages(fs, dir, o, n + |data|);
    }
  }

  lemma WholeFile(g: Geometry, fl: Flash, loss: Loss, dir: Dir, fds: seq<Fd>, fdi: nat, m0: Image, o: int, off: nat, data: seq<int>, top: nat)
    requires g.Valid() && |data| > 0 && 1 <= o <= MAX_ID && top == TopIx(g, off + |data|)
    requires Appending.Ended(g, m0, fl, loss, dir, fds, fdi, o, off, data, off + |data|, off + |data|, top)
    ensures Linked(g, fl, dir) && IsFile(g, Meaning(fl, dir), o, off + |data|)
  {
    hide Linked;
    hide IsFile;
    hide Appending.Ended;
    hide TopIx;
    hide PageCount;
    EndedFile(g, fl, loss, dir, fds, fdi, m0, o, off, data, off + |data|, top);
    EndedExact(g, fl, loss, dir, fds, fdi, m0, o, off, data, off + |data|, off + |data|, top);
  }

  const THIN := Geometry(5, 4, 1, 1, 1, 1, 2)

  /** One empty file with the name "a", and nothing else. */
  function Almost(): Flash {
    Flash([IndexId(1)] + seq(19, _ => FREE), [Page(IndexId(1), 0, INDEX_FLAGS, Header(NONE, [97, 0], [NONE]))] + seq(19, _ => ERASED), [1, 1, 1, 1, 1])
  }

  const AT: Dir := map[Key(IndexId(1), 0) := 0]

  lemma AlmostShape()
    ensures Shaped(THIN, Almost()) && AllWords(Almost().lu) && ErasedFree(Almost()) && DeadMarked(Almost())
    ensures FreeSuffix(THIN, Almost().lu)
    ensures Linked(THIN, Almost(), AT)
  {
    var fl := Almost();
    assert fl.lu[0] == IndexId(1) && forall s :: 1 <= s < 20 ==> fl.lu[s] == FREE && fl.pages[s] == ERASED;
    forall b: nat, s, t | InBlock(THIN, b, s) && InBlock(THIN, b, t) && 0 <= s <= t < |fl.lu| && fl.lu[s] == FREE
      ensures fl.lu[t] == FREE
    {
      assert s > 0;
    }
    assert RefsAt(fl, AT, Key(IndexId(1), 0)) == [NONE];
  }

  lemma AlmostFile()
    ensures AllFiles(THIN, Meaning(Almost(), AT)) && NamesDiffer(Disk(THIN, Meaning(Almost(), AT)))
    ensures Disk(THIN, Meaning(Almost(), AT)) == map[1 := File([97], [])]
  {
    var m := Meaning(Almost(), AT);
    assert m == map[Key(IndexId(1), 0) := Header(NONE, [97, 0], [])];
    forall o
      ensures o in Ids(m) <==> o == 1
    {
      if o in Ids(m) {
        var k :| k in m && IsIndexId(k.id) && k.span == 0 && ObjectId(k.id) == o;
      }
      InIds(m, 1);
    }
    assert IsFile(THIN, m, 1, 0);
    assert CStr([97, 0]) == [97] by {
      StrUnique([97, 0], [97]);
    }
  }

  lemma AlmostCounts()
    ensures All(Almost().lu, InUse) == 1 && All(Almost().lu, Gone) == 0 && FreeBlocks(THIN, Almost().lu, 5) == 4
    ensures |Almost().lu| == 20 == |Almost().pages| && Almost().lu[0] == IndexId(1) && HeaderSize(Almost().pages[0]) == NONE
  {
    hide FreeBlocks;
    var lu := Almost().lu;
    assert lu[0] == IndexId(1) && forall s :: 1 <= s < 20 ==> lu[s] == FREE;
    CountSplit(lu, 0, 1, 20, InUse);
    CountNone(lu, 1, 20, InUse);
    CountSplit(lu, 0, 1, 20, Gone);
    CountNone(lu, 1, 20, Gone);
    assert Count(lu, 0, 1, InUse) == 1 && Count(lu, 0, 1, Gone) == 0;
    AlmostBlocks(lu, 5);
  }

  lemma {:induction false} AlmostBlocks(lu: seq<int>, b: nat)
    requires |lu| == 20 && lu[0] != FREE && (forall s :: 1 <= s < 20 ==> lu[s] == FREE) && b <= 5
    ensures FreeBlocks(THIN, lu, b) == if b == 0 then 0 else b - 1
  {
    if b > 0 {
      AlmostBlocks(lu, b - 1);
    }
  }

  lemma AlmostMounted(fs: Spiffs)
    requires fs.g == THIN && fs.flash == Almost() && fs.Valid() && fs.Drift() == 0
    ensures fs.freeBlocks == 4 && Reclaim.FreePages(fs) == 11
    ensures PageCount(THIN, 9) + TopIx(THIN, 9) + 1 == 18 && THIN.Total() - THIN.n == 16
  {
    hide AllWords;
    hide ErasedFree;
    hide DeadMarked;
    hide FreeSuffix;
    hide CursorOk;
    hide FreeBlocks;
    hide All;
    hide Quot;
    AlmostCounts();
    Media.QuotOne(8);
    Media.QuotOne(7);
  }

  /** Writing nine bytes to the empty file stops in the middle, although the room check finds 11 pages
      free. */
  method StopsHere(data: seq<int>, maxCandidates: nat)
    returns (fs: Spiffs, res: Status, written: nat)
    requires |data| == 9 && maxCandidates > 0
    ensures Disk(THIN, Meaning(Almost(), AT)) == map[1 := File([97], [])]
    ensures fs.Valid() && res != OK && written > 0
  {
    hide AllWords;
    hide ErasedFree;
    hide DeadMarked;
    hide FreeSuffix;
    hide CursorOk;
    hide FreeBlocks;
    hide All;
    hide Linked;
    hide AllFiles;
    hide NamesDiffer;
    hide FdsOk;
    hide Meaning;
    hide Disk;
    hide IsFile;
    hide PageCount;
    hide TopIx;
    AlmostShape();
    AlmostFile();
    fs := Mount.Mount(THIN, Almost(), 1, AT);
    AlmostMounted(fs);
    AlmostCounts();
    var status := OpenByPage(fs, 0, 0, HIT_SCORE, AT);
    ghost var loss, dir;
    res, written, loss, dir := AppendStops(fs, 0, data, maxCandidates, AT);
  }

  // A free block counted twice.

  lemma FreshCollects(fs: Spiffs, width: nat)
    requires fs.Valid() && fs.Drift() == 0 && AllFree(fs.flash.lu) && fs.g.blocks == 3 && width > 0
    ensures Reclaim.Collects(fs, fs.g.dps) && IdLeft(fs.flash.lu, width)
  {
    hide AllWords;
    hide ErasedFree;
    hide DeadMarked;
    hide FreeSuffix;
    hide Geometry.BlockStart;
    var g, lu := fs.g, fs.flash.lu;
    CountNone(lu, 0, |lu|, InUse);
    CountNone(lu, 0, |lu|, Gone);
    assert (g.dps + g.dps - 1) / g.dps == 1;
    assert g.n * (g.blocks - 2) == g.n;
    assert !Taken(lu, MIN_ID);
  }

  lemma NoFiles(path: seq<int>)
    ensures NamesDiffer(map[]) && !Api.Named(map[], path)
  {
  }

  /** Making the first file on a freshly formatted medium of three blocks erases a block that is free,
      and counts it as one more free block. */
  method FreshDrifts(g: Geometry, blank: Flash, path: seq<int>, width: nat, maxCandidates: nat, fdCount: nat)
    returns (fs: Spiffs, res: Status)
    requires Shaped(g, blank) && g.blocks == 3 && IsPath(path, g.nameLen) && maxCandidates > 0
    requires 0 < width && TopId(g) - MIN_ID <= width * 8 <= MAX_ID
    ensures fs.g == g && fs.Valid() && fs.freeBlocks > FreeBlocks(g, fs.flash.lu, g.blocks)
  {
    hide AllWords;
    hide ErasedFree;
    hide DeadMarked;
    hide FreeSuffix;
    hide CursorOk;
    hide FreeBlocks;
    hide All;
    hide Linked;
    hide AllFiles;
    hide NamesDiffer;
    hide FdsOk;
    hide Survived;
    hide Reclaim.Collects;
    hide Reclaim.Doomed;
    hide IdLeft;
    hide Quiet;
    hide Meaning;
    hide Disk;
    hide Api.Named;
    var fl := Mount.Format(g, blank);
    Mount.EmptyMedium(g, fl);
    NoFiles(path);
    fs := Mount.Mount(g, fl, fdCount, map[]);
    FreshCollects(fs, width);
    assert Disk(g, Meaning(fl, map[])) == map[];
    ghost var id, loss, dir;
    res, id, loss, dir := Api.Creat(fs, path, width, maxCandidates, map[]);
  }

  // Descriptors with score 0.

  /** What happens to a header page, short of its deletion, is told to a descriptor exactly if its
      score is not 0: a descriptor that knew where the header was still does exactly if its score is
      not 0 or the header stayed where it was. */
  lemma HeaderMissed(fd: Fd, ev: IxEvent, id: int, pix: int, size: int)
    requires ObjectId(fd.objId) == ObjectId(id) && ev != IxDeleted
    ensures var e := EventFd(fd, ev, id, 0, pix, size);
      && e.hdr == (if fd.score == 0 then fd.hdr else pix)
      && (e.hdr == pix <==> fd.score != 0 || fd.hdr == pix)
  {
    EventFields(fd, ev, id, 0, pix, size);
  }

  /** A file is renamed while descriptor `q` is open for it. The descriptor knows where the header went
      exactly if its score is not 0; otherwise it points at a deleted page. */
  method RenameUnder(fs: Spiffs, q: nat, o: int, path: seq<int>, newPath: seq<int>, ghost dir0: Dir)
    returns (res: Status, ghost dir: Dir)
    requires fs.Valid() && !fs.cleaning && Sound(fs.g, fs.flash, dir0, fs.fds) && IsString(path) && IsString(newPath)
    requires Owner(dir0, fs.fds, q, o)
    requires var d := Disk(fs.g, Meaning(fs.flash, dir0)); o in d && d[o].name == path
    modifies fs
    ensures fs.Valid() && Sound(fs.g, fs.flash, dir, fs.fds) && q < |fs.fds|
    ensures
      var d := Disk(fs.g, Meaning(old(fs.flash), dir0));
      |path| < fs.g.nameLen && |newPath| < fs.g.nameLen && !Api.Named(d, newPath) && FdLeft(old(fs.fds), false) && old(fs.Spare()) >= 1 ==> res == OK
    ensures res == OK ==>
      && o in Disk(fs.g, Meaning(fs.flash, dir)) && Disk(fs.g, Meaning(fs.flash, dir))[o].name == newPath
      && (Owner(dir, fs.fds, q, o) <==> old(fs.fds)[q].score != 0)
      && (old(fs.fds)[q].score == 0 ==>
           && fs.fds[q] == old(fs.fds)[q] && 0 <= fs.fds[q].hdr < |fs.flash.lu|
           && fs.flash.lu[fs.fds[q].hdr] == DELETED)
  {
    hide FreeSuffix;
    hide CursorOk;
    hide All;
    hide FreeBlocks;
    hide ErasedFree;
    hide DeadMarked;
    hide Linked;
    hide FdsOk;
    hide Meaning;
    hide AllFiles;
    hide NamesDiffer;
    hide Disk;
    hide EventFd;
    hide Crash.RenameWrites;
    hide FdLeft;
    hide MapsOk;
    hide Quiet;
    hide Spiffs.Spare;
    ghost var fd, d, renamed, fdi, dst := fs.fds[q], Disk(fs.g, Meaning(fs.flash, dir0)), 0, 0, 0;
    ghost var count := |fs.fds|;
    assert Api.Named(d, path);
    res, renamed, fdi, dst, dir := Api.Rename(fs, path, newPath, dir0);
    QuietCount(old(fs.fds), fs.fds);
    if res == OK {
      OneOf(d, renamed, o);
      HeaderMissed(fd, IxHeaderUpdated, IndexId(o), dst, WordOf(|d[o].bytes|));
      EventFields(fd, IxHeaderUpdated, IndexId(o), 0, dst, WordOf(|d[o].bytes|));
      UntoldFd(fd, IndexId(o), dst, WordOf(|d[o].bytes|));
      NotDeleted(fs.g, fs.flash, dir, Key(IndexId(o), 0));
    }
  }

  lemma QuietCount(fds0: seq<Fd>, fds: seq<Fd>)
    requires Quiet(fds0, fds, NONE)
    ensures |fds| == |fds0|
  {
  }

  lemma OneOf(d: map<int, File>, a: int, b: int)
    requires NamesDiffer(d) && a in d && b in d && d[a].name == d[b].name
    ensures a == b
  {
  }

  lemma UntoldFd(fd: Fd, id: int, pix: int, size: int)
    ensures fd.score == 0 ==> EventFd(fd, IxHeaderUpdated, id, 0, pix, size) == fd
  {
  }

  lemma NotDeleted(g: Geometry, fl: Flash, dir: Dir, k: Key)
    requires Linked(g, fl, dir) && k in dir
    ensures 0 <= dir[k] < |fl.lu| && fl.lu[dir[k]] != DELETED
  {
    hide RefsLead;
    hide DataReferred;
  }

  /** Two descriptors were never used. */
  ghost predicate Unused2(fds: seq<Fd>) {
    exists i, j :: 0 <= i < j < |fds| && fds[i].fileNbr == 0 && fds[i].score == 0 && fds[j].fileNbr == 0 && fds[j].score == 0
  }

  lemma UnusedFd(fds: seq<Fd>)
    requires Unused2(fds)
    ensures FdLeft(fds, false)
  {
  }

  lemma StillUnused(fds0: seq<Fd>, fds: seq<Fd>, fdi: nat)
    requires Unused2(fds0) && |fds| == |fds0| && fdi < |fds| && fds[fdi].fileNbr == 0
    requires forall i :: 0 <= i < |fds| ==> fds[i] == fds0[i].(score := Sunk(fds0[i], false))
    requires forall i :: 0 <= i < |fds| && fds[i].fileNbr == 0 ==> fds[fdi].score <= fds[i].score
    ensures fds == fds0 && fds[fdi].score == 0
  {
    var i, j :| 0 <= i < j < |fds0| && fds0[i].fileNbr == 0 && fds0[i].score == 0 && fds0[j].fileNbr == 0 && fds0[j].score == 0;
    assert fds[i].fileNbr == 0 && fds[i].score == 0;
  }

  lemma OneLeft(fds: seq<Fd>, fdi: nat, fd: Fd)
    requires Unused2(fds) && fdi < |fds|
    ensures FdLeft(fds[fdi := fd], false)
  {
    var fds' := fds[fdi := fd];
    var i, j :| 0 <= i < j < |fds| && fds[i].fileNbr == 0 && fds[i].score == 0 && fds[j].fileNbr == 0 && fds[j].score == 0;
    assert fds'[if i == fdi then j else i].fileNbr == 0;
  }

  lemma DiskHas(g: Geometry, m: Image, o: int)
    requires g.Valid() && o in Ids(m)
    ensures o in Disk(g, m) && Disk(g, m)[o].name == FileOf(g, m, o).name
  {
  }

  /** A file opened by its page, with descriptors left that were never used, and then renamed: the
      descriptor points at a deleted page. */
  method OpenedStale(fs: Spiffs, path: seq<int>, newPath: seq<int>, ghost dir0: Dir)
    returns (fdi: nat, ghost o: int, ghost dir: Dir)
    requires fs.Valid() && !fs.cleaning && Sound(fs.g, fs.flash, dir0, fs.fds) && IsPath(path, fs.g.nameLen) && IsPath(newPath, fs.g.nameLen)
    requires var d := Disk(fs.g, Meaning(fs.flash, dir0)); Api.Named(d, path) && !Api.Named(d, newPath)
    requires Unused2(fs.fds) && fs.Spare() >= 1
    modifies fs
    ensures fs.Valid() && Sound(fs.g, fs.flash, dir, fs.fds)
    ensures o in Disk(fs.g, Meaning(fs.flash, dir)) && Disk(fs.g, Meaning(fs.flash, dir))[o].name == newPath
    ensures fdi < |fs.fds| && fs.fds[fdi].fileNbr != 0 && fs.fds[fdi].objId == IndexId(o)
    ensures 0 <= fs.fds[fdi].hdr < |fs.flash.lu| && fs.flash.lu[fs.fds[fdi].hdr] == DELETED
  {
    hide FreeSuffix;
    hide CursorOk;
    hide All;
    hide FreeBlocks;
    hide ErasedFree;
    hide DeadMarked;
    hide Linked;
    hide FdsOk;
    hide Meaning;
    hide AllFiles;
    hide NamesDiffer;
    hide Disk;
    hide NamedHeader;
    hide FdLeft;
    hide IsFile;
    hide Spiffs.Spare;
    ghost var d, fds0 := Disk(fs.g, Meaning(fs.flash, dir0)), fs.fds;
    NameTaken(fs.g, fs.flash, dir0, path);
    var res, pix := FindByName(fs, path);
    HeaderIsNamed(fs.g, fs.flash, dir0, path, pix);
    NamedInRange(fs.flash, path, pix);
    o := ObjectId(fs.flash.lu[pix]);
    DiskHas(fs.g, Meaning(fs.flash, dir0), o);
    UnusedFd(fds0);
    var found;
    found, fdi := FindFd(fs, false);
    FdsFound(Meaning(fs.flash, dir0), dir0, fds0, fs.fds);
    StillUnused(fds0, fs.fds, fdi);
    ghost var fds1 := fs.fds;
    res := OpenByPage(fs, fdi, pix, fs.fds[fdi].score, dir0);
    OneLeft(fds1, fdi, fs.fds[fdi]);
    res, dir := RenameUnder(fs, fdi, ObjectId(fs.flash.lu[pix]), path, newPath, dir0);
  }
}
