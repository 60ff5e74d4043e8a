/** The calls users make, by name and by descriptor, as changes to the file system as a whole. */
module Api {
  import opened Words
  import opened Layout
  import opened Medium
  import opened Directory
  import opened Tally
  import opened Store
  import opened Collector
  import opened Files
  import opened Holding
  import opened Appending
  import opened Removal
  import opened FileSystem
  import opened Names
  import opened Window
  import opened Maps
  import opened Following
  import Crash
  import FileIO
  import Reclaim

  /** What holds between calls: a consistent medium of well-formed files with different names,
      and descriptors that agree with it. */
  ghost predicate Sound(g: Geometry, fl: Flash, dir: Dir, fds: seq<Fd>) {
    && g.Valid()
    && Consistent(g, fl, dir, fds)
    && AllFiles(g, Meaning(fl, dir))
    && NamesDiffer(Disk(g, Meaning(fl, dir)))
  }

  // How a call ends.

  const HIT_SCORE := 4
  const NO_SCORE := 0xffff

  /** Closed descriptors stay closed, but for `fdi`, none gets out of reach, and without windows there are
      none. */
  ghost predicate Quiet(fds0: seq<Fd>, fds: seq<Fd>, fdi: int) {
    && |fds| == |fds0| && (Mapless(fds0) ==> Mapless(fds))
    && (forall i :: 0 <= i < |fds| && i != fdi && fds0[i].fileNbr == 0 ==> fds[i].fileNbr == 0)
    && forall i :: 0 <= i < |fds| ==> fds[i].score <= fds0[i].score || fds[i].score < NO_SCORE
  }

  lemma QuietOpen(fds0: seq<Fd>, fds: seq<Fd>, fdi: int)
    requires SameOpen(fds0, fds) && (Mapless(fds0) ==> Mapless(fds))
    ensures Quiet(fds0, fds, fdi)
  {
    hide Mapless;
  }

  /** After a call that failed: all files are as they were and everything is in order, or object `hurt`
      is not in order, and every other one is as it was. */
  ghost predicate Spared(g: Geometry, v: Flash, dir0: Dir, w: Flash, loss: Loss, dir: Dir, fds: seq<Fd>, hurt: int)
    requires g.Valid()
  {
    if hurt == NONE then Sound(g, w, dir, fds) && Disk(g, Meaning(w, dir)) == Disk(g, Meaning(v, dir0))
    else 1 <= hurt <= MAX_ID && FileIO.Harmed(g, Meaning(v, dir0), w, loss, dir, fds, hurt)
  }

  /** A call that stopped at the room check. */
  lemma SurvivedSpared(g: Geometry, v: Flash, dir0: Dir, fds0: seq<Fd>, w: Flash, loss: Loss, dir: Dir, fds: seq<Fd>)
    requires Sound(g, v, dir0, fds0) && Survived(g, v, dir0, fds0, w, loss, dir, fds)
    ensures Spared(g, v, dir0, w, loss, dir, fds, Loser(w, loss)) && (Loser(w, loss) == NONE <==> loss == NoLoss)
    ensures SameOpen(fds0, fds) && (Mapless(fds0) ==> Mapless(fds))
  {
    hide Linked;
    hide FdsOk;
    hide Meaning;
    hide AllFiles;
    hide NamesDiffer;
    hide Disk;
    hide Calm;
    hide FileIO.Harmed;
    if loss != NoLoss {
      FileIO.LossHides(g, w, loss, dir, fds);
      ConsistentBut(Meaning(Mended(w, loss), dir), dir, fds, Loser(w, loss));
      FileIO.LostHarms(g, Meaning(v, dir0), w, loss, dir, fds);
    }
  }

  lemma ConsistentBut(m: Image, dir: Dir, fds: seq<Fd>, o: int)
    requires FdsOk(m, dir, fds)
    ensures FileIO.FdsBut(m, dir, fds, o)
  {
  }

  /** What harms one object leaves every other file as it was. */
  lemma HarmedOthers(g: Geometry, m0: Image, fl: Flash, loss: Loss, dir: Dir, fds: seq<Fd>, o: int, a: int)
    requires g.Valid() && FileIO.Harmed(g, m0, fl, loss, dir, fds, o) && a != o && 1 <= a <= MAX_ID && 1 <= o <= MAX_ID
    ensures var m := Meaning(fl, dir); (a in Ids(m0) <==> a in Ids(m)) && FileOf(g, m, a) == FileOf(g, m0, a)
    ensures forall n: nat :: IsFile(g, m0, a, n) ==> IsFile(g, Meaning(fl, dir), a, n)
  {
    hide Linked;
    hide IsFile;
    hide FileOf;
    OtherFile(g, m0, Meaning(fl, dir), o, a);
  }

  /** Descriptors that are given back do not matter. */
  lemma SparedBack(g: Geometry, v: Flash, dir0: Dir, w: Flash, loss: Loss, dir: Dir, fds: seq<Fd>, hurt: int, fdi: nat, fd: Fd)
    requires g.Valid() && Spared(g, v, dir0, w, loss, dir, fds, hurt) && fdi < |fds| && fd.fileNbr == 0
    ensures Spared(g, v, dir0, w, loss, dir, fds[fdi := fd], hurt)
  {
    hide Linked;
    hide AllFiles;
    hide NamesDiffer;
    hide IsFile;
    hide RealLoss;
    var fds' := fds[fdi := fd];
    if hurt == NONE {
      forall i | 0 <= i < |fds'|
        ensures FdOk(Meaning(w, dir), dir, fds'[i])
      {
        assert FdOk(Meaning(w, dir), dir, fds[i]);
      }
    } else {
      assert FileIO.FdsBut(Meaning(w, dir), dir, fds', hurt);
    }
  }

  lemma QuietBack(fds0: seq<Fd>, fds: seq<Fd>, fdi: nat, fd: Fd)
    requires Quiet(fds0, fds, fdi) && fdi < |fds| && fd.fileNbr == 0 && (fds[fdi].win.None? ==> fd.win.None?)
    requires fd.score <= fds[fdi].score || fd.score < NO_SCORE
    ensures Quiet(fds0, fds[fdi := fd], NONE)
  {
    var fds' := fds[fdi := fd];
    if Mapless(fds0) {
      assert forall i :: 0 <= i < |fds'| ==> fds[i].win.None? && fds'[i].win.None?;
    }
  }

  // What a call needs to succeed.

  /** Some file has the name. */
  ghost predicate Named(d: map<int, File>, path: seq<int>) {
    exists a :: a in d && d[a].name == path
  }

  /** Some id in reach of the bitmap is not taken. */
  ghost predicate IdLeft(lu: seq<int>, width: nat) {
    exists k :: MIN_ID <= k < MIN_ID + width * 8 && !Taken(lu, k)
  }

  /** Why the medium is too full for one more file: no id is left, the free entries do not hold a header
      beside two blocks of them, or no page can be had. */
  ghost predicate Crowded(fs: Spiffs, lu0: seq<int>, width: nat)
    reads fs`flash, fs`freeBlocks, fs`cleaning
  {
    !IdLeft(lu0, width) || !Reclaim.Holds(fs.g, fs.flash.lu, fs.g.dps) || !fs.CanTake()
  }

  /** The score of a closed descriptor when one is looked for. */
  function Sunk(fd: Fd, named: bool): nat {
    if named && fd.fileNbr == 0 && fd.score > 1 then fd.score - 1 else fd.score
  }

  /** Some closed descriptor can be had. */
  ghost predicate FdLeft(fds: seq<Fd>, named: bool) {
    exists i :: 0 <= i < |fds| && fds[i].fileNbr == 0 && Sunk(fds[i], named) < NO_SCORE
  }

  /** Where a descriptor could be had, one can be had again. */
  lemma QuietLeft(fds0: seq<Fd>, fds: seq<Fd>, named: bool)
    requires Quiet(fds0, fds, NONE)
    ensures FdLeft(fds0, named) ==> FdLeft(fds, named)
  {
    hide Mapless;
    if FdLeft(fds0, named) {
      var i :| 0 <= i < |fds0| && fds0[i].fileNbr == 0 && Sunk(fds0[i], named) < NO_SCORE;
      assert fds[i].fileNbr == 0 && Sunk(fds[i], named) < NO_SCORE;
    }
  }

  /** There is room to truncate a file: for one header each time the index gets shorter. */
  ghost predicate TruncateNeed(g: Geometry, d: map<int, File>, path: seq<int>, spare: int)
    requires g.Valid()
  {
    forall a :: a in d && d[a].name == path ==> TopIx(g, |d[a].bytes|) + Plenty(g) + 1 <= spare
  }

  // Creating a file.

  /** The header page of a new file: its length word and its references stay erased. */
  function NewHeader(g: Geometry, id: int, name: seq<int>): Page {
    Page(IndexId(id), 0, INDEX_FLAGS, Header(NONE, name, Ones(g.hdrLen)))
  }

  /** Occupies a reserved entry with a new header page. */
  method WriteHeader(fs: Spiffs, block: nat, entry: nat, id: int, name: seq<int>) returns (slot: nat)
    requires fs.Reserved(block, entry) && 1 <= id <= MAX_ID && fs.Drift() >= (if entry == 0 then -1 else 0)
    modifies fs`flash, fs`log, fs`pagesAllocated
    ensures fs.Valid() && fs.Drift() == old(fs.Drift()) + (if entry == 0 then 1 else 0)
    ensures slot < |old(fs.flash).lu| == |old(fs.flash).pages| && old(fs.flash).lu[slot] == FREE
    ensures fs.flash == Placed(old(fs.flash), slot, IndexId(id), NewHeader(fs.g, id, name))
  {
    hide FreeSuffix;
    hide CursorOk;
    hide All;
    hide FreeBlocks;
    hide Geometry.BlockStart;
    hide Geometry.Total;
    hide ProgramPage;
    ProgramFresh(NewHeader(fs.g, id, name));
    slot := fs.g.BlockStart(block) + entry;
    fs.Write(EntryWrite(slot, IndexId(id)));
    fs.pagesAllocated := fs.pagesAllocated + 1;
    fs.Write(PageWrite(slot, NewHeader(fs.g, id, name)));
    assert fs.flash.pages[slot] == NewHeader(fs.g, id, name);
    PlaceSound(fs.g, old(fs.flash), block, entry, IndexId(id), NewHeader(fs.g, id, name));
  }

  lemma CreatedFile(g: Geometry, v: Flash, mid: Flash, dir: Dir, fds: seq<Fd>, fds': seq<Fd>, id: int, path: seq<int>, f: nat)
    requires g.Valid() && Linked(g, v, dir) && FdsOk(Meaning(v, dir), dir, fds) && QuickStep(v, mid) && 1 <= id <= MAX_ID
    requires f < |mid.lu| && mid.lu[f] == FREE && IsPath(path, g.nameLen)
    requires forall k: Key :: k in dir ==> k.id != id && k.id != IndexId(id)
    requires |fds'| == |fds| && forall i :: 0 <= i < |fds| ==> fds'[i] == EventFd(fds[i], PageBegun(g, 0), IndexId(id), 0, f, NONE)
    ensures f < |mid.pages|
    ensures
      var w, d := Placed(mid, f, IndexId(id), NewHeader(g, id, Padded(path, g.nameLen))), dir[Key(IndexId(id), 0) := f];
      && Consistent(g, w, d, fds')
      && Meaning(w, d) == Meaning(v, dir)[Key(IndexId(id), 0) := Header(NONE, Padded(path, g.nameLen), [])]
    ensures SameOpen(fds, fds')
  {
    hide FdOk;
    var x, page := Key(IndexId(id), 0), NewHeader(g, id, Padded(path, g.nameLen));
    QuickKeeps(g, v, mid, dir);
    var w := Placed(mid, f, IndexId(id), page);
    assert x !in dir;
    assert Changed(mid, w, f, x, NONE, NONE, 0);
    assert GoodPage(g, x.id, page);
    PutIndex(g, mid, w, dir, f, x, NONE);
    NewKeeps(g, Meaning(v, dir), dir, fds, fds', id, f, Header(NONE, Padded(path, g.nameLen), []));
  }

  lemma NewKeeps(g: Geometry, m: Image, dir: Dir, fds: seq<Fd>, fds': seq<Fd>, id: int, f: int, b: Body)
    requires FdsOk(m, dir, fds) && |fds'| == |fds| && 1 <= id <= MAX_ID
    requires forall k: Key :: k in dir ==> k.id != id && k.id != IndexId(id)
    requires forall i :: 0 <= i < |fds| ==> fds'[i] == EventFd(fds[i], PageBegun(g, 0), IndexId(id), 0, f, NONE)
    ensures FdsOk(m[Key(IndexId(id), 0) := b], dir[Key(IndexId(id), 0) := f], fds') && SameOpen(fds, fds')
  {
    forall i | 0 <= i < |fds|
      ensures FdOk(m[Key(IndexId(id), 0) := b], dir[Key(IndexId(id), 0) := f], fds'[i])
    {
      assert FdOk(m, dir, fds[i]);
    }
  }

  lemma NewIsFile(g: Geometry, m: Image, id: int, name: seq<int>)
    requires g.Valid() && 1 <= id <= MAX_ID && forall k: Key :: k in m ==> k.id != id && k.id != IndexId(id)
    ensures var m' := m[Key(IndexId(id), 0) := Header(NONE, name, [])];
      && IsFile(g, m', id, 0) && SameOthers(m, m', id) && FileOf(g, m', id) == File(CStr(name), [])
  {
    var m' := m[Key(IndexId(id), 0) := Header(NONE, name, [])];
    assert DataPages(g, m', id, 0);
    assert IndexPages(m', id, 0);
  }

  /** One free entry is taken, and others may have become free. */
  lemma QuickMore(v: Flash, w: Flash)
    requires QuickStep(v, w)
    ensures All(w.lu, Unused) >= All(v.lu, Unused)
  {
    CountMore(v.lu, w.lu, 0, |v.lu|, Unused);
  }

  lemma OneTaken(v: Flash, mid: Flash, f: nat, id: int, page: Page)
    requires QuickStep(v, mid) && f < |mid.lu| && mid.lu[f] == FREE && Live(id) && f < |mid.pages|
    ensures All(Placed(mid, f, id, page).lu, Unused) >= All(v.lu, Unused) - 1
  {
    CountMore(v.lu, mid.lu, 0, |v.lu|, Unused);
    CountUpdate(mid.lu, f, id, 0, |mid.lu|, Unused);
  }

  /** Puts the header of a new object on the medium. */
  method PlaceObject(fs: Spiffs, id: int, path: seq<int>, ghost dir0: Dir)
    returns (res: Status, pix: nat, ghost dir: Dir)
    requires fs.Valid() && Consistent(fs.g, fs.flash, dir0, fs.fds) && 1 <= id <= MAX_ID && IsPath(path, fs.g.nameLen)
    requires forall k: Key :: k in dir0 ==> k.id != id && k.id != IndexId(id)
    modifies fs`flash, fs`log, fs`freeBlocks, fs`maxEraseCount, fs`pagesDeleted, fs`pagesAllocated
    modifies fs`freeCursorBlock, fs`freeCursorEntry, fs`fds
    ensures Lower(res)
    ensures fs.Valid() && fs.Drift() == old(fs.Drift())
    ensures old(fs.Spare()) >= 1 ==> res == OK
    ensures res == OK <==> old(fs.CanTake())
    ensures All(fs.flash.lu, Unused) >= old(All(fs.flash.lu, Unused)) - 1
    ensures res != OK ==> fs.fds == old(fs.fds) && QuickStep(old(fs.flash), fs.flash)
    ensures res != OK ==> dir == dir0 && Consistent(fs.g, fs.flash, dir, fs.fds) && Meaning(fs.flash, dir) == Meaning(old(fs.flash), dir0)
    ensures !fs.cleaning && old(fs.freeBlocks) >= 1 ==> fs.freeBlocks >= 1 && (res != OK ==> unchanged(fs) && !fs.CanTake())
    ensures Mapless(old(fs.fds)) ==> Mapless(fs.fds)
    ensures res == OK ==>
      && dir == dir0[Key(IndexId(id), 0) := pix] && Consistent(fs.g, fs.flash, dir, fs.fds) && SameOpen(old(fs.fds), fs.fds)
      && Meaning(fs.flash, dir) == Meaning(old(fs.flash), dir0)[Key(IndexId(id), 0) := Header(NONE, Padded(path, fs.g.nameLen), [])]
  {
    hide Lower;
    hide FreeSuffix;
    hide CursorOk;
    hide All;
    hide FreeBlocks;
    hide ErasedFree;
    hide DeadMarked;
    hide Linked;
    hide FdsOk;
    hide Geometry.Total;
    hide Geometry.BlockStart;
    hide Meaning;
    hide EventFd;
    hide Taken;
    hide AllFiles;
    hide NamesDiffer;
    hide FileOf;
    hide IsFile;
    hide Disk;
    hide Before;
    hide StartSlot;
    hide QuickStep;
    dir, pix := dir0, 0;
    ghost var v, fds0 := fs.flash, fs.fds;
    var block, entry;
    res, block, entry := fs.FindFree();
    if res != OK {
      QuickKeeps(fs.g, v, fs.flash, dir);
      QuickMore(v, fs.flash);
      return;
    }
    ghost var mid := fs.flash;
    pix := WriteHeader(fs, block, entry, id, Padded(path, fs.g.nameLen));
    fs.ObjectEvent(PageBegun(fs.g, 0), IndexId(id), 0, pix, NONE);
    OneTaken(v, mid, pix, IndexId(id), NewHeader(fs.g, id, Padded(path, fs.g.nameLen)));
    CreatedFile(fs.g, v, mid, dir, fds0, fs.fds, id, path, pix);
    MaplessEvent(fds0, fs.fds, PageBegun(fs.g, 0), IndexId(id), 0, pix, NONE);
    dir := dir[Key(IndexId(id), 0) := pix];
  }

  /** Creates an object with header and no data. */
  method CreateObject(fs: Spiffs, id: int, path: seq<int>, maxCandidates: nat, ghost dir0: Dir)
    returns (res: Status, pix: nat, ghost room: bool, ghost loss: Loss, ghost dir: Dir)
    requires fs.Valid() && !fs.cleaning && maxCandidates > 0 && 1 <= id <= MAX_ID && IsPath(path, fs.g.nameLen)
    requires Sound(fs.g, fs.flash, dir0, fs.fds) && !Taken(fs.flash.lu, id)
    modifies fs`flash, fs`log, fs`freeBlocks, fs`maxEraseCount, fs`pagesDeleted, fs`pagesAllocated
    modifies fs`freeCursorBlock, fs`freeCursorEntry, fs`fds, fs`cursorBlock, fs`cursorEntry, fs`cleaning
    ensures Lower(res)
    ensures fs.Valid() && !fs.cleaning && fs.Drift() >= old(fs.Drift())
    ensures old(fs.Spare()) >= Plenty(fs.g) ==> res == OK
    ensures res != OK ==> Survived(fs.g, old(fs.flash), dir0, old(fs.fds), fs.flash, loss, dir, fs.fds)
    ensures res == OK || res == ERR_FULL ==> loss == NoLoss
    ensures old(Reclaim.Collects(fs, fs.g.dps)) && Reclaim.Doomed(fs.g, old(fs.flash)) ==> loss.Unstored?
    ensures old(Reclaim.Collects(fs, fs.g.dps)) && AllFree(old(fs.flash).lu) ==> fs.Drift() > old(fs.Drift())
    ensures if room then loss == NoLoss && (res == OK || !fs.CanTake()) else res != OK && (res == ERR_FULL ==> !Reclaim.Holds(fs.g, fs.flash.lu, fs.g.dps))
    ensures old(Reclaim.Ample(fs, fs.g.dps)) ==> room
    ensures room ==> All(fs.flash.lu, Unused) >= 2 * fs.g.n
    ensures room || res == ERR_FULL || Reclaim.Jammed(fs.g, old(fs.flash), dir0)
    ensures res == OK ==> Quiet(old(fs.fds), fs.fds, NONE)
    ensures res == OK ==>
      && Consistent(fs.g, fs.flash, dir, fs.fds) && AllFiles(fs.g, Meaning(fs.flash, dir))
      && Disk(fs.g, Meaning(fs.flash, dir)) == Disk(fs.g, Meaning(old(fs.flash), dir0))[id := File(path, [])]
      && Key(IndexId(id), 0) in dir && dir[Key(IndexId(id), 0)] == pix
      && SameOpen(old(fs.fds), fs.fds)
  {
    hide Plenty;
    hide Spiffs.Spare;
    hide FreeSuffix;
    hide CursorOk;
    hide All;
    hide FreeBlocks;
    hide ErasedFree;
    hide DeadMarked;
    hide Linked;
    hide FdsOk;
    hide Geometry.Total;
    hide Geometry.BlockStart;
    hide Meaning;
    hide EventFd;
    hide Taken;
    hide AllFiles;
    hide NamesDiffer;
    hide FileOf;
    hide IsFile;
    hide Disk;
    hide Before;
    hide StartSlot;
    hide QuickStep;
    hide Survived;
    hide Mapless;
    hide Reclaim.Jammed;
    hide Reclaim.Doomed;
    hide AllFree;
    hide Reclaim.Ample;
    hide Reclaim.Holds;
    hide Reclaim.Dwindles;
    hide Lower;
    hide Reclaim.Collects;
    hide Spiffs.CanTake;
    hide SameOpen;
    hide Quiet;
    dir, pix, room := dir0, 0, false;
    FreshKeys(fs.g, fs.flash, dir, id);
    ghost var m := Meaning(fs.flash, dir0);
    Reclaim.PlentyHolds(fs.g, fs.Spare());
    ghost var rounds, first;
    res, rounds, first, loss, dir := Reclaim.Check(fs, fs.g.dps, maxCandidates, dir);
    if res != OK {
      return;
    }
    room := true;
    OneHeld(fs.g, fs.flash.lu);
    SurvivedParts(fs.g, old(fs.flash), dir0, old(fs.fds), fs.flash, loss, dir, fs.fds);
    SameKeys(fs.flash, dir, m);
    ghost var fds1 := fs.fds;
    res, pix, dir := PlaceObject(fs, id, path, dir);
    if res != OK {
      return;
    }
    OpenJoin(old(fs.fds), fds1, fs.fds);
    QuietOpen(old(fs.fds), fs.fds, NONE);
    StoredName(path, fs.g.nameLen);
    NewIsFile(fs.g, m, id, Padded(path, fs.g.nameLen));
    OneChanged(fs.g, m, Meaning(fs.flash, dir), id, 0);
  }

  lemma OneHeld(g: Geometry, lu: seq<int>)
    requires g.Valid() && Reclaim.Holds(g, lu, g.dps)
    ensures All(lu, Unused) - 1 >= 2 * g.n
  {
    if All(lu, Unused) - 2 * g.n < 1 {
      Reclaim.Times(All(lu, Unused) - 2 * g.n, 0, g.dps);
    }
  }

  lemma FreshKeys(g: Geometry, fl: Flash, dir: Dir, id: int)
    requires Linked(g, fl, dir) && !Taken(fl.lu, id) && 1 <= id <= MAX_ID
    ensures forall k: Key :: k in Meaning(fl, dir) ==> k.id != id && k.id != IndexId(id)
  {
    FreshId(g, fl, dir, id);
  }

  lemma SameKeys(fl: Flash, dir: Dir, m: Image)
    requires Meaning(fl, dir) == m
    ensures dir.Keys == m.Keys
  {
  }

  /** Creates a file of the given name, unless there is one. */
  method Creat(fs: Spiffs, path: seq<int>, width: nat, maxCandidates: nat, ghost dir0: Dir)
    returns (res: Status, ghost id: int, ghost loss: Loss, ghost dir: Dir)
    requires fs.Valid() && !fs.cleaning && maxCandidates > 0 && IsString(path)
    requires TopId(fs.g) - MIN_ID <= width * 8 <= MAX_ID
    requires Sound(fs.g, fs.flash, dir0, fs.fds)
    modifies fs`flash, fs`log, fs`freeBlocks, fs`maxEraseCount, fs`pagesDeleted, fs`pagesAllocated
    modifies fs`freeCursorBlock, fs`freeCursorEntry, fs`fds, fs`cursorBlock, fs`cursorEntry, fs`cleaning
    ensures fs.Valid() && !fs.cleaning && fs.Drift() >= old(fs.Drift())
    ensures old(fs.Spare()) >= Plenty(fs.g) && IdLeft(old(fs.flash).lu, width) && |path| < fs.g.nameLen && !Named(Disk(fs.g, Meaning(old(fs.flash), dir0)), path) ==> res == OK
    ensures old(Reclaim.Ample(fs, fs.g.dps)) && IdLeft(old(fs.flash).lu, width) && |path| < fs.g.nameLen && !Named(Disk(fs.g, Meaning(old(fs.flash), dir0)), path) ==>
      res == OK || !fs.CanTake()
    ensures res == OK ==> All(fs.flash.lu, Unused) >= 2 * fs.g.n
    ensures res == ERR_FULL ==> Crowded(fs, old(fs.flash).lu, width)
    ensures res != OK ==> Survived(fs.g, old(fs.flash), dir0, old(fs.fds), fs.flash, loss, dir, fs.fds)
    ensures res == OK || res == ERR_FULL ==> loss == NoLoss
    ensures res == OK ==> Quiet(old(fs.fds), fs.fds, NONE)
    ensures loss.Unstored? ==> Reclaim.Jammed(fs.g, old(fs.flash), dir0)
    ensures |path| < fs.g.nameLen && !Named(Disk(fs.g, Meaning(old(fs.flash), dir0)), path) ==> res == OK || Crowded(fs, old(fs.flash).lu, width) || Reclaim.Jammed(fs.g, old(fs.flash), dir0)
    ensures
      IdLeft(old(fs.flash).lu, width) && |path| < fs.g.nameLen && !Named(Disk(fs.g, Meaning(old(fs.flash), dir0)), path) && old(Reclaim.Collects(fs, fs.g.dps)) ==>
        && (Reclaim.Doomed(fs.g, old(fs.flash)) ==> loss.Unstored?)
        && (AllFree(old(fs.flash).lu) ==> fs.Drift() > old(fs.Drift()))
    ensures var d := Disk(fs.g, Meaning(old(fs.flash), dir0));
      && (|path| >= fs.g.nameLen ==> res == ERR_NAME_TOO_LONG && unchanged(fs))
      && (|path| < fs.g.nameLen && (exists a :: a in d && d[a].name == path) ==> res == ERR_CONFLICTING_NAME && unchanged(fs))
      && (res == OK ==>
           && id !in d && Sound(fs.g, fs.flash, dir, fs.fds)
           && Disk(fs.g, Meaning(fs.flash, dir)) == d[id := File(path, [])])
  {
    hide FreeSuffix;
    hide CursorOk;
    hide All;
    hide FreeBlocks;
    hide ErasedFree;
    hide DeadMarked;
    hide Linked;
    hide FdsOk;
    hide Meaning;
    hide Taken;
    hide AllFiles;
    hide NamedHeader;
    hide Disk;
    hide Survived;
    hide Quiet;
    hide SameOpen;
    hide Reclaim.Jammed;
    hide Reclaim.Doomed;
    hide AllFree;
    hide Reclaim.Ample;
    hide Reclaim.Holds;
    hide Reclaim.Collects;
    dir, id, loss := dir0, FREE, NoLoss;
    SurvivedNone(fs.g, fs.flash, dir, fs.fds);
    if |path| > fs.g.nameLen - 1 {
      return ERR_NAME_TOO_LONG, id, loss, dir;
    }
    var newId, pix;
    NameTaken(fs.g, fs.flash, dir, path);
    res, newId := FindFreeId(fs.g, fs.flash, width, Some(path));
    if res != OK {
      return;
    }
    id := newId;
    FreshId(fs.g, fs.flash, dir, id);
    ghost var room;
    res, pix, room, loss, dir := CreateObject(fs, newId, path, maxCandidates, dir);
  }

  lemma NameTaken(g: Geometry, fl: Flash, dir: Dir, path: seq<int>)
    requires g.Valid() && Linked(g, fl, dir) && AllFiles(g, Meaning(fl, dir))
    ensures var d := Disk(g, Meaning(fl, dir)); (exists s: nat :: NamedHeader(fl, path, s)) <==> exists a :: a in d && d[a].name == path
  {
    hide Linked;
    hide AllFiles;
    hide NamedHeader;
    hide FileOf;
    var d := Disk(g, Meaning(fl, dir));
    if s: nat :| NamedHeader(fl, path, s) {
      HeaderIsNamed(g, fl, dir, path, s);
      assert s < |fl.lu| by { NamedInRange(fl, path, s); }
      assert ObjectId(fl.lu[s]) in d && d[ObjectId(fl.lu[s])].name == path;
    }
    if a :| a in d && d[a].name == path {
      NameHasHeader(g, fl, dir, a);
      var s: nat := dir[Key(IndexId(a), 0)];
      assert NamedHeader(fl, path, s);
    }
  }

  // Descriptors.

  /** Chooses a closed descriptor of least score. Opening by name first lets the scores of the
      closed ones sink. */
  method FindFd(fs: Spiffs, named: bool) returns (found: bool, fdi: nat)
    modifies fs`fds
    ensures |fs.fds| == |old(fs.fds)|
    ensures forall i :: 0 <= i < |fs.fds| ==>
      fs.fds[i] == old(fs.fds)[i].(score := Sunk(old(fs.fds)[i], named))
    ensures found <==> FdLeft(old(fs.fds), named)
    ensures found ==> fdi < |fs.fds| && fs.fds[fdi].fileNbr == 0 && fs.fds[fdi].score < NO_SCORE
    ensures found ==> forall i :: 0 <= i < |fs.fds| && fs.fds[i].fileNbr == 0 ==> fs.fds[fdi].score <= fs.fds[i].score
    ensures !found ==> forall i :: 0 <= i < |fs.fds| && fs.fds[i].fileNbr == 0 ==> fs.fds[i].score >= NO_SCORE
  {
    var i := 0;
    if named {
      while i < |fs.fds|
        invariant 0 <= i <= |fs.fds| == |old(fs.fds)|
        invariant forall j :: i <= j < |fs.fds| ==> fs.fds[j] == old(fs.fds)[j]
        invariant forall j :: 0 <= j < i ==>
          fs.fds[j] == old(fs.fds)[j].(score := if old(fs.fds)[j].fileNbr == 0 && old(fs.fds)[j].score > 1 then old(fs.fds)[j].score - 1 else old(fs.fds)[j].score)
      {
        if fs.fds[i].fileNbr == 0 && fs.fds[i].score > 1 {
          fs.fds := fs.fds[i := fs.fds[i].(score := fs.fds[i].score - 1)];
        }
        i := i + 1;
      }
    }
    var least := NO_SCORE;
    i, found, fdi := 0, false, 0;
    while i < |fs.fds|
      invariant 0 <= i <= |fs.fds|
      invariant found ==> fdi < i && fs.fds[fdi].fileNbr == 0 && fs.fds[fdi].score == least < NO_SCORE
      invariant !found ==> least == NO_SCORE
      invariant forall j :: 0 <= j < i && fs.fds[j].fileNbr == 0 ==> least <= fs.fds[j].score
    {
      if fs.fds[i].fileNbr == 0 && fs.fds[i].score < least {
        least, fdi, found := fs.fds[i].score, i, true;
      }
      i := i + 1;
    }
  }

  lemma FdsFound(m: Image, dir: Dir, fds: seq<Fd>, fds': seq<Fd>)
    requires FdsOk(m, dir, fds) && |fds'| == |fds|
    requires forall i :: 0 <= i < |fds| ==> fds'[i] == fds[i] || (fds[i].fileNbr == 0 && fds'[i].fileNbr == 0)
    ensures FdsOk(m, dir, fds')
  {
    forall i | 0 <= i < |fds'|
      ensures FdOk(m, dir, fds'[i])
    {
      assert FdOk(m, dir, fds[i]);
    }
  }

  /** The descriptor that opening the page in slot `pix` makes. */
  function OpenedFd(fl: Flash, fd: Fd, nbr: nat, pix: nat, score: nat): Fd
    requires pix < |fl.lu| && pix < |fl.pages|
  {
    fd.(fileNbr := nbr, objId := fl.lu[pix], size := HeaderSize(fl.pages[pix]), hdr := pix, cursorPix := pix, cursorSpan := 0, score := score, position := 0)
  }

  /** A descriptor that was chosen and is given back. */
  function Returned(fd: Fd, score: nat): Fd {
    fd.(fileNbr := 0, win := None, score := score)
  }

  /** Opens a descriptor for the object with header page `pix`. */
  method OpenByPage(fs: Spiffs, fdi: nat, pix: nat, score: nat, ghost dir: Dir) returns (res: Status)
    requires fs.Valid() && Sound(fs.g, fs.flash, dir, fs.fds) && fdi < |fs.fds| && fs.fds[fdi].fileNbr == 0
    requires pix < |fs.flash.lu| && 1 <= ObjectId(fs.flash.lu[pix]) <= MAX_ID && fs.flash.lu[pix] == IndexId(ObjectId(fs.flash.lu[pix]))
    requires Key(fs.flash.lu[pix], 0) in dir && dir[Key(fs.flash.lu[pix], 0)] == pix
    modifies fs`fds
    ensures fs.Valid() && res == OK && pix < |fs.flash.pages| && fs.Drift() == old(fs.Drift())
    ensures fs.fds == old(fs.fds)[fdi := OpenedFd(fs.flash, old(fs.fds)[fdi], fdi + 1, pix, score)]
    ensures fs.fds[fdi].fileNbr == fdi + 1 && fs.fds[fdi].position == 0 && fs.fds[fdi].score == score
    ensures fs.fds[fdi].pending == old(fs.fds)[fdi].pending && fs.fds[fdi].win == old(fs.fds)[fdi].win
    ensures Sound(fs.g, fs.flash, dir, fs.fds)
    ensures var o := ObjectId(fs.flash.lu[pix]);
      && Owner(dir, fs.fds, fdi, o) && IsFile(fs.g, Meaning(fs.flash, dir), o, Length(fs.fds[fdi].size))
      && (score != 0 ==> OpenFile(fs.g, Meaning(fs.flash, dir), fs.fds, fdi))
  {
    hide FreeSuffix;
    hide CursorOk;
    hide All;
    hide FreeBlocks;
    hide ErasedFree;
    hide DeadMarked;
    hide AllFiles;
    hide NamesDiffer;
    OpenedOk(fs.g, fs.flash, dir, fs.fds, fdi, pix, score);
    fs.fds := fs.fds[fdi := OpenedFd(fs.flash, fs.fds[fdi], fdi + 1, pix, score)];
    res := ValidateObjIx(fs.flash.pages[pix], fs.fds[fdi].objId, 0);
  }

  lemma OpenedOk(g: Geometry, fl: Flash, dir: Dir, fds: seq<Fd>, fdi: nat, pix: nat, score: nat)
    requires Sound(g, fl, dir, fds) && fdi < |fds| && pix < |fl.lu|
    requires 1 <= ObjectId(fl.lu[pix]) <= MAX_ID && fl.lu[pix] == IndexId(ObjectId(fl.lu[pix]))
    requires Key(fl.lu[pix], 0) in dir && dir[Key(fl.lu[pix], 0)] == pix
    ensures pix < |fl.pages| && ValidateObjIx(fl.pages[pix], fl.lu[pix], 0) == OK
    ensures
      var o, fds' := ObjectId(fl.lu[pix]), fds[fdi := OpenedFd(fl, fds[fdi], fdi + 1, pix, score)];
      && FdsOk(Meaning(fl, dir), dir, fds') && Owner(dir, fds', fdi, o)
      && IsFile(g, Meaning(fl, dir), o, Length(fds'[fdi].size))
  {
    hide IsFile;
    hide Linked;
    hide Held;
    hide NamesDiffer;
    hide Disk;
    var o, m := ObjectId(fl.lu[pix]), Meaning(fl, dir);
    HeldLoad(g, fl, dir, o, 0);
    var fds' := fds[fdi := OpenedFd(fl, fds[fdi], fdi + 1, pix, score)];
    HeldPage(g, fl, dir, o, 0, pix, fl.pages[pix]);
    InIds(m, o);
    assert m[Key(fl.lu[pix], 0)] == Strip(fl.pages[pix].body);
    forall i | 0 <= i < |fds'|
      ensures FdOk(m, dir, fds'[i])
    {
      assert FdOk(m, dir, fds[i]);
    }
  }

  // Calls by name.

  /** A file was changed to have other bytes, or made: names still differ. */
  lemma StillDiffer(d: map<int, File>, o: int, f: File)
    requires NamesDiffer(d) && (forall a :: a in d && a != o ==> d[a].name != f.name)
    ensures NamesDiffer(d[o := f])
  {
  }

  /** An emptied file in the file system as a whole. */
  lemma EmptiedDisk(g: Geometry, v: Flash, dir0: Dir, w: Flash, dir: Dir, fds: seq<Fd>, o: int)
    requires g.Valid() && AllFiles(g, Meaning(v, dir0)) && NamesDiffer(Disk(g, Meaning(v, dir0))) && Emptied(g, v, dir0, w, dir, fds, o)
    ensures var d := Disk(g, Meaning(v, dir0));
      o in d && Sound(g, w, dir, fds) && Disk(g, Meaning(w, dir)) == d[o := File(d[o].name, [])]
  {
    hide Linked;
    hide FdsOk;
    hide IsFile;
    hide Contents;
    hide AllFiles;
    var m, m' := Meaning(v, dir0), Meaning(w, dir);
    FileSystem.FileId(g, m', o, 0);
    InIds(m, o);
    OneChanged(g, m, m', o, 0);
    assert FileOf(g, m', o) == File(FileOf(g, m, o).name, []);
    StillDiffer(Disk(g, m), o, FileOf(g, m', o));
  }

  /** What opening object `o` by name did to the files. */
  ghost predicate Opened(g: Geometry, d: map<int, File>, d': map<int, File>, path: seq<int>, create: bool, excl: bool, trunc: bool, o: int) {
    if exists a :: a in d && d[a].name == path then
      && o in d && d[o].name == path && !(create && excl)
      && d' == if trunc then d[o := File(path, [])] else d
    else
      create && o !in d && d' == d[o := File(path, [])]
  }

  /** Makes a file of a name that no file has. */
  method MakeFile(fs: Spiffs, path: seq<int>, width: nat, maxCandidates: nat, ghost dir0: Dir)
    returns (res: Status, pix: nat, ghost loss: Loss, ghost dir: Dir)
    requires fs.Valid() && !fs.cleaning && maxCandidates > 0 && IsPath(path, fs.g.nameLen)
    requires TopId(fs.g) - MIN_ID <= width * 8 <= MAX_ID
    requires Sound(fs.g, fs.flash, dir0, fs.fds) && !Named(Disk(fs.g, Meaning(fs.flash, dir0)), path)
    modifies fs`flash, fs`log, fs`freeBlocks, fs`maxEraseCount, fs`pagesDeleted, fs`pagesAllocated
    modifies fs`freeCursorBlock, fs`freeCursorEntry, fs`fds, fs`cursorBlock, fs`cursorEntry, fs`cleaning
    ensures Lower(res)
    ensures fs.Valid() && !fs.cleaning && fs.Drift() >= old(fs.Drift())
    ensures old(fs.Spare()) >= Plenty(fs.g) && IdLeft(old(fs.flash).lu, width) ==> res == OK
    ensures res == OK ==> All(fs.flash.lu, Unused) >= 2 * fs.g.n
    ensures res == ERR_FULL ==> loss == NoLoss && Crowded(fs, old(fs.flash).lu, width)
    ensures res == OK ==> Sound(fs.g, fs.flash, dir, fs.fds) && SameOpen(old(fs.fds), fs.fds) && Quiet(old(fs.fds), fs.fds, NONE)
    ensures res != OK ==> Survived(fs.g, old(fs.flash), dir0, old(fs.fds), fs.flash, loss, dir, fs.fds)
    ensures res == OK ==> pix < |fs.flash.lu| && Key(fs.flash.lu[pix], 0) in dir && dir[Key(fs.flash.lu[pix], 0)] == pix
    ensures res == OK ==>
      var d, o := Disk(fs.g, Meaning(old(fs.flash), dir0)), ObjectId(fs.flash.lu[pix]);
      && fs.flash.lu[pix] == IndexId(o) && 1 <= o <= MAX_ID && o !in d && Disk(fs.g, Meaning(fs.flash, dir)) == d[o := File(path, [])]
  {
    hide FreeSuffix;
    hide CursorOk;
    hide All;
    hide FreeBlocks;
    hide ErasedFree;
    hide DeadMarked;
    hide Linked;
    hide FdsOk;
    hide Meaning;
    hide AllFiles;
    hide NamesDiffer;
    hide Disk;
    hide Geometry.Total;
    hide Reclaim.Holds;
    hide Lower;
    hide Survived;
    hide Quiet;
    hide SameOpen;
    OkInner();
    dir, pix, loss := dir0, 0, NoLoss;
    SurvivedNone(fs.g, fs.flash, dir, fs.fds);
    ghost var d := Disk(fs.g, Meaning(fs.flash, dir));
    var id;
    res, id := FindFreeId(fs.g, fs.flash, width, None);
    if res != OK {
      return;
    }
    FreshId(fs.g, fs.flash, dir, id);
    ghost var room;
    res, pix, room, loss, dir := CreateObject(fs, id, path, maxCandidates, dir);
    if res == OK {
      StillDiffer(d, id, File(path, []));
      EntryAt(fs.g, fs.flash, dir, id);
    }
  }

  /** Finds the header page of a file, or makes one where that is asked for. */
  method Locate(fs: Spiffs, path: seq<int>, create: bool, excl: bool, width: nat, maxCandidates: nat, ghost dir0: Dir)
    returns (res: Status, pix: nat, created: bool, ghost loss: Loss, ghost dir: Dir)
    requires fs.Valid() && !fs.cleaning && maxCandidates > 0 && IsPath(path, fs.g.nameLen)
    requires TopId(fs.g) - MIN_ID <= width * 8 <= MAX_ID
    requires Sound(fs.g, fs.flash, dir0, fs.fds)
    modifies fs`flash, fs`log, fs`freeBlocks, fs`maxEraseCount, fs`pagesDeleted, fs`pagesAllocated
    modifies fs`freeCursorBlock, fs`freeCursorEntry, fs`fds, fs`cursorBlock, fs`cursorEntry, fs`cleaning
    ensures fs.Valid() && !fs.cleaning && fs.Drift() >= old(fs.Drift())
    ensures Named(Disk(fs.g, Meaning(old(fs.flash), dir0)), path) ==> res == if create && excl then ERR_FILE_EXISTS else OK
    ensures !Named(Disk(fs.g, Meaning(old(fs.flash), dir0)), path) ==>
      && (!create ==> res == ERR_NOT_FOUND)
      && (create ==> Lower(res) && (old(fs.Spare()) >= Plenty(fs.g) && IdLeft(old(fs.flash).lu, width) ==> res == OK) && (res == ERR_FULL ==> loss == NoLoss && Crowded(fs, old(fs.flash).lu, width)))
    ensures !create || Named(Disk(fs.g, Meaning(old(fs.flash), dir0)), path) ==> fs.Spare() == old(fs.Spare())
    ensures !create ==> unchanged(fs`flash, fs`fds) && dir == dir0 && (res == OK || res == ERR_NOT_FOUND)
    ensures res == OK ==> Sound(fs.g, fs.flash, dir, fs.fds) && SameOpen(old(fs.fds), fs.fds) && Quiet(old(fs.fds), fs.fds, NONE)
    ensures !create || Named(Disk(fs.g, Meaning(old(fs.flash), dir0)), path) ==> loss == NoLoss
    ensures res == OK && !created ==> fs.flash == old(fs.flash) && fs.fds == old(fs.fds) && dir == dir0
    ensures res != OK ==> Survived(fs.g, old(fs.flash), dir0, old(fs.fds), fs.flash, loss, dir, fs.fds)
    ensures res == OK ==> pix < |fs.flash.lu| && Key(fs.flash.lu[pix], 0) in dir && dir[Key(fs.flash.lu[pix], 0)] == pix
    ensures res == OK ==>
      var o := ObjectId(fs.flash.lu[pix]);
      && fs.flash.lu[pix] == IndexId(o) && 1 <= o <= MAX_ID
      && Opened(fs.g, Disk(fs.g, Meaning(old(fs.flash), dir0)), Disk(fs.g, Meaning(fs.flash, dir)), path, create, excl, false, o)
      && (created <==> o !in Disk(fs.g, Meaning(old(fs.flash), dir0))) && (created <==> !Named(Disk(fs.g, Meaning(old(fs.flash), dir0)), path))
  {
    hide FreeSuffix;
    hide CursorOk;
    hide All;
    hide FreeBlocks;
    hide ErasedFree;
    hide DeadMarked;
    hide Linked;
    hide FdsOk;
    hide Meaning;
    hide AllFiles;
    hide NamedHeader;
    hide NamesDiffer;
    hide Disk;
    hide FileOf;
    hide IsFile;
    hide Geometry.Total;
    hide Survived;
    hide Mapless;
    dir, created, loss := dir0, false, NoLoss;
    SurvivedNone(fs.g, fs.flash, dir, fs.fds);
    ghost var d := Disk(fs.g, Meaning(fs.flash, dir));
    NameTaken(fs.g, fs.flash, dir, path);
    res, pix := FindByName(fs, path);
    if !create && res != OK {
      return;
    }
    if res == OK && create && excl {
      res := ERR_FILE_EXISTS;
      return;
    }
    if res != OK {
      res, pix, loss, dir := MakeFile(fs, path, width, maxCandidates, dir);
      created := res == OK;
    } else {
      HeaderIsNamed(fs.g, fs.flash, dir, path, pix);
      NamedInRange(fs.flash, path, pix);
      IdName(fs.g, Meaning(fs.flash, dir), ObjectId(fs.flash.lu[pix]));
    }
  }

  /** Truncates the file just opened; where that fails the descriptor is closed again. */
  method TruncateOpened(fs: Spiffs, fdi: nat, maxCandidates: nat, ghost dir0: Dir)
    returns (res: Status, ghost loss: Loss, ghost hurt: int, ghost dir: Dir)
    requires fs.Valid() && !fs.cleaning && maxCandidates > 0
    requires Sound(fs.g, fs.flash, dir0, fs.fds) && OpenFile(fs.g, Meaning(fs.flash, dir0), fs.fds, fdi)
    modifies fs`flash, fs`log, fs`freeBlocks, fs`maxEraseCount, fs`pagesDeleted, fs`pagesAllocated
    modifies fs`freeCursorBlock, fs`freeCursorEntry, fs`fds, fs`cursorBlock, fs`cursorEntry, fs`cleaning
    ensures Lower(res)
    ensures fs.Valid() && !fs.cleaning && fs.Drift() >= old(fs.Drift())
    ensures old(fs.Spare()) >= TopIx(fs.g, Length(old(fs.fds)[fdi].size)) + Plenty(fs.g) + 1 ==> res == OK
    ensures fdi < |fs.fds| && (res != OK ==> fs.fds[fdi].fileNbr == 0) && Quiet(old(fs.fds), fs.fds, if res == OK then fdi else NONE)
    ensures res == OK ==> fs.fds[fdi].fileNbr == old(fs.fds)[fdi].fileNbr && fs.fds[fdi].position <= old(fs.fds)[fdi].position && (old(fs.fds)[fdi].pending.None? ==> fs.fds[fdi].pending.None?)
    ensures res != OK ==> Spared(fs.g, old(fs.flash), dir0, fs.flash, loss, dir, fs.fds, hurt)
    ensures res == OK ==>
      var d, o := Disk(fs.g, Meaning(old(fs.flash), dir0)), ObjectId(old(fs.fds)[fdi].objId);
      && fdi < |fs.fds| && fs.fds[fdi].objId == old(fs.fds)[fdi].objId
      && Sound(fs.g, fs.flash, dir, fs.fds) && OpenFile(fs.g, Meaning(fs.flash, dir), fs.fds, fdi)
      && o in d && Disk(fs.g, Meaning(fs.flash, dir)) == d[o := File(d[o].name, [])]
  {
    hide FreeSuffix;
    hide CursorOk;
    hide All;
    hide FreeBlocks;
    hide ErasedFree;
    hide DeadMarked;
    hide Linked;
    hide Meaning;
    hide AllFiles;
    hide NamesDiffer;
    hide Disk;
    hide FileOf;
    hide IsFile;
    hide Geometry.Total;
    hide TopIx;
    hide Contents;
    hide Extent;
    hide Emptied;
    hide Survived;
    hide Spared;
    hide Quiet;
    hide Mapless;
    hide MapsOk;
    hide FileIO.Harmed;
    ghost var v, fds0, o := fs.flash, fs.fds, ObjectId(fs.fds[fdi].objId);
    assert FdOk(Meaning(v, dir0), dir0, fs.fds[fdi]);
    ghost var room, stock;
    res, room, stock, loss, dir := Truncate(fs, fdi, false, maxCandidates, dir0);
    hurt := NONE;
    if res == OK {
      EmptiedDisk(fs.g, v, dir0, fs.flash, dir, fs.fds, o);
      QuietOpen(fds0, fs.fds, fdi);
    } else {
      if room {
        hurt := o;
        HarmedSpared(fs.g, v, dir0, fs.flash, loss, dir, fs.fds, o);
      } else {
        hurt := Loser(fs.flash, loss);
        SurvivedSpared(fs.g, v, dir0, fds0, fs.flash, loss, dir, fs.fds);
      }
      QuietOpen(fds0, fs.fds, fdi);
      ghost var fds1 := fs.fds;
      fs.fds := fs.fds[fdi := Returned(fs.fds[fdi], fs.fds[fdi].score)];
      SparedBack(fs.g, v, dir0, fs.flash, loss, dir, fds1, hurt, fdi, fs.fds[fdi]);
      QuietBack(fds0, fds1, fdi, fs.fds[fdi]);
    }
  }

  lemma HarmedSpared(g: Geometry, v: Flash, dir0: Dir, w: Flash, loss: Loss, dir: Dir, fds: seq<Fd>, o: int)
    requires g.Valid() && FileIO.Harmed(g, Meaning(v, dir0), w, loss, dir, fds, o) && 1 <= o <= MAX_ID
    ensures Spared(g, v, dir0, w, loss, dir, fds, o)
  {
  }

  /** Opens a file by name with a descriptor that was chosen. */
  method OpenWith(fs: Spiffs, fdi: nat, path: seq<int>, create: bool, excl: bool, trunc: bool, width: nat, maxCandidates: nat, ghost dir0: Dir)
    returns (res: Status, ghost loss: Loss, ghost hurt: int, ghost dir: Dir)
    requires fs.Valid() && !fs.cleaning && maxCandidates > 0 && IsPath(path, fs.g.nameLen)
    requires TopId(fs.g) - MIN_ID <= width * 8 <= MAX_ID
    requires Sound(fs.g, fs.flash, dir0, fs.fds) && fdi < |fs.fds| && fs.fds[fdi].fileNbr == 0
    modifies fs`flash, fs`log, fs`freeBlocks, fs`maxEraseCount, fs`pagesDeleted, fs`pagesAllocated
    modifies fs`freeCursorBlock, fs`freeCursorEntry, fs`fds, fs`cursorBlock, fs`cursorEntry, fs`cleaning
    ensures fs.Valid() && !fs.cleaning && fs.Drift() >= old(fs.Drift())
    ensures Named(Disk(fs.g, Meaning(old(fs.flash), dir0)), path) ==>
      && (create && excl ==> res == ERR_FILE_EXISTS)
      && (!(create && excl) ==> Lower(res) && ((trunc ==> TruncateNeed(fs.g, Disk(fs.g, Meaning(old(fs.flash), dir0)), path, old(fs.Spare()))) ==> res == OK))
    ensures !Named(Disk(fs.g, Meaning(old(fs.flash), dir0)), path) ==>
      && (!create ==> res == ERR_NOT_FOUND)
      && (create ==> Lower(res) && (old(fs.Spare()) >= Plenty(fs.g) && IdLeft(old(fs.flash).lu, width) ==> res == OK) && (res == ERR_FULL ==> Crowded(fs, old(fs.flash).lu, width)))
    ensures Quiet(old(fs.fds), fs.fds, if res == OK then fdi else NONE)
    ensures res == OK ==> fdi < |fs.fds| && fs.fds[fdi].fileNbr == fdi + 1 && fs.fds[fdi].position == 0 && (old(fs.fds)[fdi].pending.None? ==> fs.fds[fdi].pending.None?)
    ensures res != OK ==> Spared(fs.g, old(fs.flash), dir0, fs.flash, loss, dir, fs.fds, hurt)
    ensures hurt != NONE ==> if Named(Disk(fs.g, Meaning(old(fs.flash), dir0)), path) then trunc && !(create && excl) else create && res != ERR_FULL
    ensures !create && !trunc ==>
      && fs.Spare() == old(fs.Spare())
      && (res != OK ==> fs.flash == old(fs.flash) && dir == dir0)
    ensures res == OK ==> fdi < |fs.fds| && Opened(fs.g, Disk(fs.g, Meaning(old(fs.flash), dir0)), Disk(fs.g, Meaning(fs.flash, dir)), path, create, excl, trunc, ObjectId(fs.fds[fdi].objId))
    ensures res == OK ==> Sound(fs.g, fs.flash, dir, fs.fds) && OpenFile(fs.g, Meaning(fs.flash, dir), fs.fds, fdi)
  {
    hide Spiffs.Valid;
    hide Spiffs.Drift;
    hide Spiffs.Spare;
    hide Plenty;
    hide Crowded;
    hide IdLeft;
    hide FreeSuffix;
    hide CursorOk;
    hide All;
    hide FreeBlocks;
    hide ErasedFree;
    hide DeadMarked;
    hide Linked;
    hide FdsOk;
    hide Meaning;
    hide AllFiles;
    hide NamedHeader;
    hide NamesDiffer;
    hide Disk;
    hide FileOf;
    hide IsFile;
    hide Geometry.Total;
    hide TopIx;
    hide Contents;
    hide Extent;
    hide Survived;
    hide Spared;
    hide Quiet;
    hide Mapless;
    hide SameOpen;
    dir, loss, hurt := dir0, NoLoss, NONE;
    ghost var v, fds0 := fs.flash, fs.fds;
    SoundSpared(fs.g, v, dir, fds0);
    var pix, created;
    res, pix, created, loss, dir := Locate(fs, path, create, excl, width, maxCandidates, dir);
    if res != OK {
      hurt := Loser(fs.flash, loss);
      SurvivedSpared(fs.g, v, dir0, fds0, fs.flash, loss, dir, fs.fds);
      GiveBack(fs.g, v, dir0, fs.flash, loss, dir, fds0, fds0, fs.fds, hurt, fdi, HIT_SCORE);
      fs.fds := fs.fds[fdi := Returned(fs.fds[fdi], HIT_SCORE)];
      return;
    }
    StillClosed(fds0, fs.fds, fdi);
    ghost var fds2 := fs.fds;
    res := OpenByPage(fs, fdi, pix, HIT_SCORE, dir);
    OpenBytes(fs.g, fs.flash, dir, fs.fds, fdi);
    OpenedQuiet(fds0, fds0, fds2, fdi, fs.fds[fdi]);
    if trunc && !created {
      ghost var fds3 := fs.fds;
      res, loss, hurt, dir := TruncateOpened(fs, fdi, maxCandidates, dir);
      QuietJoin(fds0, fds3, fs.fds, fdi, res == OK);
    }
  }

  /** Opens a file by name: creating it if it is not there and that is asked for, truncating it if
      it is there and that is asked for. */
  method Open(fs: Spiffs, path: seq<int>, create: bool, excl: bool, trunc: bool, width: nat, maxCandidates: nat, ghost dir0: Dir)
    returns (res: Status, fdi: nat, ghost loss: Loss, ghost hurt: int, ghost dir: Dir)
    requires fs.Valid() && !fs.cleaning && maxCandidates > 0 && IsString(path)
    requires TopId(fs.g) - MIN_ID <= width * 8 <= MAX_ID
    requires Sound(fs.g, fs.flash, dir0, fs.fds)
    modifies fs`flash, fs`log, fs`freeBlocks, fs`maxEraseCount, fs`pagesDeleted, fs`pagesAllocated
    modifies fs`freeCursorBlock, fs`freeCursorEntry, fs`fds, fs`cursorBlock, fs`cursorEntry, fs`cleaning
    ensures fs.Valid() && !fs.cleaning && fs.Drift() >= old(fs.Drift())
    ensures |path| >= fs.g.nameLen <==> res == ERR_NAME_TOO_LONG
    ensures |path| >= fs.g.nameLen ==> unchanged(fs)
    ensures |path| < fs.g.nameLen ==> (res == ERR_OUT_OF_FILE_DESCS <==> !FdLeft(old(fs.fds), true))
    ensures |path| < fs.g.nameLen && FdLeft(old(fs.fds), true) && Named(Disk(fs.g, Meaning(old(fs.flash), dir0)), path) ==>
      && (res == ERR_FILE_EXISTS <==> create && excl)
      && (!(create && excl) && (trunc ==> TruncateNeed(fs.g, Disk(fs.g, Meaning(old(fs.flash), dir0)), path, old(fs.Spare()))) ==> res == OK)
    ensures |path| < fs.g.nameLen && FdLeft(old(fs.fds), true) && !Named(Disk(fs.g, Meaning(old(fs.flash), dir0)), path) ==>
      && (!create ==> res == ERR_NOT_FOUND)
      && (create ==> Lower(res) && (old(fs.Spare()) >= Plenty(fs.g) && IdLeft(old(fs.flash).lu, width) ==> res == OK) && (res == ERR_FULL ==> Crowded(fs, old(fs.flash).lu, width)))
    ensures res == OK ==> fdi < |fs.fds| == |old(fs.fds)| && old(fs.fds)[fdi].fileNbr == 0 && fs.fds[fdi].fileNbr == fdi + 1 && fs.fds[fdi].position == 0 && (old(fs.fds)[fdi].pending.None? ==> fs.fds[fdi].pending.None?)
    ensures Quiet(old(fs.fds), fs.fds, if res == OK then fdi else NONE)
    ensures res != OK ==> Spared(fs.g, old(fs.flash), dir0, fs.flash, loss, dir, fs.fds, hurt)
    ensures hurt != NONE ==> |path| < fs.g.nameLen && FdLeft(old(fs.fds), true) && if Named(Disk(fs.g, Meaning(old(fs.flash), dir0)), path) then trunc && !(create && excl) else create && res != ERR_FULL
    ensures !create && !trunc ==>
      && fs.Spare() == old(fs.Spare())
      && (res != OK ==> fs.flash == old(fs.flash) && dir == dir0 && (res == ERR_OUT_OF_FILE_DESCS || res == ERR_NOT_FOUND || res == ERR_NAME_TOO_LONG))
    ensures res == OK ==> fdi < |fs.fds| && Opened(fs.g, Disk(fs.g, Meaning(old(fs.flash), dir0)), Disk(fs.g, Meaning(fs.flash, dir)), path, create, excl, trunc, ObjectId(fs.fds[fdi].objId))
    ensures res == OK ==> Sound(fs.g, fs.flash, dir, fs.fds) && OpenFile(fs.g, Meaning(fs.flash, dir), fs.fds, fdi)
  {
    hide Spiffs.Valid;
    hide Spiffs.Drift;
    hide Spiffs.Spare;
    hide Plenty;
    hide Crowded;
    hide IdLeft;
    hide FreeSuffix;
    hide CursorOk;
    hide All;
    hide FreeBlocks;
    hide ErasedFree;
    hide DeadMarked;
    hide Linked;
    hide FdsOk;
    hide Meaning;
    hide AllFiles;
    hide NamedHeader;
    hide NamesDiffer;
    hide Disk;
    hide FileOf;
    hide IsFile;
    hide Geometry.Total;
    hide TopIx;
    hide Contents;
    hide Extent;
    hide Survived;
    hide Spared;
    hide Quiet;
    hide Mapless;
    hide SameOpen;
    dir, fdi, loss, hurt := dir0, 0, NoLoss, NONE;
    ghost var v, fds0 := fs.flash, fs.fds;
    SoundSpared(fs.g, v, dir, fds0);
    if |path| > fs.g.nameLen - 1 {
      return ERR_NAME_TOO_LONG, fdi, loss, hurt, dir;
    }
    var found;
    found, fdi := FindFd(fs, true);
    FdsFound(Meaning(fs.flash, dir), dir, fds0, fs.fds);
    FoundQuiet(fds0, fs.fds);
    ghost var fds1 := fs.fds;
    SoundSpared(fs.g, v, dir, fds1);
    if !found {
      return ERR_OUT_OF_FILE_DESCS, fdi, loss, hurt, dir;
    }
    res, loss, hurt, dir := OpenWith(fs, fdi, path, create, excl, trunc, width, maxCandidates, dir);
    QuietAfter(fds0, fds1, fs.fds, if res == OK then fdi else NONE);
  }

  lemma QuietAfter(fds0: seq<Fd>, fds1: seq<Fd>, fds: seq<Fd>, fdi: int)
    requires Quiet(fds0, fds1, NONE) && Quiet(fds1, fds, fdi)
    ensures Quiet(fds0, fds, fdi) && |fds| == |fds0|
  {
    hide Mapless;
  }

  lemma SoundSpared(g: Geometry, v: Flash, dir: Dir, fds: seq<Fd>)
    requires Sound(g, v, dir, fds)
    ensures Spared(g, v, dir, v, NoLoss, dir, fds, NONE) && Quiet(fds, fds, NONE)
  {
  }

  lemma FoundQuiet(fds0: seq<Fd>, fds: seq<Fd>)
    requires |fds| == |fds0| && forall i :: 0 <= i < |fds| ==> fds[i] == fds0[i].(score := fds[i].score) && fds[i].score <= fds0[i].score
    ensures Quiet(fds0, fds, NONE)
  {
    if Mapless(fds0) {
      assert forall i :: 0 <= i < |fds| ==> fds0[i].win.None? && fds[i].win == fds0[i].win;
    }
  }

  lemma StillClosed(fds1: seq<Fd>, fds: seq<Fd>, fdi: nat)
    requires SameOpen(fds1, fds) && fdi < |fds1| && fds1[fdi].fileNbr == 0
    ensures fdi < |fds| && fds[fdi].fileNbr == 0 && (fds1[fdi].pending.None? ==> fds[fdi].pending.None?)
  {
  }

  /** The descriptor that was chosen is given back. */
  lemma GiveBack(g: Geometry, v: Flash, dir0: Dir, w: Flash, loss: Loss, dir: Dir, fds0: seq<Fd>, fds1: seq<Fd>, fds: seq<Fd>, hurt: int, fdi: nat, score: nat)
    requires g.Valid() && Spared(g, v, dir0, w, loss, dir, fds, hurt) && Quiet(fds0, fds1, NONE) && SameOpen(fds1, fds) && (Mapless(fds1) ==> Mapless(fds)) && fdi < |fds1| && score < NO_SCORE
    ensures fdi < |fds| && Spared(g, v, dir0, w, loss, dir, fds[fdi := Returned(fds[fdi], score)], hurt)
    ensures Quiet(fds0, fds[fdi := Returned(fds[fdi], score)], NONE)
  {
    hide Spared;
    hide Mapless;
    QuietOpen(fds1, fds, fdi);
    SparedBack(g, v, dir0, w, loss, dir, fds, hurt, fdi, Returned(fds[fdi], score));
    QuietBack(fds0, fds, fdi, Returned(fds[fdi], score));
  }

  lemma OpenedQuiet(fds0: seq<Fd>, fds1: seq<Fd>, fds2: seq<Fd>, fdi: nat, fd: Fd)
    requires Quiet(fds0, fds1, NONE) && Quiet(fds1, fds2, NONE) && fdi < |fds2| && fd.win == fds2[fdi].win && fd.score < NO_SCORE
    ensures Quiet(fds0, fds2[fdi := fd], fdi)
  {
    var fds := fds2[fdi := fd];
    if Mapless(fds0) {
      assert forall i :: 0 <= i < |fds2| ==> fds2[i].win.None? && fds[i].win == fds2[i].win;
    }
  }

  lemma QuietJoin(fds0: seq<Fd>, fds3: seq<Fd>, fds: seq<Fd>, fdi: nat, ok: bool)
    requires Quiet(fds0, fds3, fdi) && Quiet(fds3, fds, if ok then fdi else NONE) && fdi < |fds| && (!ok ==> fds[fdi].fileNbr == 0)
    ensures Quiet(fds0, fds, if ok then fdi else NONE)
  {
    hide Mapless;
  }

  lemma IdName(g: Geometry, m: Image, o: int)
    requires g.Valid()
    ensures o in Ids(m) ==> o in Disk(g, m) && Disk(g, m)[o] == FileOf(g, m, o)
  {
  }

  lemma EntryAt(g: Geometry, fl: Flash, dir: Dir, id: int)
    requires Linked(g, fl, dir) && 1 <= id <= MAX_ID && Key(IndexId(id), 0) in dir
    ensures 0 <= dir[Key(IndexId(id), 0)] < |fl.lu| && fl.lu[dir[Key(IndexId(id), 0)]] == IndexId(id)
  {
    HeldLoad(g, fl, dir, id, 0);
  }

  /** A file got other bytes. */
  lemma ChangedDisk(g: Geometry, v: Flash, dir0: Dir, fds0: seq<Fd>, fdi: nat, m': Image, c: seq<int>, c': seq<int>)
    requires Sound(g, v, dir0, fds0) && OpenFile(g, Meaning(v, dir0), fds0, fdi)
    requires c == Contents(g, Meaning(v, dir0), ObjectId(fds0[fdi].objId), Length(fds0[fdi].size))
    requires FileIO.FileChanged(g, Meaning(v, dir0), m', ObjectId(fds0[fdi].objId), c, c')
    ensures var d, o := Disk(g, Meaning(v, dir0)), ObjectId(fds0[fdi].objId);
      && o in d && d[o].bytes == c && AllFiles(g, m') && NamesDiffer(Disk(g, m')) && Disk(g, m') == d[o := File(d[o].name, c')]
  {
    hide Linked;
    hide FdsOk;
    hide IsFile;
    hide Contents;
    hide AllFiles;
    var m, o := Meaning(v, dir0), ObjectId(fds0[fdi].objId);
    var n := Length(fds0[fdi].size);
    FileSystem.FileId(g, m, o, n);
    FileHeader(g, m, o, n);
    InIds(m, o);
    OneChanged(g, m, m', o, |c'|);
    assert FileOf(g, m', o).name == FileOf(g, m, o).name;
    StillDiffer(Disk(g, m), o, FileOf(g, m', o));
  }

  /** The files after the first `kept` bytes of a write to object `o`. */
  function PutBytes(d: map<int, File>, o: int, offset: nat, buf: seq<int>, kept: nat): map<int, File>
    requires o in d && kept <= |buf|
  {
    d[o := File(d[o].name, FileIO.Written(d[o].bytes, FileIO.WriteAt(offset, |d[o].bytes|), buf[..kept]))]
  }

  /** But for object `hurt`, which is not in order, the medium holds the files `d`. */
  ghost predicate Spoilt(g: Geometry, d: map<int, File>, w: Flash, loss: Loss, dir: Dir, fds: seq<Fd>, hurt: int)
    requires g.Valid()
  {
    exists m: Image :: AllFiles(g, m) && NamesDiffer(Disk(g, m)) && Disk(g, m) == d && FileIO.Harmed(g, m, w, loss, dir, fds, hurt)
  }

  /** How a write through a descriptor ends: with the first `kept` bytes written and everything in order,
      or with them written and one object not in order. */
  ghost predicate WroteFile(g: Geometry, v: Flash, dir0: Dir, fds0: seq<Fd>, fdi: nat, w: Flash, loss: Loss, dir: Dir, fds: seq<Fd>, offset: nat, buf: seq<int>, kept: nat, sound: bool)
    requires g.Valid() && fdi < |fds0|
  {
    var d, o := Disk(g, Meaning(v, dir0)), ObjectId(fds0[fdi].objId);
    && kept <= |buf| && o in d && 1 <= o <= MAX_ID
    && (sound ==>
         && Linked(g, w, dir) && AllFiles(g, Meaning(w, dir)) && NamesDiffer(Disk(g, Meaning(w, dir)))
         && FileIO.FdsBut(Meaning(w, dir), dir, fds, o)
         && Disk(g, Meaning(w, dir)) == PutBytes(d, o, offset, buf, kept))
    && (!sound ==> Spoilt(g, PutBytes(d, o, offset, buf, kept), w, loss, dir, fds, FileIO.Hurt(w, loss, o)))
  }

  /** Writes through an open descriptor: the file of its object gets the bytes, no other file
      changes. A write that was `refused` wrote nothing. */
  method WriteFile(fs: Spiffs, fdi: nat, offset: nat, buf: seq<int>, maxCandidates: nat, junk: int, ghost dir0: Dir)
    returns (res: Status, refused: bool, ghost kept: nat, ghost sound: bool, ghost loss: Loss, ghost dir: Dir)
    requires fs.Valid() && !fs.cleaning && maxCandidates > 0 && |buf| > 0
    requires Sound(fs.g, fs.flash, dir0, fs.fds) && OpenFile(fs.g, Meaning(fs.flash, dir0), fs.fds, fdi)
    requires fs.fds[fdi].size < 0 ==> offset == 0
    modifies fs`flash, fs`log, fs`freeBlocks, fs`maxEraseCount, fs`pagesDeleted, fs`pagesAllocated
    modifies fs`freeCursorBlock, fs`freeCursorEntry, fs`fds, fs`cursorBlock, fs`cursorEntry, fs`cleaning
    ensures fs.Valid() && !fs.cleaning && fs.Drift() >= old(fs.Drift())
    ensures old(fs.Spare()) >= FileIO.WriteNeed(fs.g, FileIO.WriteAt(offset, Length(old(fs.fds)[fdi].size)), |buf|) ==>
      res == OK && fs.Spare() >= old(fs.Spare()) - FileIO.WriteNeed(fs.g, FileIO.WriteAt(offset, Length(old(fs.fds)[fdi].size)), |buf|)
    ensures refused ==> !Reclaim.Holds(fs.g, fs.flash.lu, |buf| + fs.g.dps)
    ensures res == ERR_FULL ==> !fs.CanTake() || !Reclaim.Holds(fs.g, fs.flash.lu, |buf| + fs.g.dps)
    ensures old(Reclaim.Ample(fs, |buf| + fs.g.dps)) ==> !refused
    ensures SameOpen(old(fs.fds), fs.fds) && (Mapless(old(fs.fds)) ==> Mapless(fs.fds))
    ensures WroteFile(fs.g, old(fs.flash), dir0, old(fs.fds), fdi, fs.flash, loss, dir, fs.fds, offset, buf, kept, sound)
    ensures refused ==> res == ERR_FULL && sound && kept == 0
    ensures res == OK ==> sound && kept == |buf| && Sound(fs.g, fs.flash, dir, fs.fds) && OpenFile(fs.g, Meaning(fs.flash, dir), fs.fds, fdi)
    ensures res == OK ==> Followed(dir0, old(fs.fds), dir, fs.fds, fdi, Length(old(fs.fds)[fdi].size))
  {
    hide FreeSuffix;
    hide CursorOk;
    hide All;
    hide FreeBlocks;
    hide ErasedFree;
    hide DeadMarked;
    hide Linked;
    hide FdsOk;
    hide Meaning;
    hide AllFiles;
    hide NamedHeader;
    hide NamesDiffer;
    hide Disk;
    hide FileOf;
    hide IsFile;
    hide Contents;
    hide Geometry.Total;
    hide FileIO.Written;
    hide FileIO.Harmed;
    hide FileIO.WriteNeed;
    hide FileIO.FileChanged;
    hide FileIO.Hurt;
    hide Reclaim.Holds;
    hide Reclaim.Ample;
    hide Spiffs.CanTake;
    hide Followed;
    hide Mapless;
    hide SameOpen;
    OpenBytes(fs.g, fs.flash, dir0, fs.fds, fdi);
    ghost var mid;
    res, refused, kept, sound, mid, loss, dir := FileIO.Write(fs, fdi, offset, buf, maxCandidates, junk, dir0);
    ghost var c := Contents(fs.g, Meaning(old(fs.flash), dir0), ObjectId(old(fs.fds)[fdi].objId), Length(old(fs.fds)[fdi].size));
    if sound {
      ChangedDisk(fs.g, old(fs.flash), dir0, old(fs.fds), fdi, Meaning(fs.flash, dir), c, FileIO.Written(c, FileIO.WriteAt(offset, |c|), buf[..kept]));
    } else {
      ChangedDisk(fs.g, old(fs.flash), dir0, old(fs.fds), fdi, mid, c, FileIO.Written(c, FileIO.WriteAt(offset, |c|), buf[..kept]));
    }
  }

  /** What reading `len` bytes at `offset` gives. */
  function Slice(c: seq<int>, offset: nat, len: nat): seq<int> {
    if offset >= |c| then [] else c[offset..if offset + len < |c| then offset + len else |c|]
  }

  /** Reads through an open descriptor: the bytes there are, and an error only at the end. */
  method ReadFile(fs: Spiffs, fdi: nat, offset: nat, len: nat, ghost dir: Dir)
    returns (res: Status, bytes: seq<int>)
    requires fs.Valid() && Sound(fs.g, fs.flash, dir, fs.fds) && OpenFile(fs.g, Meaning(fs.flash, dir), fs.fds, fdi)
    requires fs.fds[fdi].size < 0 ==> offset == 0
    requires MapOk(dir, fs.fds[fdi])
    modifies fs`fds, fs`cursorBlock, fs`cursorEntry
    ensures fs.Valid() && Sound(fs.g, fs.flash, dir, fs.fds) && OpenFile(fs.g, Meaning(fs.flash, dir), fs.fds, fdi)
    ensures fs.Drift() == old(fs.Drift()) && SameOpen(old(fs.fds), fs.fds)
    ensures fs.fds[fdi].size == old(fs.fds)[fdi].size && Followed(dir, old(fs.fds), dir, fs.fds, fdi, Length(old(fs.fds)[fdi].size))
    ensures
      var d, o := Disk(fs.g, Meaning(fs.flash, dir)), ObjectId(old(fs.fds)[fdi].objId);
      && o in d && bytes == Slice(d[o].bytes, offset, len)
      && (res == OK || res == ERR_END_OF_OBJECT)
      && (res == OK <==> offset < |d[o].bytes| || (len == 0 && old(fs.fds)[fdi].size < 0))
  {
    hide FreeSuffix;
    hide CursorOk;
    hide All;
    hide FreeBlocks;
    hide ErasedFree;
    hide DeadMarked;
    hide Linked;
    hide FdsOk;
    hide Meaning;
    hide AllFiles;
    hide NamesDiffer;
    hide Extent;
    hide Contents;
    hide MapOk;
    hide Mapless;
    FollowRefl(dir, fs.fds, fdi, Length(fs.fds[fdi].size));
    hide Geometry.Total;
    bytes := [];
    var size := fs.fds[fdi].size;
    OpenBytes(fs.g, fs.flash, dir, fs.fds, fdi);
    if size < 0 && len > 0 {
      return ERR_END_OF_OBJECT, bytes;
    }
    if size >= 0 && offset + len >= size {
      var avail := size - offset;
      if avail <= 0 {
        return ERR_END_OF_OBJECT, bytes;
      }
      res, bytes := FileIO.Read(fs, fdi, offset, avail, dir);
    } else {
      res, bytes := FileIO.Read(fs, fdi, offset, len, dir);
    }
  }

  lemma OpenBytes(g: Geometry, fl: Flash, dir: Dir, fds: seq<Fd>, fdi: nat)
    requires g.Valid() && OpenFile(g, Meaning(fl, dir), fds, fdi)
    ensures var m, o, n := Meaning(fl, dir), ObjectId(fds[fdi].objId), Length(fds[fdi].size);
      && o in Disk(g, m) && Disk(g, m)[o].bytes == Contents(g, m, o, n) && |Contents(g, m, o, n)| == n
  {
    hide Extent;
    var m, o := Meaning(fl, dir), ObjectId(fds[fdi].objId);
    FileHeader(g, m, o, Length(fds[fdi].size));
    InIds(m, o);
  }

  lemma RemovedDisk(g: Geometry, v: Flash, dir0: Dir, fds0: seq<Fd>, w: Flash, dir: Dir, fds: seq<Fd>, o: int)
    requires Sound(g, v, dir0, fds0) && 1 <= o <= MAX_ID && Removed(g, v, dir0, fds0, w, dir, fds, o)
    ensures Sound(g, w, dir, fds) && Disk(g, Meaning(w, dir)) == Disk(g, Meaning(v, dir0)) - {o}
  {
    hide Linked;
    hide FdsOk;
    hide IsFile;
    hide Contents;
    hide AllFiles;
    hide FileOf;
    OneGone(g, Meaning(v, dir0), Meaning(w, dir), o);
  }

  /** Removes a file by name. With a descriptor to spare it fails only if there is no such file. */
  method Remove(fs: Spiffs, path: seq<int>, ghost dir0: Dir) returns (res: Status, ghost o: int, ghost dir: Dir)
    requires fs.Valid() && !fs.cleaning && Sound(fs.g, fs.flash, dir0, fs.fds) && IsString(path)
    modifies fs`flash, fs`log, fs`freeBlocks, fs`maxEraseCount, fs`pagesDeleted, fs`pagesAllocated
    modifies fs`freeCursorBlock, fs`freeCursorEntry, fs`fds, fs`cursorBlock, fs`cursorEntry, fs`cleaning
    ensures fs.Valid() && !fs.cleaning && fs.Drift() >= old(fs.Drift())
    ensures Sound(fs.g, fs.flash, dir, fs.fds)
    ensures res == OK || res == ERR_OUT_OF_FILE_DESCS || res == ERR_NOT_FOUND || res == ERR_NAME_TOO_LONG
    ensures res == ERR_NAME_TOO_LONG <==> |path| >= fs.g.nameLen
    ensures |path| < fs.g.nameLen ==> (res == ERR_OUT_OF_FILE_DESCS <==> !FdLeft(old(fs.fds), false))
    ensures Quiet(old(fs.fds), fs.fds, NONE)
    ensures MapsOk(dir0, old(fs.fds)) && NoOldMaps(old(fs.fds)) ==> MapsOk(dir, fs.fds)
    ensures
      var d, d' := Disk(fs.g, Meaning(old(fs.flash), dir0)), Disk(fs.g, Meaning(fs.flash, dir));
      && (res != OK ==> d' == d)
      && (res == ERR_NOT_FOUND ==> forall a :: a in d ==> d[a].name != path)
      && (res == OK ==> o in d && d[o].name == path && d' == d - {o})
  {
    hide FreeSuffix;
    hide CursorOk;
    hide All;
    hide FreeBlocks;
    hide ErasedFree;
    hide DeadMarked;
    hide Linked;
    hide FdsOk;
    hide Meaning;
    hide AllFiles;
    hide NamedHeader;
    hide NamesDiffer;
    hide Disk;
    hide FileOf;
    hide IsFile;
    hide Geometry.Total;
    hide Quiet;
    hide Mapless;
    hide MapsOk;
    hide NoOldMaps;
    hide Removed;
    dir, o := dir0, FREE;
    ghost var fds0 := fs.fds;
    SoundSpared(fs.g, fs.flash, dir, fds0);
    if |path| > fs.g.nameLen - 1 {
      return ERR_NAME_TOO_LONG, o, dir;
    }
    var found, fdi, pix;
    found, fdi := FindFd(fs, false);
    FdsFound(Meaning(fs.flash, dir), dir, fds0, fs.fds);
    SameFound(fds0, fs.fds);
    if !found {
      return ERR_OUT_OF_FILE_DESCS, o, dir;
    }
    NameTaken(fs.g, fs.flash, dir, path);
    res, pix := FindByName(fs, path);
    if res != OK {
      ClosedBack(fs.g, fs.flash, dir, fds0, fdi, fs.fds[fdi].score);
      fs.fds := fs.fds[fdi := Returned(fs.fds[fdi], fs.fds[fdi].score)];
      return;
    }
    HeaderIsNamed(fs.g, fs.flash, dir, path, pix);
    NamedInRange(fs.flash, path, pix);
    o := ObjectId(fs.flash.lu[pix]);
    IdName(fs.g, Meaning(fs.flash, dir), o);
    res := OpenByPage(fs, fdi, pix, fs.fds[fdi].score, dir);
    ghost var v, dir1, fds1 := fs.flash, dir, fs.fds;
    OpenedMaps(dir, fds0, fdi, fs.fds[fdi]);
    ghost var room, stock, loss;
    res, room, stock, loss, dir := Truncate(fs, fdi, true, 1, dir);
    RemovedDisk(fs.g, v, dir1, fds1, fs.flash, dir, fs.fds, o);
    RemovedQuiet(fs.g, v, dir1, fds0, fds1, fs.flash, dir, fs.fds, fdi, o);
  }

  /** A closed descriptor has no window, though it may have had one: that is so unless a removal closed
      it. */
  ghost predicate NoOldMaps(fds: seq<Fd>) {
    forall i :: 0 <= i < |fds| && fds[i].fileNbr == 0 ==> fds[i].win.None?
  }

  lemma SameFound(fds0: seq<Fd>, fds: seq<Fd>)
    requires |fds| == |fds0| && forall i :: 0 <= i < |fds| ==> fds[i] == fds0[i].(score := Sunk(fds0[i], false))
    ensures fds == fds0
  {
  }

  lemma ClosedBack(g: Geometry, fl: Flash, dir: Dir, fds: seq<Fd>, fdi: nat, score: nat)
    requires Sound(g, fl, dir, fds) && fdi < |fds| && fds[fdi].fileNbr == 0 && score <= fds[fdi].score
    ensures var fds' := fds[fdi := Returned(fds[fdi], score)];
      && Sound(g, fl, dir, fds') && Quiet(fds, fds', NONE) && (MapsOk(dir, fds) ==> MapsOk(dir, fds'))
  {
    hide Linked;
    hide AllFiles;
    hide NamesDiffer;
    var fds' := fds[fdi := Returned(fds[fdi], score)];
    forall i | 0 <= i < |fds'|
      ensures FdOk(Meaning(fl, dir), dir, fds'[i])
      ensures fds[i].win.None? ==> fds'[i].win.None?
      ensures MapOk(dir, fds[i]) ==> MapOk(dir, fds'[i])
    {
      assert FdOk(Meaning(fl, dir), dir, fds[i]);
    }
  }

  lemma OpenedMaps(dir: Dir, fds0: seq<Fd>, fdi: nat, fd: Fd)
    requires fdi < |fds0| && fds0[fdi].fileNbr == 0 && fd.win == fds0[fdi].win
    ensures MapsOk(dir, fds0) && NoOldMaps(fds0) ==> MapsOk(dir, fds0[fdi := fd])
    ensures Mapless(fds0) ==> Mapless(fds0[fdi := fd])
  {
    var fds := fds0[fdi := fd];
    forall i | 0 <= i < |fds|
      ensures MapOk(dir, fds0[i]) && NoOldMaps(fds0) ==> MapOk(dir, fds[i])
      ensures fds0[i].win.None? ==> fds[i].win.None?
    {
    }
  }

  lemma RemovedQuiet(g: Geometry, v: Flash, dir1: Dir, fds0: seq<Fd>, fds1: seq<Fd>, w: Flash, dir: Dir, fds: seq<Fd>, fdi: nat, o: int)
    requires Removed(g, v, dir1, fds1, w, dir, fds, o) && MapsKept(dir1, fds1, dir, fds) && fdi < |fds0| == |fds1| && fds1 == fds0[fdi := fds1[fdi]]
    requires Mapless(fds0) ==> Mapless(fds1)
    requires forall i :: 0 <= i < |fds1| && fds1[i].fileNbr == 0 ==> i < |fds| && fds[i].fileNbr == 0
    requires |fds| == |fds1| && (forall i :: 0 <= i < |fds| ==> fds[i].score == fds1[i].score) && fds1[fdi].score == fds0[fdi].score
    requires ObjectId(fds1[fdi].objId) == o
    ensures Quiet(fds0, fds, NONE)
  {
    hide Consistent;
    hide Meaning;
    hide Mapless;
    hide MapsOk;
  }

  lemma RenamedFile(g: Geometry, m: Image, o: int, len: nat, name: seq<int>)
    requires g.Valid() && IsFile(g, m, o, len)
    ensures var x := Key(IndexId(o), 0);
      && x in m && m[x].Header?
      && var m' := m[x := Header(m[x].size, name, [])];
      IsFile(g, m', o, len) && SameOthers(m, m', o) && FileOf(g, m', o) == File(CStr(name), FileOf(g, m, o).bytes)
  {
    hide Quot;
    hide Rem;
    hide PageCount;
    hide TopIx;
    var x := Key(IndexId(o), 0);
    var m' := m[x := Header(m[x].size, name, [])];
    assert DataPages(g, m', o, PageCount(g, len));
    assert IndexPages(m', o, TopIx(g, len));
    assert forall p: nat :: ByteAt(g, m', o, p) == ByteAt(g, m, o, p);
  }

  /** The header went to slot `dst` with another name, the descriptors were told, and descriptor
      `fdi` is closed again. */
  lemma RenamedFds(m: Image, m': Image, dir: Dir, fds: seq<Fd>, fds': seq<Fd>, fdi: nat, o: int, dst: int)
    requires FdsOk(m, dir, fds) && fdi < |fds| && 1 <= o <= MAX_ID
    requires SameOthers(m, m', o)
    requires var x := Key(IndexId(o), 0); x in m && x in m' && m[x].Header? && m'[x].Header? && m'[x].size == m[x].size && m[x].size != 0
    requires |fds'| == |fds| && fds'[fdi].fileNbr == 0 && forall i :: 0 <= i < |fds| && i != fdi ==>
      fds'[i] == EventFd(fds[i], IxHeaderUpdated, IndexId(o), 0, dst, m[Key(IndexId(o), 0)].size)
    ensures FdsOk(m', dir[Key(IndexId(o), 0) := dst], fds')
  {
    forall i | 0 <= i < |fds|
      ensures FdOk(m', dir[Key(IndexId(o), 0) := dst], fds'[i])
    {
      assert FdOk(m, dir, fds[i]);
    }
  }

  lemma StoredSizeWord(g: Geometry, m: Image, o: int, len: nat)
    requires g.Valid() && IsFile(g, m, o, len)
    ensures var x := Key(IndexId(o), 0); x in m && m[x].Header? && m[x].size != 0
  {
  }

  lemma RenamedDisk(g: Geometry, v: Flash, mid: Flash, dir: Dir, fds: seq<Fd>, fds': seq<Fd>, fdi: nat, o: int, len: nat, path: seq<int>, dst: nat)
    requires Sound(g, v, dir, fds) && QuickStep(v, mid) && Owner(dir, fds, fdi, o) && IsFile(g, Meaning(v, dir), o, len) && IsPath(path, g.nameLen)
    requires dst < |mid.lu| && mid.lu[dst] == FREE && 0 <= fds[fdi].hdr < |v.pages|
    requires forall a :: a in Disk(g, Meaning(v, dir)) ==> Disk(g, Meaning(v, dir))[a].name != path
    requires var page := EditHeader(v.pages[fds[fdi].hdr], Some(Padded(path, g.nameLen)), 0);
      && |fds'| == |fds| && fds'[fdi].fileNbr == 0 && forall i :: 0 <= i < |fds| && i != fdi ==>
           fds'[i] == EventFd(fds[i], IxHeaderUpdated, IndexId(o), page.span, dst, HeaderSize(page))
    ensures fds[fdi].hdr < |mid.lu| == |mid.pages|
    ensures
      var page := EditHeader(v.pages[fds[fdi].hdr], Some(Padded(path, g.nameLen)), 0);
      var w, d := Moved(mid, fds[fdi].hdr, dst, IndexId(o), page.(flags := AsUsed(page.flags))), Disk(g, Meaning(v, dir));
      var dir' := dir[Key(IndexId(o), 0) := dst];
      && Sound(g, w, dir', fds') && o in d && Disk(g, Meaning(w, dir')) == d[o := File(path, d[o].bytes)]
  {
    hide Linked;
    hide FdsOk;
    hide AllFiles;
    hide NamesDiffer;
    hide EventFd;
    hide QuickStep;
    hide Moved;
    hide FileOf;
    hide CStr;
    hide Padded;
    var m, x, hdr := Meaning(v, dir), Key(IndexId(o), 0), fds[fdi].hdr;
    var name := Padded(path, g.nameLen);
    HeldLoad(g, v, dir, o, 0);
    HeldHeader(g, v, mid, dir, o, hdr, v.pages[hdr], dst, Some(name), 0);
    RenamedFile(g, m, o, len, name);
    var m' := m[x := Header(m[x].size, name, [])];
    StoredSizeWord(g, m, o, len);
    RenamedFds(m, m', dir, fds, fds', fdi, o, dst);
    OneChanged(g, m, m', o, len);
    StoredName(path, g.nameLen);
    InIds(m, o);
    IdName(g, m, o);
    StillDiffer(Disk(g, m), o, File(path, FileOf(g, m, o).bytes));
  }

  /** Stores a new name through the descriptor just opened, and closes it again. */
  method StoreName(fs: Spiffs, fdi: nat, o: int, newPath: seq<int>, ghost dir0: Dir)
    returns (res: Status, dst: nat, ghost mid: Flash, ghost dir: Dir)
    requires fs.Valid() && Sound(fs.g, fs.flash, dir0, fs.fds) && IsPath(newPath, fs.g.nameLen)
    requires Owner(dir0, fs.fds, fdi, o) && IsFile(fs.g, Meaning(fs.flash, dir0), o, Length(fs.fds[fdi].size))
    requires forall a :: a in Disk(fs.g, Meaning(fs.flash, dir0)) ==> Disk(fs.g, Meaning(fs.flash, dir0))[a].name != newPath
    modifies fs`flash, fs`log, fs`freeBlocks, fs`maxEraseCount, fs`pagesDeleted, fs`pagesAllocated
    modifies fs`freeCursorBlock, fs`freeCursorEntry, fs`fds
    ensures fs.Valid() && fs.Drift() == old(fs.Drift())
    ensures old(fs.Spare()) >= 1 ==> res == OK
    ensures Lower(res)
    ensures res == OK <==> old(fs.CanTake())
    ensures !fs.cleaning && old(fs.freeBlocks) >= 1 ==> fs.freeBlocks >= 1
    ensures res != OK ==> dir == dir0 && Sound(fs.g, fs.flash, dir0, fs.fds) && Meaning(fs.flash, dir0) == Meaning(old(fs.flash), dir0)
    ensures Quiet(old(fs.fds), fs.fds, NONE)
    ensures |fs.fds| == |old(fs.fds)| && fs.fds[fdi].fileNbr == 0 && fs.fds[fdi].win == None
    ensures res != OK ==> fs.fds == old(fs.fds)[fdi := Returned(old(fs.fds)[fdi], old(fs.fds)[fdi].score)]
    ensures res == OK ==> forall i :: 0 <= i < |fs.fds| && i != fdi ==>
      fs.fds[i] == EventFd(old(fs.fds)[i], IxHeaderUpdated, IndexId(o), 0, dst, WordOf(Length(old(fs.fds)[fdi].size)))
    ensures forall i :: 0 <= i < |fs.fds| && i != fdi && MapOk(dir0, old(fs.fds)[i]) ==> MapOk(dir, fs.fds[i])
    ensures res == OK ==>
      var d, hdr := Disk(fs.g, Meaning(old(fs.flash), dir0)), old(fs.fds)[fdi].hdr;
      && Sound(fs.g, fs.flash, dir, fs.fds) && o in d && Disk(fs.g, Meaning(fs.flash, dir)) == d[o := File(newPath, d[o].bytes)]
      && 0 <= hdr < |fs.flash.lu| && fs.flash.lu[hdr] == DELETED && Key(IndexId(o), 0) in dir && dir[Key(IndexId(o), 0)] == dst
      && QuickStep(old(fs.flash), mid) && dst < |mid.lu| && mid.lu[dst] == FREE && 0 <= hdr < |old(fs.flash).pages|
      && Logged(fs.g, old(fs.flash), mid, old(fs.log), fs.log, MoveOps(hdr, dst, IndexId(o), EditHeader(old(fs.flash).pages[hdr], Some(Padded(newPath, fs.g.nameLen)), 0)))
  {
    hide FreeSuffix;
    hide CursorOk;
    hide All;
    hide FreeBlocks;
    hide ErasedFree;
    hide DeadMarked;
    hide Linked;
    hide FdsOk;
    hide Meaning;
    hide AllFiles;
    hide NamesDiffer;
    hide Disk;
    hide FileOf;
    hide IsFile;
    hide Geometry.Total;
    hide EventFd;
    hide Moved;
    hide MoveOps;
    hide QuickStep;
    hide Logged;
    hide Quiet;
    hide MapOk;
    hide EditHeader;
    hide HeaderSize;
    hide AllWords;
    hide Geometry.BlockStart;
    hide SameOpen;
    hide Spiffs.CanTake;
    dir := dir0;
    ghost var v, fds0 := fs.flash, fs.fds;
    HeldLoad(fs.g, v, dir, o, 0);
    HeldPage(fs.g, v, dir, o, 0, fs.fds[fdi].hdr, v.pages[fs.fds[fdi].hdr]);
    NamedSize(fs.g, v, dir, o, fs.fds[fdi].hdr, Length(fs.fds[fdi].size), Padded(newPath, fs.g.nameLen));
    res, dst, mid := fs.UpdateIndexHdr(Some(fdi), fs.fds[fdi].objId, fs.fds[fdi].hdr, None, Some(Padded(newPath, fs.g.nameLen)), 0);
    ghost var fds1 := fs.fds;
    fs.fds := fs.fds[fdi := Returned(fs.fds[fdi], fs.fds[fdi].score)];
    if res == OK {
      RenamedDisk(fs.g, v, mid, dir, fds0, fs.fds, fdi, o, Length(fds0[fdi].size), newPath, dst);
      MovedAway(mid, fds0[fdi].hdr, dst, IndexId(o), EditHeader(v.pages[fds0[fdi].hdr], Some(Padded(newPath, fs.g.nameLen)), 0));
      RenamedQuiet(dir, fds0, fds1, fdi, o, dst, WordOf(Length(fds0[fdi].size)));
      dir := dir[Key(IndexId(o), 0) := dst];
    } else {
      QuickKeeps(fs.g, v, mid, dir);
      FdClosed(Meaning(v, dir), dir, fds0, fdi);
      BackQuiet(fds0, fdi);
    }
  }

  lemma MovedAway(fl: Flash, s: int, f: int, id: int, page: Page)
    requires 0 <= f < |fl.lu| == |fl.pages| && 0 <= s < |fl.lu|
    ensures |Moved(fl, s, f, id, page.(flags := AsUsed(page.flags))).lu| == |fl.lu| && Moved(fl, s, f, id, page.(flags := AsUsed(page.flags))).lu[s] == DELETED
  {
  }

  lemma BackQuiet(fds: seq<Fd>, fdi: nat)
    requires fdi < |fds|
    ensures Quiet(fds, fds[fdi := Returned(fds[fdi], fds[fdi].score)], NONE)
  {
    var fds' := fds[fdi := Returned(fds[fdi], fds[fdi].score)];
    if Mapless(fds) {
      assert forall i :: 0 <= i < |fds| ==> fds[i].win.None? && fds'[i].win.None?;
    }
  }

  /** The header as it is stored: its span is 0 and its length that of the file. */
  lemma NamedSize(g: Geometry, fl: Flash, dir: Dir, o: int, hdr: nat, len: nat, name: seq<int>)
    requires g.Valid() && Linked(g, fl, dir) && IsFile(g, Meaning(fl, dir), o, len) && Key(IndexId(o), 0) in dir && dir[Key(IndexId(o), 0)] == hdr
    ensures hdr < |fl.pages|
    ensures var page := EditHeader(fl.pages[hdr], Some(name), 0); page.span == 0 && HeaderSize(page) == WordOf(len)
  {
    hide Linked;
    hide Extent;
    HeldLoad(g, fl, dir, o, 0);
    HeldPage(g, fl, dir, o, 0, hdr, fl.pages[hdr]);
    FileHeader(g, Meaning(fl, dir), o, len);
    assert Meaning(fl, dir)[Key(IndexId(o), 0)] == Strip(fl.pages[hdr].body);
  }

  lemma RenamedQuiet(dir: Dir, fds0: seq<Fd>, fds1: seq<Fd>, fdi: nat, o: int, dst: nat, size: int)
    requires fdi < |fds0| && |fds1| == |fds0| && 1 <= o <= MAX_ID
    requires forall i :: 0 <= i < |fds0| ==>
      fds1[i] == var e := EventFd(fds0[i], IxHeaderUpdated, IndexId(o), 0, dst, size); if i == fdi then e.(hdr := dst) else e
    ensures Quiet(fds0, fds1[fdi := Returned(fds1[fdi], fds1[fdi].score)], NONE)
    ensures forall i :: 0 <= i < |fds0| && MapOk(dir, fds0[i]) ==> MapOk(dir[Key(IndexId(o), 0) := dst], fds1[i])
  {
    hide EventFd;
    hide MapOk;
    var fds := fds1[fdi := Returned(fds1[fdi], fds1[fdi].score)];
    forall i | 0 <= i < |fds|
      ensures (fds0[i].fileNbr == 0 ==> fds1[i].fileNbr == 0) && fds1[i].score == fds0[i].score
      ensures fds0[i].win.None? ==> fds1[i].win.None?
      ensures MapOk(dir, fds0[i]) ==> MapOk(dir[Key(IndexId(o), 0) := dst], fds1[i])
    {
      EventFields(fds0[i], IxHeaderUpdated, IndexId(o), 0, dst, size);
      WindowEvent(fds0[i], IxHeaderUpdated, IndexId(o), 0, dst, size);
      MapSame(dir, dir[Key(IndexId(o), 0) := dst], fds0[i], fds1[i]);
    }
    if Mapless(fds0) {
      assert forall i :: 0 <= i < |fds| ==> fds0[i].win.None? && fds[i].win.None?;
    }
  }

  lemma FdClosed(m: Image, dir: Dir, fds: seq<Fd>, fdi: nat)
    requires FdsOk(m, dir, fds) && fdi < |fds|
    ensures FdsOk(m, dir, fds[fdi := Returned(fds[fdi], fds[fdi].score)])
  {
    var fds' := fds[fdi := Returned(fds[fdi], fds[fdi].score)];
    forall i | 0 <= i < |fds|
      ensures FdOk(m, dir, fds'[i])
    {
      assert FdOk(m, dir, fds[i]);
    }
  }

  /** Renames the file whose header is in slot `pix`, through a descriptor that is closed again. */
  method RenameFound(fs: Spiffs, pix: nat, oldPath: seq<int>, newPath: seq<int>, ghost dir0: Dir)
    returns (res: Status, ghost fdi: nat, ghost dst: nat, ghost mid: Flash, ghost dir: Dir)
    requires fs.Valid() && !fs.cleaning && Sound(fs.g, fs.flash, dir0, fs.fds) && IsPath(newPath, fs.g.nameLen)
    requires pix < fs.g.Total() && NamedHeader(fs.flash, oldPath, pix) && !Named(Disk(fs.g, Meaning(fs.flash, dir0)), newPath)
    modifies fs`flash, fs`log, fs`freeBlocks, fs`maxEraseCount, fs`pagesDeleted, fs`pagesAllocated
    modifies fs`freeCursorBlock, fs`freeCursorEntry, fs`fds
    ensures fs.Valid() && fs.Drift() == old(fs.Drift())
    ensures FdLeft(old(fs.fds), false) && old(fs.Spare()) >= 1 ==> res == OK
    ensures if FdLeft(old(fs.fds), false) then Lower(res) else res == ERR_OUT_OF_FILE_DESCS
    ensures res == OK <==> FdLeft(old(fs.fds), false) && old(fs.CanTake())
    ensures Sound(fs.g, fs.flash, dir, fs.fds) && Quiet(old(fs.fds), fs.fds, NONE)
    ensures MapsOk(dir0, old(fs.fds)) ==> MapsOk(dir, fs.fds)
    ensures pix < |old(fs.flash).lu| == |old(fs.flash).pages|
    ensures
      var d, o := Disk(fs.g, Meaning(old(fs.flash), dir0)), ObjectId(old(fs.flash).lu[pix]);
      && o in d && d[o].name == oldPath && old(fs.flash).lu[pix] == IndexId(o)
      && (res != OK ==> Disk(fs.g, Meaning(fs.flash, dir)) == d)
      && (res == OK ==>
           && fdi < |old(fs.fds)| == |fs.fds| && old(fs.fds)[fdi].fileNbr == 0
           && (forall i :: 0 <= i < |fs.fds| && i != fdi ==>
                fs.fds[i] == EventFd(old(fs.fds)[i], IxHeaderUpdated, IndexId(o), 0, dst, WordOf(|d[o].bytes|)))
           && Disk(fs.g, Meaning(fs.flash, dir)) == d[o := File(newPath, d[o].bytes)]
           && pix < |fs.flash.lu| && fs.flash.lu[pix] == DELETED && Key(IndexId(o), 0) in dir && dir[Key(IndexId(o), 0)] == dst
           && Key(IndexId(o), 0) in dir0 && dir0[Key(IndexId(o), 0)] == pix
           && QuickStep(old(fs.flash), mid) && dst < |mid.lu| && mid.lu[dst] == FREE
           && Logged(fs.g, old(fs.flash), mid, old(fs.log), fs.log, MoveOps(pix, dst, IndexId(o), EditHeader(old(fs.flash).pages[pix], Some(Padded(newPath, fs.g.nameLen)), 0))))
  {
    hide FreeSuffix;
    hide CursorOk;
    hide All;
    hide FreeBlocks;
    hide ErasedFree;
    hide DeadMarked;
    hide Linked;
    hide FdsOk;
    hide Meaning;
    hide AllFiles;
    hide NamedHeader;
    hide NamesDiffer;
    hide Disk;
    hide FileOf;
    hide IsFile;
    hide Geometry.Total;
    hide EditHeader;
    hide MoveOps;
    hide QuickStep;
    hide Logged;
    hide Quiet;
    hide MapOk;
    hide EventFd;
    hide Spiffs.CanTake;
    dir, fdi, dst, mid := dir0, 0, 0, fs.flash;
    ghost var fds0 := fs.fds;
    SoundSpared(fs.g, fs.flash, dir, fds0);
    HeaderIsNamed(fs.g, fs.flash, dir, oldPath, pix);
    NamedInRange(fs.flash, oldPath, pix);
    var id := ObjectId(fs.flash.lu[pix]);
    IdName(fs.g, Meaning(fs.flash, dir), id);
    var found, spare := FindFd(fs, false);
    FdsFound(Meaning(fs.flash, dir), dir, fds0, fs.fds);
    SameFound(fds0, fs.fds);
    if !found {
      return ERR_OUT_OF_FILE_DESCS, fdi, dst, mid, dir;
    }
    fdi := spare;
    res := OpenByPage(fs, spare, pix, fs.fds[spare].score, dir);
    ghost var fds1 := fs.fds;
    OpenedLength(fs.g, fs.flash, dir, id, Length(fds1[spare].size));
    var to;
    res, to, mid, dir := StoreName(fs, spare, id, newPath, dir);
    dst := to;
    AroundQuiet(fds0, fds1, fs.fds, fdi);
    MapsAround(dir0, fds0, fds1, dir, fs.fds, fdi);
  }

  /** Renames a file, or does nothing: a rename that reports an error leaves all files as they were. */
  method Rename(fs: Spiffs, oldPath: seq<int>, newPath: seq<int>, ghost dir0: Dir) returns (res: Status, ghost o: int, ghost fdi: nat, ghost dst: nat, ghost dir: Dir)
    requires fs.Valid() && !fs.cleaning && Sound(fs.g, fs.flash, dir0, fs.fds) && IsString(oldPath) && IsString(newPath)
    modifies fs`flash, fs`log, fs`freeBlocks, fs`maxEraseCount, fs`pagesDeleted, fs`pagesAllocated
    modifies fs`freeCursorBlock, fs`freeCursorEntry, fs`fds, fs`cursorBlock, fs`cursorEntry
    ensures fs.Valid() && fs.Drift() == old(fs.Drift())
    ensures
      var d := Disk(fs.g, Meaning(old(fs.flash), dir0));
      |oldPath| < fs.g.nameLen && |newPath| < fs.g.nameLen && Named(d, oldPath) && !Named(d, newPath) && FdLeft(old(fs.fds), false) && old(fs.Spare()) >= 1 ==> res == OK
    ensures Sound(fs.g, fs.flash, dir, fs.fds) && Quiet(old(fs.fds), fs.fds, NONE)
    ensures MapsOk(dir0, old(fs.fds)) ==> MapsOk(dir, fs.fds)
    ensures res == OK ==>
      var d := Disk(fs.g, Meaning(old(fs.flash), dir0));
      && o in d && fdi < |old(fs.fds)| == |fs.fds| && old(fs.fds)[fdi].fileNbr == 0
      && forall i :: 0 <= i < |fs.fds| && i != fdi ==>
           fs.fds[i] == EventFd(old(fs.fds)[i], IxHeaderUpdated, IndexId(o), 0, dst, WordOf(|d[o].bytes|))
    ensures res == OK ==>
      var k := Key(IndexId(o), 0);
      && k in dir && dir[k] == dst && k in dir0 && 0 <= dir0[k] < |fs.flash.lu| && fs.flash.lu[dir0[k]] == DELETED
    ensures
      var d := Disk(fs.g, Meaning(old(fs.flash), dir0));
      && (|oldPath| >= fs.g.nameLen || |newPath| >= fs.g.nameLen <==> res == ERR_NAME_TOO_LONG)
      && (|oldPath| < fs.g.nameLen && |newPath| < fs.g.nameLen && !Named(d, oldPath) ==> res == ERR_NOT_FOUND)
      && (|oldPath| < fs.g.nameLen && |newPath| < fs.g.nameLen && Named(d, oldPath) ==> (res == ERR_CONFLICTING_NAME <==> Named(d, newPath)))
      && (|oldPath| < fs.g.nameLen && |newPath| < fs.g.nameLen && Named(d, oldPath) && !Named(d, newPath) ==>
           && (res == ERR_OUT_OF_FILE_DESCS <==> !FdLeft(old(fs.fds), false))
           && (res == OK <==> FdLeft(old(fs.fds), false) && old(fs.CanTake())))
      && (res != OK ==> Disk(fs.g, Meaning(fs.flash, dir)) == d)
      && (res == OK ==>
           && o in d && d[o].name == oldPath && (forall a :: a in d ==> d[a].name != newPath)
           && Disk(fs.g, Meaning(fs.flash, dir)) == d[o := File(newPath, d[o].bytes)]
           && Crash.RenameWrites(fs.g, old(fs.flash), old(fs.log), fs.log, o, oldPath, newPath))
      && ((exists a :: a in d && d[a].name == newPath) || (forall a :: a in d ==> d[a].name != oldPath) ==> res != OK && unchanged(fs`flash, fs`fds))
  {
    hide FreeSuffix;
    hide CursorOk;
    hide All;
    hide FreeBlocks;
    hide ErasedFree;
    hide DeadMarked;
    hide Linked;
    hide FdsOk;
    hide Meaning;
    hide AllFiles;
    hide NamedHeader;
    hide NamesDiffer;
    hide Disk;
    hide FileOf;
    hide IsFile;
    hide FdLeft;
    hide MapsOk;
    hide Geometry.Total;
    hide EditHeader;
    hide MoveOps;
    hide QuickStep;
    hide Logged;
    hide Quiet;
    hide MapOk;
    hide EventFd;
    hide Spiffs.CanTake;
    dir, o, fdi, dst := dir0, FREE, 0, 0;
    SoundSpared(fs.g, fs.flash, dir, fs.fds);
    if |newPath| > fs.g.nameLen - 1 || |oldPath| > fs.g.nameLen - 1 {
      return ERR_NAME_TOO_LONG, o, fdi, dst, dir;
    }
    var pix, other;
    NameTaken(fs.g, fs.flash, dir, oldPath);
    res, pix := FindByName(fs, oldPath);
    if res != OK {
      return;
    }
    NameTaken(fs.g, fs.flash, dir, newPath);
    res, other := FindByName(fs, newPath);
    if res == OK {
      return ERR_CONFLICTING_NAME, o, fdi, dst, dir;
    }
    ghost var mid;
    res, fdi, dst, mid, dir := RenameFound(fs, pix, oldPath, newPath, dir);
    o := ObjectId(old(fs.flash).lu[pix]);
    if res == OK {
      assert Crash.RenameMove(fs.g, old(fs.flash), mid, old(fs.log), fs.log, o, oldPath, newPath, pix, dst);
    }
  }

  lemma OpenedLength(g: Geometry, fl: Flash, dir: Dir, o: int, n: nat)
    requires g.Valid() && IsFile(g, Meaning(fl, dir), o, n) && o in Disk(g, Meaning(fl, dir))
    ensures |Disk(g, Meaning(fl, dir))[o].bytes| == n
  {
    hide IsFile;
    FileHeader(g, Meaning(fl, dir), o, n);
  }

  /** A closed descriptor was opened, used and given back. */
  lemma AroundQuiet(fds0: seq<Fd>, fds1: seq<Fd>, fds: seq<Fd>, fdi: nat)
    requires fdi < |fds0| == |fds1| == |fds| && fds1 == fds0[fdi := fds1[fdi]] && fds1[fdi].win == fds0[fdi].win && fds1[fdi].score == fds0[fdi].score && Quiet(fds1, fds, NONE) && fds[fdi].fileNbr == 0
    ensures Quiet(fds0, fds, NONE)
  {
    if Mapless(fds0) {
      assert forall i :: 0 <= i < |fds1| ==> fds0[i].win.None? && fds1[i].win == fds0[i].win;
    }
  }

  lemma MapsAround(dir0: Dir, fds0: seq<Fd>, fds1: seq<Fd>, dir: Dir, fds: seq<Fd>, fdi: nat)
    requires fdi < |fds0| == |fds| == |fds1| && fds1 == fds0[fdi := fds1[fdi]] && fds[fdi].fileNbr == 0
    requires forall i :: 0 <= i < |fds| && i != fdi && MapOk(dir0, fds1[i]) ==> MapOk(dir, fds[i])
    ensures MapsOk(dir0, fds0) ==> MapsOk(dir, fds)
  {
    hide Contiguous;
    hide Agrees;
    assert MapOk(dir, fds[fdi]);
    forall i | 0 <= i < |fds| && i != fdi && MapOk(dir0, fds0[i])
      ensures MapOk(dir, fds[i])
    {
      assert fds1[i] == fds0[i];
    }
  }

  /** Looks a file up by name and tells its length. */
  method Stat(fs: Spiffs, path: seq<int>, ghost dir: Dir) returns (res: Status, id: int, size: nat)
    requires fs.Valid() && Sound(fs.g, fs.flash, dir, fs.fds) && IsString(path)
    modifies fs`cursorBlock, fs`cursorEntry
    ensures fs.Valid() && fs.Drift() == old(fs.Drift()) && fs.Spare() == old(fs.Spare())
    ensures var d := Disk(fs.g, Meaning(fs.flash, dir));
      && (|path| >= fs.g.nameLen <==> res == ERR_NAME_TOO_LONG)
      && (res == OK ==> id in d && d[id].name == path && |d[id].bytes| == size)
      && (res != OK && |path| < fs.g.nameLen ==> res == ERR_NOT_FOUND && forall a :: a in d ==> d[a].name != path)
  {
    hide FreeSuffix;
    hide CursorOk;
    hide All;
    hide FreeBlocks;
    hide ErasedFree;
    hide DeadMarked;
    hide Linked;
    hide FdsOk;
    hide Meaning;
    hide AllFiles;
    hide NamedHeader;
    hide NamesDiffer;
    hide Disk;
    hide FileOf;
    hide Geometry.Total;
    id, size := FREE, 0;
    if |path| > fs.g.nameLen - 1 {
      return ERR_NAME_TOO_LONG, id, size;
    }
    var pix;
    NameTaken(fs.g, fs.flash, dir, path);
    res, pix := FindByName(fs, path);
    if res == OK {
      HeaderIsNamed(fs.g, fs.flash, dir, path, pix);
      NamedInRange(fs.flash, path, pix);
      id := ObjectId(fs.flash.lu[pix]);
      IdName(fs.g, Meaning(fs.flash, dir), id);
      HeaderLength(fs.g, fs.flash, dir, id, pix);
      size := Length(HeaderSize(fs.flash.pages[pix]));
    }
  }

  lemma HeaderLength(g: Geometry, fl: Flash, dir: Dir, o: int, pix: nat)
    requires g.Valid() && Linked(g, fl, dir) && AllFiles(g, Meaning(fl, dir)) && o in Ids(Meaning(fl, dir)) && 1 <= o <= MAX_ID
    requires Key(IndexId(o), 0) in dir && dir[Key(IndexId(o), 0)] == pix
    ensures pix < |fl.pages| && |FileOf(g, Meaning(fl, dir), o).bytes| == Length(HeaderSize(fl.pages[pix]))
  {
    hide Extent;
    var m, x := Meaning(fl, dir), Key(IndexId(o), 0);
    InIds(m, o);
    HeldLoad(g, fl, dir, o, 0);
    HeldPage(g, fl, dir, o, 0, pix, fl.pages[pix]);
    assert m[x] == Strip(fl.pages[pix].body);
    FileHeader(g, m, o, Length(m[x].size));
  }
}
