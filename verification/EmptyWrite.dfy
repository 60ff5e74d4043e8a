/** A write of no bytes. Inside the file it loads no index page, yet it stores the work buffer as
    the header of the file, whatever the buffer was last used for. */
module EmptyWrite {
  import opened Words
  import opened Layout
  import opened Medium
  import opened Directory
  import opened Tally
  import opened Store
  import opened Collector
  import opened Files
  import opened Holding
  import opened Appending
  import opened Modifying
  import Reclaim

  /** Storing `work` as header of object `o` keeps the medium consistent, with the same meaning,
      exactly if it is the header that is there already. */
  lemma StoredExact(g: Geometry, fl: Flash, dir: Dir, o: int, hdr: int, dst: nat, work: Page)
    requires Linked(g, fl, dir) && 1 <= o <= MAX_ID && Key(IndexId(o), 0) in dir && dir[Key(IndexId(o), 0)] == hdr
    requires 0 <= hdr < |fl.lu| && dst < |fl.lu| && fl.lu[dst] == FREE && ValidateObjIx(work, IndexId(o), 0) == OK
    ensures |fl.lu| == |fl.pages|
    ensures
      var w, d := Moved(fl, hdr, dst, IndexId(o), work), dir[Key(IndexId(o), 0) := dst];
      Linked(g, w, d) && Meaning(w, d) == Meaning(fl, dir) <==> work == fl.pages[hdr]
  {
    hide Linked;
    hide Moved;
    var x := Key(IndexId(o), 0);
    HeldLoad(g, fl, dir, o, 0);
    HeldPage(g, fl, dir, o, 0, hdr, fl.pages[hdr]);
    var w, d := Moved(fl, hdr, dst, IndexId(o), work), dir[x := dst];
    if work == fl.pages[hdr] {
      assert Patch(fl, hdr, work.body) == fl;
      IndexMoveStep(g, fl, dir, hdr, work.body, dst, work);
      assert Meaning(fl, dir)[x := Strip(work.body)] == Meaning(fl, dir);
    } else if Linked(g, w, d) && Meaning(w, d) == Meaning(fl, dir) {
      HeldLoad(g, w, d, o, 0);
      HeldPage(g, w, d, o, 0, dst, w.pages[dst]);
      MovedTo(fl, hdr, dst, IndexId(o), work);
      SameRefs(g, fl, dir, w, d, o, hdr, dst);
      assert Meaning(w, d)[x] == Meaning(fl, dir)[x];
      SameHeader(g, fl.pages[hdr], work, IndexId(o));
    }
  }

  lemma MovedTo(fl: Flash, s: int, f: int, id: int, page: Page)
    requires 0 <= s < |fl.lu| == |fl.pages| && 0 <= f < |fl.lu| && s != f
    ensures Moved(fl, s, f, id, page).pages[f] == page
  {
  }

  /** Two media with the same directory but for the header have the same references in it. */
  lemma SameRefs(g: Geometry, v: Flash, dir: Dir, w: Flash, d: Dir, o: int, s: nat, t: nat)
    requires s < |v.pages| && t < |w.pages| && d == dir[Key(IndexId(o), 0) := t]
    requires Held(g, v, dir, o, 0, s, v.pages[s]) && Held(g, w, d, o, 0, t, w.pages[t])
    ensures RefsOf(v.pages[s].body) == RefsOf(w.pages[t].body)
  {
    hide Linked;
    HeldPage(g, v, dir, o, 0, s, v.pages[s]);
    HeldPage(g, w, d, o, 0, t, w.pages[t]);
    forall i | 0 <= i < |RefsOf(v.pages[s].body)|
      ensures RefsOf(v.pages[s].body)[i] == RefsOf(w.pages[t].body)[i]
    {
      IxRoundTrip(g, 0, i);
      HeldRef(g, v, dir, o, 0, s, v.pages[s], i);
      HeldRef(g, w, d, o, 0, t, w.pages[t], i);
    }
  }

  lemma SameHeader(g: Geometry, a: Page, b: Page, id: int)
    requires GoodPage(g, id, a) && GoodPage(g, id, b) && IsIndexId(id) && a.span == b.span == 0
    requires RefsOf(a.body) == RefsOf(b.body) && Strip(a.body) == Strip(b.body)
    ensures a == b
  {
  }

  /** The medium after a write of no bytes at `offset` to a file of `len` bytes, whose header is in slot
      `hdr`; `dst` is the slot a new header goes to. */
  function NothingWritten(mid: Flash, o: int, hdr: int, dst: int, work: Page, offset: nat, len: nat): Flash
    requires 0 <= hdr < |mid.lu| == |mid.pages| && 0 <= dst < |mid.lu|
  {
    if offset < len then Moved(mid, hdr, dst, IndexId(o), work) else mid
  }

  function NothingDir(dir: Dir, o: int, dst: int, offset: nat, len: nat): Dir {
    if offset < len then dir[Key(IndexId(o), 0) := dst] else dir
  }

  /** After a write of no bytes the medium means what it did. */
  ghost predicate StillMeans(g: Geometry, mid: Flash, dir: Dir, o: int, hdr: int, dst: int, offset: nat, len: nat, work: Page)
    requires 0 <= hdr < |mid.lu| == |mid.pages| && 0 <= dst < |mid.lu|
  {
    var w, d := NothingWritten(mid, o, hdr, dst, work, offset, len), NothingDir(dir, o, dst, offset, len);
    Linked(g, w, d) && Meaning(w, d) == Meaning(mid, dir)
  }

  /** A write of no bytes keeps what the medium means whatever the work buffer holds exactly if it is
      not inside the file. */
  lemma AnyBuffer(g: Geometry, mid: Flash, dir: Dir, o: int, hdr: int, dst: int, offset: nat, len: nat)
    requires Linked(g, mid, dir) && 1 <= o <= MAX_ID && Key(IndexId(o), 0) in dir && dir[Key(IndexId(o), 0)] == hdr
    requires 0 <= hdr < |mid.lu| == |mid.pages| && 0 <= dst < |mid.lu| && mid.lu[dst] == FREE
    ensures (forall work: Page :: ValidateObjIx(work, IndexId(o), 0) == OK ==> StillMeans(g, mid, dir, o, hdr, dst, offset, len, work)) <==> offset >= len
  {
    hide Linked;
    hide Moved;
    hide Meaning;
    if offset < len {
      HeldLoad(g, mid, dir, o, 0);
      HeldPage(g, mid, dir, o, 0, hdr, mid.pages[hdr]);
      // the header of a file that is one byte longer
      var body := mid.pages[hdr].body;
      var work := mid.pages[hdr].(body := body.(size := body.size + 1));
      StoredExact(g, mid, dir, o, hdr, dst, work);
      assert ValidateObjIx(work, IndexId(o), 0) == OK && !StillMeans(g, mid, dir, o, hdr, dst, offset, len, work);
    }
  }

  /** Modifies nothing at a position inside the file; `work` is what the work buffer holds. The
      medium `mid` is what making room left of the old one. */
  method ModifyNothing(fs: Spiffs, fdi: nat, work: Page, maxCandidates: nat, ghost dir0: Dir)
    returns (res: Status, ghost room: bool, ghost loss: Loss, ghost mid: Flash, ghost hdr: int, ghost dst: nat, ghost dir: Dir)
    requires fs.Valid() && !fs.cleaning && maxCandidates > 0
    requires Consistent(fs.g, fs.flash, dir0, fs.fds) && OpenFile(fs.g, Meaning(fs.flash, dir0), fs.fds, fdi)
    modifies fs`flash, fs`log, fs`freeBlocks, fs`maxEraseCount, fs`pagesDeleted, fs`pagesAllocated
    modifies fs`freeCursorBlock, fs`freeCursorEntry, fs`fds, fs`cursorBlock, fs`cursorEntry, fs`cleaning
    ensures fs.Valid() && !fs.cleaning && fs.Drift() >= old(fs.Drift())
    ensures !room ==> res != OK && Survived(fs.g, old(fs.flash), dir0, old(fs.fds), fs.flash, loss, dir, fs.fds)
    ensures room ==> Linked(fs.g, mid, dir) && Meaning(mid, dir) == Meaning(old(fs.flash), dir0)
    ensures room && res != OK ==> fs.flash == mid
    ensures res == OK ==>
      var x := Key(old(fs.fds)[fdi].objId, 0);
      && room && Linked(fs.g, mid, dir) && Meaning(mid, dir) == Meaning(old(fs.flash), dir0)
      && x in dir && dir[x] == hdr && 0 <= hdr < |mid.lu| == |mid.pages| && dst < |mid.lu| && mid.lu[dst] == FREE
      && fs.flash == Moved(mid, hdr, dst, x.id, work)
      && (Linked(fs.g, fs.flash, dir[x := dst]) && Meaning(fs.flash, dir[x := dst]) == Meaning(mid, dir) <==> work == mid.pages[hdr])
  {
    hide FreeSuffix;
    hide CursorOk;
    hide All;
    hide FreeBlocks;
    hide ErasedFree;
    hide DeadMarked;
    hide Linked;
    hide FdsOk;
    hide Geometry.Total;
    hide Meaning;
    hide IsFile;
    hide Moved;
    hide EventFd;
    hide Logged;
    hide MoveOps;
    hide QuickStep;
    mid, hdr, dst, dir, room, loss := fs.flash, NONE, 0, dir0, false, NoLoss;
    ghost var m0, o := Meaning(fs.flash, dir0), ObjectId(fs.fds[fdi].objId);
    ghost var rounds, first;
    res, rounds, first, loss, dir := Reclaim.Check(fs, fs.g.dps, maxCandidates, dir);
    if res != OK {
      return;
    }
    room := true;
    OwnHeader(Meaning(fs.flash, dir), dir, fs.fds, fdi, o);
    HeldLoad(fs.g, fs.flash, dir, o, 0);
    ghost var v := fs.flash;
    var t := fs.fds[fdi].hdr;
    hdr := t;
    fs.fds := fs.fds[fdi := fs.fds[fdi].(cursorPix := t, cursorSpan := 0)];
    var to;
    res, to, mid := fs.UpdateIndexHdr(Some(fdi), fs.fds[fdi].objId, fs.fds[fdi].hdr, Some(work), None, 0);
    dst := to;
    if res == OK {
      QuickKeeps(fs.g, v, mid, dir);
      EditNothing(work);
      UsedAlready(work, IndexId(o));
      StoredExact(fs.g, mid, dir, o, hdr, dst, work);
    } else {
      QuickKeeps(fs.g, v, mid, dir);
    }
  }

  lemma UsedAlready(p: Page, id: int)
    requires ValidateObjIx(p, id, 0) == OK
    ensures p.(flags := AsUsed(p.flags)) == p
  {
  }

  /** A write of no bytes behind the end or at the end of a file does nothing; inside it, it stores
      the work buffer. */
  method WriteNothing(fs: Spiffs, fdi: nat, offset: nat, work: Page, maxCandidates: nat, ghost dir0: Dir)
    returns (res: Status, ghost room: bool, ghost loss: Loss, ghost mid: Flash, ghost hdr: int, ghost dst: nat, ghost dir: Dir)
    requires fs.Valid() && !fs.cleaning && maxCandidates > 0
    requires Consistent(fs.g, fs.flash, dir0, fs.fds) && OpenFile(fs.g, Meaning(fs.flash, dir0), fs.fds, fdi)
    modifies fs`flash, fs`log, fs`freeBlocks, fs`maxEraseCount, fs`pagesDeleted, fs`pagesAllocated
    modifies fs`freeCursorBlock, fs`freeCursorEntry, fs`fds, fs`cursorBlock, fs`cursorEntry, fs`cleaning
    ensures fs.Valid() && !fs.cleaning && fs.Drift() >= old(fs.Drift())
    ensures offset >= Length(old(fs.fds)[fdi].size) ==> res == OK && unchanged(fs)
    ensures !room ==> res != OK && Survived(fs.g, old(fs.flash), dir0, old(fs.fds), fs.flash, loss, dir, fs.fds)
    ensures room && res != OK ==> Linked(fs.g, fs.flash, dir) && Meaning(fs.flash, dir) == Meaning(old(fs.flash), dir0)
    ensures offset < Length(old(fs.fds)[fdi].size) && res == OK ==>
      var o, len := ObjectId(old(fs.fds)[fdi].objId), Length(old(fs.fds)[fdi].size);
      && Linked(fs.g, mid, dir) && Meaning(mid, dir) == Meaning(old(fs.flash), dir0)
      && Key(IndexId(o), 0) in dir && dir[Key(IndexId(o), 0)] == hdr && 0 <= hdr < |mid.lu| == |mid.pages| && dst < |mid.lu| && mid.lu[dst] == FREE
      && fs.flash == NothingWritten(mid, o, hdr, dst, work, offset, len)
      && (StillMeans(fs.g, mid, dir, o, hdr, dst, offset, len, work) <==> work == mid.pages[hdr])
  {
    hide FreeSuffix;
    hide CursorOk;
    hide All;
    hide FreeBlocks;
    hide ErasedFree;
    hide DeadMarked;
    hide Linked;
    hide FdsOk;
    hide Meaning;
    hide IsFile;
    hide Moved;
    hide Survived;
    res, mid, hdr, dst, dir, room, loss := OK, fs.flash, NONE, 0, dir0, true, NoLoss;
    if fs.fds[fdi].size >= 0 && offset < fs.fds[fdi].size {
      res, room, loss, mid, hdr, dst, dir := ModifyNothing(fs, fdi, work, maxCandidates, dir0);
    }
  }
}
