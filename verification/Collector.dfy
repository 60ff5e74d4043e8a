/** Garbage collection of one block: data pages move out together with the index pages that
    refer to them, then the remaining index pages move out. */
module Collector {
  import opened Words
  import opened Layout
  import opened Medium
  import opened Directory
  import opened Tally
  import opened Store
  import opened Slack
  import opened Window
  import opened Maps

  datatype GcState = FindObjData | MoveObjData | MoveObjIx | Finished

  /** The stack frame of the machine that empties a block: where the scan for data pages goes on
      after a round, and the index page whose data pages are being moved. */
  datatype Gc = Gc(state: GcState, stored: nat, objId: int, ixSpan: nat, ixPix: nat)

  /** A descriptor agrees with the medium: its header page and length are the live ones, and
      its cursor is at the live index page of its span, if there is one. */
  ghost predicate FdOk(m: map<Key, Body>, dir: Dir, fd: Fd) {
    fd.fileNbr != 0 && fd.score != 0 ==>
      && -IX_FLAG < fd.objId < 0
      && Key(fd.objId, 0) in dir && dir[Key(fd.objId, 0)] == fd.hdr
      && Key(fd.objId, 0) in m && m[Key(fd.objId, 0)].Header?
      && Length(fd.size) == Length(m[Key(fd.objId, 0)].size)
      && (Key(fd.objId, fd.cursorSpan) in dir ==> dir[Key(fd.objId, fd.cursorSpan)] == fd.cursorPix)
  }

  /** The same descriptors are open for the same objects, none further on than it was, and nothing more
      is pending. */
  ghost predicate SameOpen(a: seq<Fd>, b: seq<Fd>) {
    |a| == |b| && forall i :: 0 <= i < |a| ==>
      && b[i].fileNbr == a[i].fileNbr && b[i].objId == a[i].objId && b[i].score == a[i].score
      && b[i].position <= a[i].position && (a[i].pending.None? ==> b[i].pending.None?)
  }

  ghost predicate FdsOk(m: map<Key, Body>, dir: Dir, fds: seq<Fd>) {
    forall i :: 0 <= i < |fds| ==> FdOk(m, dir, fds[i])
  }

  /** Which index page covers page `p`, taken as a data page. */
  function Covering(g: Geometry, p: Page): nat
    requires g.Valid()
  {
    IxSpan(g, SpanOf(p))
  }

  /** Slot `s` holds data of object `id` under index page `ix`. */
  ghost predicate InGroup(g: Geometry, fl: Flash, s: int, id: int, ix: int)
    requires g.Valid()
  {
    0 <= s < |fl.lu| && s < |fl.pages| && fl.lu[s] == id && Covering(g, fl.pages[s]) == ix
  }

  /** Every entry is free. */
  ghost predicate AllFree(lu: seq<int>) {
    forall x :: 0 <= x < |lu| ==> lu[x] == FREE
  }

  /** Data pages outside block `bix` stay where they are. */
  ghost predicate DataStays(g: Geometry, bix: nat, v: seq<int>, w: seq<int>) {
    |w| == |v| && forall x :: 0 <= x < |v| && Live(v[x]) && !IsIndexId(v[x]) && !InBlock(g, bix, x) ==> w[x] == v[x]
  }

  /** Entries are only deleted, or written where they were free, and outside block `bix` no data page is
      deleted; on a medium without entries nothing happens. */
  ghost predicate OnlyFills(g: Geometry, bix: nat, v: Flash, w: Flash) {
    && SameSize(v, w) && (AllFree(v.lu) ==> w == v) && w.counts == v.counts && DataStays(g, bix, v.lu, w.lu)
    && (forall x :: 0 <= x < |v.lu| && v.lu[x] != FREE ==> w.lu[x] == DELETED || (w.lu[x] == v.lu[x] && w.pages[x] == v.pages[x]))
  }

  /** If the free cursor is inside block `bix`, the page allocated last is still there. */
  ghost predicate CursorBacked(g: Geometry, fl: Flash, bix: nat, cb: nat, ce: nat, ixOnly: bool) {
    cb == bix && ce > 0 ==>
      && g.BlockStart(bix) + ce <= |fl.lu| == |fl.pages|
      && Live(fl.lu[g.BlockStart(bix) + ce - 1])
      && fl.pages[g.BlockStart(bix) + ce - 1].flags.delet
      && (ixOnly ==> IsIndexId(fl.lu[g.BlockStart(bix) + ce - 1]))
  }

  /** A page move, seen with the index page of the work buffer in place. */
  lemma MoveChanges(fl: Flash, t: int, body: Body, s: int, f: int, page: Page, i: int)
    requires |fl.lu| == |fl.pages|
    requires 0 <= t < |fl.lu| && 0 <= s < |fl.lu| && 0 <= f < |fl.lu| && s != t && f != t
    requires Live(fl.lu[s]) && fl.lu[f] == FREE && page.span == fl.pages[s].span
    requires (body.Header? || body.Index?) && 0 <= i < |body.refs|
    ensures Changed(Patch(fl, t, body), Patch(Moved(fl, s, f, fl.lu[s], page), t, PutRef(body, i, f)), f, KeyAt(fl, s), s, t, i)
  {
  }

  lemma InDirectory(g: Geometry, fl: Flash, dir: Dir, t: int, body: Body, s: int)
    requires Shaped(g, fl) && 0 <= t < |fl.lu| && 0 <= s < |fl.lu|
    requires Linked(g, Patch(fl, t, body), dir)
    requires Live(fl.lu[s]) && !IsIndexId(fl.lu[s])
    requires fl.lu[t] == IndexId(fl.lu[s]) && fl.pages[t].span == Covering(g, fl.pages[s])
    ensures
      var v, k, i := Patch(fl, t, body), KeyAt(fl, s), IxEntry(g, SpanOf(fl.pages[s]));
      && s != t && v.pages[s] == fl.pages[s] && KeyAt(v, s) == k
      && k in dir && dir[k] == s && RefPlace(g, v, dir, k, t, i)
      && (body.Header? || body.Index?) && 0 <= i < |body.refs|
      && GoodPage(g, k.id, fl.pages[s]) && fl.lu[t] != FREE
  {
    hide DataReferred;
    hide RefsLead;
    var v := Patch(fl, t, body);
    assert KeyAt(v, t) == IndexKey(g, KeyAt(fl, s));
    assert GoodPage(g, v.lu[t], v.pages[t]) && GoodPage(g, v.lu[s], v.pages[s]);
  }

  /** The data page of slot `s` was copied to `f`, and the index page in the work buffer follows. */
  lemma DataMoveStep(g: Geometry, fl: Flash, dir: Dir, t: int, body: Body, s: int, f: int)
    requires Shaped(g, fl) && 0 <= t < |fl.lu| && 0 <= s < |fl.lu| && 0 <= f < |fl.lu|
    requires Linked(g, Patch(fl, t, body), dir)
    requires Live(fl.lu[s]) && !IsIndexId(fl.lu[s]) && fl.lu[f] == FREE
    requires fl.lu[t] == IndexId(fl.lu[s]) && fl.pages[t].span == Covering(g, fl.pages[s])
    ensures
      var k := KeyAt(fl, s);
      var w := Patch(Moved(fl, s, f, fl.lu[s], fl.pages[s]), t, PutRef(body, IxEntry(g, SpanOf(fl.pages[s])), f));
      && Linked(g, w, dir[k := f])
      && Meaning(w, dir[k := f]) == Meaning(Patch(fl, t, body), dir)
      && k in dir
  {
    hide Linked;
    var v, k, i := Patch(fl, t, body), KeyAt(fl, s), IxEntry(g, SpanOf(fl.pages[s]));
    InDirectory(g, fl, dir, t, body, s);
    MoveChanges(fl, t, body, s, f, fl.pages[s], i);
    var w := Patch(Moved(fl, s, f, fl.lu[s], fl.pages[s]), t, PutRef(body, i, f));
    PutData(g, v, w, dir, f, k, s, t, i);
    assert Meaning(v, dir)[k] == fl.pages[s].body;
  }

  /** Index page `t`, as the work buffer has it, was stored to `f`, with its header fields
      possibly changed. */
  lemma IndexMoveStep(g: Geometry, fl: Flash, dir: Dir, t: int, body: Body, f: int, page: Page)
    requires Shaped(g, fl) && 0 <= t < |fl.lu| && 0 <= f < |fl.lu|
    requires Linked(g, Patch(fl, t, body), dir)
    requires Live(fl.lu[t]) && IsIndexId(fl.lu[t]) && fl.lu[f] == FREE
    requires GoodPage(g, fl.lu[t], page) && page.span == fl.pages[t].span && RefsOf(page.body) == RefsOf(body)
    ensures
      var k, w := KeyAt(fl, t), Moved(fl, t, f, fl.lu[t], page);
      && k in dir && dir[k] == t
      && Linked(g, w, dir[k := f])
      && Meaning(w, dir[k := f]) == Meaning(Patch(fl, t, body), dir)[k := Strip(page.body)]
  {
    var v, k := Patch(fl, t, body), KeyAt(fl, t);
    var w := Moved(fl, t, f, fl.lu[t], page);
    assert KeyAt(v, t) == k && k in dir && dir[k] == t by {
      hide RefsLead;
      hide DataReferred;
    }
    assert Changed(v, w, f, k, t, NONE, 0);
    assert k.span == 0 || Key(k.id, 0) in dir;
    PutIndex(g, v, w, dir, f, k, t);
  }

  /** Descriptors stay in step when an index page moves and they are told. */
  lemma EventKeeps(m: map<Key, Body>, m': map<Key, Body>, dir: Dir, fds: seq<Fd>, fds': seq<Fd>, ev: IxEvent, k: Key, id: int, f: int, size: int)
    requires FdsOk(m, dir, fds) && |fds| == |fds'| && ev != IxDeleted
    requires IsIndexId(k.id) && -IX_FLAG < k.id && (id == k.id || id == ObjectId(k.id))
    requires forall i :: 0 <= i < |fds| ==> fds'[i] == EventFd(fds[i], ev, id, k.span, f, size)
    requires forall q :: q in m && q != k ==> q in m' && m'[q] == m[q]
    requires k.span == 0 ==> k in m && k in m' && m[k].Header? && m'[k].Header?
    requires k.span == 0 ==> if size == 0 then Length(m'[k].size) == Length(m[k].size) else Length(m'[k].size) == Length(size)
    ensures FdsOk(m', dir[k := f], fds') && SameOpen(fds, fds')
  {
    hide EventFd;
    forall i | 0 <= i < |fds'|
      ensures FdOk(m', dir[k := f], fds'[i])
      ensures fds'[i].fileNbr == fds[i].fileNbr && fds'[i].objId == fds[i].objId && fds'[i].score == fds[i].score && fds'[i].position <= fds[i].position
      ensures fds[i].pending.None? ==> fds'[i].pending.None?
    {
      EventFields(fds[i], ev, id, k.span, f, size);
      assert FdOk(m, dir, fds[i]);
    }
  }

  /** Where the pages of block `bix` that are data of object `id` under index page `ix` are. */
  ghost predicate NoneInGroup(g: Geometry, fl: Flash, lo: int, hi: int, id: int, ix: int)
    requires g.Valid()
  {
    forall x :: lo <= x < hi ==> !InGroup(g, fl, x, id, ix)
  }

  lemma StillNone(g: Geometry, v: Flash, w: Flash, lo: int, hi: int, id: int, ix: int)
    requires g.Valid() && SameSize(v, w) && NoneInGroup(g, v, lo, hi, id, ix) && 0 <= lo <= hi <= |v.lu|
    requires forall x :: lo <= x < hi ==> w.lu[x] == v.lu[x] && w.pages[x] == v.pages[x]
    ensures NoneInGroup(g, w, lo, hi, id, ix)
  {
    forall x | lo <= x < hi
      ensures !InGroup(g, w, x, id, ix)
    {
      assert !InGroup(g, v, x, id, ix);
    }
  }

  /** A page move while block `bix` is being emptied. */
  method Evacuate(fs: Spiffs, bix: nat, data: Option<Page>, id: int, src: nat)
    returns (res: Status, dst: nat)
    requires fs.Valid() && fs.cleaning && bix < fs.g.blocks && src < fs.g.Total()
    requires Live(id) && IsWord(id) && Live(fs.flash.lu[src])
    modifies fs`flash, fs`log, fs`freeBlocks, fs`maxEraseCount, fs`pagesDeleted, fs`pagesAllocated
    modifies fs`freeCursorBlock, fs`freeCursorEntry
    ensures Inner(res) && fs.maxEraseCount == old(fs.maxEraseCount)
    ensures fs.Valid() && fs.Drift() == old(fs.Drift())
    ensures res != OK ==> fs.flash == old(fs.flash)
    ensures res == OK ==>
      && dst < fs.g.Total() && old(fs.flash).lu[dst] == FREE
      && fs.flash == Moved(old(fs.flash), src, dst, id, MovedPage(old(fs.flash), data, src))
    ensures res == OK && MovedPage(old(fs.flash), data, src).flags.delet ==>
      forall b: nat, ixOnly :: b < fs.g.blocks && (ixOnly ==> IsIndexId(id)) ==> CursorBacked(fs.g, fs.flash, b, fs.freeCursorBlock, fs.freeCursorEntry, ixOnly)
    ensures res == OK && InBlock(fs.g, bix, dst) ==> forall s :: InBlock(fs.g, bix, s) && 0 <= s < fs.g.Total() && old(fs.flash).lu[s] != FREE ==> s < dst
    ensures (exists t: nat :: t < fs.g.Total() && old(fs.flash).lu[t] == FREE) ==> res == OK
    ensures res == OK ==> forall t: nat :: t < fs.g.Total() && Before(StartSlot(fs.g, old(fs.freeCursorBlock), old(fs.freeCursorEntry)), t, dst) ==> old(fs.flash).lu[t] != FREE
    ensures res == OK ==> 0 < fs.freeCursorEntry <= fs.g.n && dst == fs.g.BlockStart(fs.freeCursorBlock) + fs.freeCursorEntry - 1
  {
    hide All;
    hide FreeBlocks;
    hide ErasedFree;
    hide DeadMarked;
    hide PageMoveOps;
    hide Before;
    hide StartSlot;
    hide Geometry.Total;
    hide Geometry.BlockStart;
    ghost var mid;
    res, dst, mid := fs.PageMove(data, id, src);
  }

  /** Data pages of object `o` under index page `ix`, in slot `t`, are on the move: the medium is
      consistent as seen through the buffer, means the same, and the slack is what it was. */
  ghost predicate Moving(g: Geometry, bix: nat, o: int, ix: nat, t: nat, v: Flash, body0: Body, dir0: Dir, w: Flash, body: Body, dir: Dir)
    requires g.Valid() && t < |v.pages|
  {
    && t < |w.pages|
    && Linked(g, Patch(w, t, body), dir)
    && Meaning(Patch(w, t, body), dir) == Meaning(Patch(v, t, body0), dir0)
    && (forall k :: k in dir0 && !(k.id == o && IxSpan(g, if k.span < 0 then 0 else k.span) == ix) ==> k in dir && dir[k] == dir0[k])
    && SlackOf(g, bix, w.lu, dir, {Key(IndexId(o), ix)}) == SlackOf(g, bix, v.lu, dir0, {Key(IndexId(o), ix)})
  }

  /** Moves the data page of slot `s`, or scraps it if its header is marked deleted, and
      updates the index page in the work buffer. */
  method MoveOne(fs: Spiffs, bix: nat, s: nat, objId: int, t: nat, work0: Page, ghost dir0: Dir)
    returns (res: Status, work: Page, ghost dir: Dir)
    requires fs.Valid() && fs.cleaning && bix < fs.g.blocks && InBlock(fs.g, bix, s)
    requires s < fs.g.Total() && t < fs.g.Total() && s != t
    requires Live(objId) && IsWord(objId) && !IsIndexId(objId) && fs.flash.lu[s] == objId && fs.flash.lu[t] == IndexId(objId) && Live(IndexId(objId))
    requires CursorBacked(fs.g, fs.flash, bix, fs.freeCursorBlock, fs.freeCursorEntry, false)
    modifies fs`flash, fs`log, fs`freeBlocks, fs`maxEraseCount, fs`pagesDeleted, fs`pagesAllocated
    modifies fs`freeCursorBlock, fs`freeCursorEntry
    ensures Inner(res) && fs.maxEraseCount == old(fs.maxEraseCount)
    ensures fs.Valid() && fs.Drift() == old(fs.Drift())
    ensures fs.flash.lu[t] == old(fs.flash.lu[t]) && fs.flash.pages[t] == old(fs.flash.pages[t])
    ensures work == work0.(body := work.body)
    ensures OnlyFills(fs.g, bix, old(fs.flash), fs.flash)
    ensures res == OK ==> CursorBacked(fs.g, fs.flash, bix, fs.freeCursorBlock, fs.freeCursorEntry, false)
    ensures res == OK ==> fs.flash.lu[s] == DELETED
    ensures forall x :: fs.g.BlockStart(bix) <= x < s ==> fs.flash.lu[x] == old(fs.flash.lu[x]) && fs.flash.pages[x] == old(fs.flash.pages[x])
    ensures Linked(fs.g, Patch(old(fs.flash), t, work0.body), dir0) && old(fs.flash.pages[t].span == Covering(fs.g, fs.flash.pages[s])) ==>
      && Moving(fs.g, bix, objId, Covering(fs.g, old(fs.flash).pages[s]), t, old(fs.flash), work0.body, dir0, fs.flash, work.body, dir)
      && (res == OK ==> TookFree(old(fs.flash).lu, fs.flash.lu))
    ensures res != OK ==> fs.flash == old(fs.flash) && work == work0 && dir == dir0 && NoneFree(fs.flash.lu)
  {
    hide Inner;
    hide OnlyFills;
    hide CursorBacked;
    hide Moving;
    hide TookFree;
    hide SlackOf;
    hide NoneInGroup;
    hide Before;
    hide StartSlot;
    hide Geometry.Total;
    hide Geometry.BlockStart;
    hide Logged;
    hide FreeSuffix;
    hide CursorOk;
    hide All;
    hide FreeBlocks;
    hide ErasedFree;
    hide DeadMarked;
    hide Linked;
    hide Meaning;
    OkInner();
    work, dir := work0, dir0;
    var g, page := fs.g, fs.flash.pages[s];
    var dst: int := FREE;
    ghost var v := fs.flash;
    ghost var good := Linked(g, Patch(v, t, work0.body), dir0) && v.pages[t].span == Covering(g, page);
    if good {
      MovingStart(g, bix, objId, Covering(g, page), t, v, work0.body, dir0);
      LiveDelet(g, v, t, work0.body, dir0, s);
    }
    if page.flags.delet {
      var to;
      res, to := Evacuate(fs, bix, None, objId, s);
      if res != OK {
        FillsRefl(g, bix, v);
        return;
      }
      dst := to;
      MoveFills(g, bix, v, s, to, objId, page);
      Took(v, s, to, objId, v.pages[s]);
      if good {
        OneMoved(g, bix, v, dir0, t, work0.body, s, to);
        dir := dir0[KeyAt(v, s) := to];
      }
    } else {
      ScrapKeeps(g, v, bix, fs.freeCursorBlock, fs.freeCursorEntry, s);
      fs.PageDelete(s);
      res := OK;
    }
    work := work0.(body := PutRef(work0.body, IxEntry(g, SpanOf(page)), dst));
  }

  /** A data page was moved, and its index page in the work buffer notes it. */
  lemma OneMoved(g: Geometry, bix: nat, v: Flash, dir: Dir, t: nat, body: Body, s: nat, f: nat)
    requires Shaped(g, v) && t < |v.lu| && s < |v.lu| && f < |v.lu| && InBlock(g, bix, s)
    requires Linked(g, Patch(v, t, body), dir) && Live(v.lu[s]) && !IsIndexId(v.lu[s]) && v.lu[f] == FREE
    requires v.lu[t] == IndexId(v.lu[s]) && v.pages[t].span == Covering(g, v.pages[s])
    ensures Moving(g, bix, v.lu[s], Covering(g, v.pages[s]), t, v, body, dir,
              Moved(v, s, f, v.lu[s], v.pages[s]), PutRef(body, IxEntry(g, SpanOf(v.pages[s])), f), dir[KeyAt(v, s) := f])
  {
    hide SlackOf;
    hide Linked;
    hide Meaning;
    hide IxSpan;
    hide IxEntry;
    hide Geometry.Total;
    hide Geometry.BlockStart;
    InDirectory(g, v, dir, t, body, s);
    DataMoveStep(g, v, dir, t, body, s, f);
    DirIds(g, v, t, body, dir);
    DataMoved(g, bix, v.lu, dir, KeyAt(v, s), f);
  }

  lemma Took(v: Flash, s: nat, f: nat, id: int, page: Page)
    requires s < |v.lu| == |v.pages| && f < |v.lu| && v.lu[f] == FREE && Live(v.lu[s]) && Live(id)
    ensures TookFree(v.lu, Moved(v, s, f, id, page).lu)
  {
    assert Moved(v, s, f, id, page).lu[f] != FREE;
  }

  lemma DirIds(g: Geometry, fl: Flash, t: int, body: Body, dir: Dir)
    requires 0 <= t < |fl.pages| && Linked(g, Patch(fl, t, body), dir)
    ensures forall q :: q in dir && !IsIndexId(q.id) ==> q.id <= MAX_ID
  {
    hide RefsLead;
    hide DataReferred;
    hide Headed;
    forall q | q in dir && !IsIndexId(q.id)
      ensures q.id <= MAX_ID
    {
      var v := Patch(fl, t, body);
      assert KeyAt(v, dir[q]) == q && GoodPage(g, v.lu[dir[q]], v.pages[dir[q]]);
    }
  }

  lemma LiveDelet(g: Geometry, fl: Flash, t: int, body: Body, dir: Dir, s: int)
    requires 0 <= t < |fl.pages| && 0 <= s < |fl.lu| && Linked(g, Patch(fl, t, body), dir) && Live(fl.lu[s])
    ensures s < |fl.pages| && fl.pages[s].flags.delet
  {
    hide RefsLead;
    hide DataReferred;
    hide Locates;
    assert GoodPage(g, fl.lu[s], Patch(fl, t, body).pages[s]);
  }

  ghost predicate NoneFree(lu: seq<int>) {
    forall u: nat :: u < |lu| ==> lu[u] != FREE
  }

  /** An entry that was free is not any more. */
  ghost predicate TookFree(lu: seq<int>, lu': seq<int>) {
    exists u: nat :: u < |lu| && u < |lu'| && lu[u] == FREE && lu'[u] != FREE
  }

  lemma TookSome(lu: seq<int>, lu': seq<int>)
    ensures NoneFree(lu) ==> !TookFree(lu, lu')
  {
  }

  /** Moves every data page of object `objId` under index page `ix` out of the block. */
  method MoveData(fs: Spiffs, bix: nat, objId: int, ix: nat, t: nat, work0: Page, ghost dir0: Dir)
    returns (res: Status, work: Page, ghost dir: Dir)
    requires fs.Valid() && fs.cleaning && bix < fs.g.blocks && t < fs.g.Total()
    requires Live(objId) && IsWord(objId) && !IsIndexId(objId) && fs.flash.lu[t] == IndexId(objId) && Live(IndexId(objId))
    requires CursorBacked(fs.g, fs.flash, bix, fs.freeCursorBlock, fs.freeCursorEntry, false)
    modifies fs`flash, fs`log, fs`freeBlocks, fs`maxEraseCount, fs`pagesDeleted, fs`pagesAllocated
    modifies fs`freeCursorBlock, fs`freeCursorEntry
    ensures Inner(res) && fs.maxEraseCount == old(fs.maxEraseCount)
    ensures fs.Valid() && fs.Drift() == old(fs.Drift())
    ensures fs.flash.lu[t] == old(fs.flash.lu[t]) && fs.flash.pages[t] == old(fs.flash.pages[t])
    ensures work == work0.(body := work.body)
    ensures OnlyFills(fs.g, bix, old(fs.flash), fs.flash)
    ensures res == OK ==> CursorBacked(fs.g, fs.flash, bix, fs.freeCursorBlock, fs.freeCursorEntry, false)
    ensures res == OK ==> NoneInGroup(fs.g, fs.flash, fs.g.BlockStart(bix), fs.g.BlockStart(bix) + fs.g.n, objId, ix)
    ensures Linked(fs.g, Patch(old(fs.flash), t, work0.body), dir0) && old(fs.flash.pages[t].span) == ix ==>
      && Moving(fs.g, bix, objId, ix, t, old(fs.flash), work0.body, dir0, fs.flash, work.body, dir)
      && (!NoneInGroup(fs.g, old(fs.flash), fs.g.BlockStart(bix), fs.g.BlockStart(bix) + fs.g.n, objId, ix) && !NoneFree(old(fs.flash).lu) ==>
           Began(fs.g, old(fs.flash), fs.flash, objId, ix))
      && (NoneFree(old(fs.flash).lu) ==> fs.flash == old(fs.flash) && work == work0 && dir == dir0)
    ensures res != OK ==> NoneFree(fs.flash.lu)
  {
    hide Inner;
    hide SoFar;
    hide NoneFree;
    hide TookFree;
    hide Moving;
    hide Began;
    hide IxSpan;
    hide InGroup;
    hide OnlyFills;
    hide SlackOf;
    hide Geometry.Total;
    hide Geometry.BlockStart;
    hide Linked;
    hide Meaning;
    hide FreeSuffix;
    hide CursorOk;
    hide All;
    hide FreeBlocks;
    hide ErasedFree;
    hide DeadMarked;
    hide NoneInGroup;
    hide CursorBacked;
    OkInner();
    work, dir, res := work0, dir0, OK;
    var g, entry := fs.g, 0;
    BlockFits(g, bix);
    var lo := g.BlockStart(bix);
    ghost var v := fs.flash;
    FillsRefl(fs.g, bix, v);
    NoneYet(g, v, lo, objId, ix);
    SoFarStart(g, bix, objId, ix, t, v, work0.body, dir0, lo, lo + g.n);
    while entry < g.n
      invariant entry <= g.n && res == OK
      invariant fs.Valid() && fs.Drift() == old(fs.Drift())
      invariant fs.flash.lu[t] == old(fs.flash.lu[t]) && fs.flash.pages[t] == old(fs.flash.pages[t])
      invariant work == work0.(body := work.body)
      invariant OnlyFills(fs.g, bix, old(fs.flash), fs.flash) && fs.maxEraseCount == old(fs.maxEraseCount)
      invariant CursorBacked(g, fs.flash, bix, fs.freeCursorBlock, fs.freeCursorEntry, false)
      invariant NoneInGroup(g, fs.flash, lo, lo + entry, objId, ix)
      invariant SoFar(g, bix, objId, ix, t, v, work0.body, dir0, fs.flash, work.body, dir, lo, lo + entry, lo + g.n)
    {
      var s := lo + entry;
      GroupMember(g, fs.flash, s, objId, ix);
      if fs.flash.lu[s] == objId && Covering(g, fs.flash.pages[s]) == ix {
        ghost var before, body, dir1 := fs.flash, work.body, dir;
        res, work, dir := MoveOne(fs, bix, s, objId, t, work, dir);
        SoFarMoved(g, bix, objId, ix, t, v, work0.body, dir0, before, body, dir1, fs.flash, work.body, dir, lo, s, lo + g.n, res == OK);
        if res != OK {
          SoFarEnd(g, bix, objId, ix, t, v, work0.body, dir0, fs.flash, work.body, dir, lo, s, lo + g.n);
          return;
        }
        GroupMember(g, fs.flash, s, objId, ix);
        FillsTransitive(fs.g, bix, v, before, fs.flash);
        StillNone(g, before, fs.flash, lo, s, objId, ix);
      } else {
        SoFarSkipped(g, bix, objId, ix, t, v, work0.body, dir0, fs.flash, work.body, dir, lo, s, lo + g.n);
      }
      NoneMore(g, fs.flash, lo, lo + g.n, s, objId, ix);
      entry := entry + 1;
    }
    SoFarEnd(g, bix, objId, ix, t, v, work0.body, dir0, fs.flash, work.body, dir, lo, lo + g.n, lo + g.n);
  }

  /** How far a medium that was consistent with the index page in the work buffer has come when the
      entries in front of `at` have been seen to. */
  ghost predicate SoFar(g: Geometry, bix: nat, o: int, ix: nat, t: nat, v: Flash, body0: Body, dir0: Dir, w: Flash, body: Body, dir: Dir, lo: int, at: int, hi: int)
    requires g.Valid() && t < |v.pages|
  {
    Linked(g, Patch(v, t, body0), dir0) && v.pages[t].span == ix ==>
      && Moving(g, bix, o, ix, t, v, body0, dir0, w, body, dir)
      && (NoneFree(v.lu) ==> w == v && body == body0 && dir == dir0)
      && (!NoneInGroup(g, v, lo, hi, o, ix) && !NoneFree(v.lu) ==> Began(g, v, w, o, ix) || (w == v && !NoneInGroup(g, v, at, hi, o, ix)))
  }

  lemma SoFarStart(g: Geometry, bix: nat, o: int, ix: nat, t: nat, v: Flash, body0: Body, dir0: Dir, lo: int, hi: int)
    requires g.Valid() && t < |v.pages|
    ensures SoFar(g, bix, o, ix, t, v, body0, dir0, v, body0, dir0, lo, lo, hi)
  {
    hide Linked;
    hide Moving;
    hide NoneInGroup;
    if Linked(g, Patch(v, t, body0), dir0) {
      MovingStart(g, bix, o, ix, t, v, body0, dir0);
    }
  }

  lemma SoFarMoved(g: Geometry, bix: nat, o: int, ix: nat, t: nat, v: Flash, body0: Body, dir0: Dir, before: Flash, body1: Body, dir1: Dir, w: Flash, body: Body, dir: Dir, lo: int, s: int, hi: int, ok: bool)
    requires g.Valid() && t < |v.pages| && t < |before.pages| && t < |w.pages| && before.pages[t] == v.pages[t] && o != DELETED
    requires SoFar(g, bix, o, ix, t, v, body0, dir0, before, body1, dir1, lo, s, hi)
    requires OnlyFills(g, bix, v, before) && OnlyFills(g, bix, before, w) && InGroup(g, before, s, o, ix) && 0 <= s < |w.lu|
    requires Linked(g, Patch(before, t, body1), dir1) && before.pages[t].span == ix ==>
      Moving(g, bix, o, ix, t, before, body1, dir1, w, body, dir) && (ok ==> TookFree(before.lu, w.lu))
    requires if ok then w.lu[s] == DELETED else w == before && body == body1 && dir == dir1
    ensures SoFar(g, bix, o, ix, t, v, body0, dir0, w, body, dir, lo, if ok then s + 1 else s, hi)
  {
    hide Linked;
    hide Moving;
    hide NoneInGroup;
    hide Began;
    hide InGroup;
    hide OnlyFills;
    hide TookFree;
    hide NoneFree;
    if ok && Linked(g, Patch(v, t, body0), dir0) && v.pages[t].span == ix {
      MovingLinked(g, bix, o, ix, t, v, body0, dir0, before, body1, dir1);
      MovingOn(g, bix, o, ix, t, v, body0, dir0, before, body1, dir1, w, body, dir);
      TookSome(before.lu, w.lu);
      if !NoneInGroup(g, v, lo, hi, o, ix) && !NoneFree(v.lu) {
        BeganNow(g, bix, v, before, w, s, o, ix);
      }
    }
  }

  lemma SoFarSkipped(g: Geometry, bix: nat, o: int, ix: nat, t: nat, v: Flash, body0: Body, dir0: Dir, w: Flash, body: Body, dir: Dir, lo: int, s: int, hi: int)
    requires g.Valid() && t < |v.pages| && s < hi && !InGroup(g, w, s, o, ix)
    requires SoFar(g, bix, o, ix, t, v, body0, dir0, w, body, dir, lo, s, hi)
    ensures SoFar(g, bix, o, ix, t, v, body0, dir0, w, body, dir, lo, s + 1, hi)
  {
    hide Linked;
    hide Moving;
    hide NoneInGroup;
    hide Began;
    hide InGroup;
    hide NoneFree;
    NoneMore(g, w, s, hi, s, o, ix);
  }

  lemma SoFarEnd(g: Geometry, bix: nat, o: int, ix: nat, t: nat, v: Flash, body0: Body, dir0: Dir, w: Flash, body: Body, dir: Dir, lo: int, at: int, hi: int)
    requires g.Valid() && t < |v.pages| && SoFar(g, bix, o, ix, t, v, body0, dir0, w, body, dir, lo, at, hi)
    requires at == hi || NoneFree(w.lu)
    ensures Linked(g, Patch(v, t, body0), dir0) && v.pages[t].span == ix ==>
      && Moving(g, bix, o, ix, t, v, body0, dir0, w, body, dir)
      && (NoneFree(v.lu) ==> w == v && body == body0 && dir == dir0)
      && (!NoneInGroup(g, v, lo, hi, o, ix) && !NoneFree(v.lu) ==> Began(g, v, w, o, ix))
  {
    hide Linked;
    hide Moving;
    hide Began;
    hide InGroup;
    hide NoneFree;
  }

  /** Some page of the group was moved and its old slot deleted, and a free entry taken. */
  ghost predicate Began(g: Geometry, v: Flash, w: Flash, o: int, ix: nat)
    requires g.Valid()
  {
    && (exists s :: InGroup(g, v, s, o, ix) && s < |w.lu| && w.lu[s] == DELETED)
    && TookFree(v.lu, w.lu)
  }

  lemma NoneYet(g: Geometry, fl: Flash, lo: int, id: int, ix: int)
    requires g.Valid()
    ensures NoneInGroup(g, fl, lo, lo, id, ix)
  {
  }

  lemma NoneMore(g: Geometry, fl: Flash, lo: int, hi: int, s: int, id: int, ix: int)
    requires g.Valid() && lo <= s < hi
    ensures NoneInGroup(g, fl, lo, s, id, ix) && !InGroup(g, fl, s, id, ix) ==> NoneInGroup(g, fl, lo, s + 1, id, ix)
    ensures !NoneInGroup(g, fl, s, hi, id, ix) && !InGroup(g, fl, s, id, ix) ==> !NoneInGroup(g, fl, s + 1, hi, id, ix)
  {
    if !NoneInGroup(g, fl, s, hi, id, ix) && !InGroup(g, fl, s, id, ix) {
      var x :| s <= x < hi && InGroup(g, fl, x, id, ix);
      assert s + 1 <= x;
    }
  }

  lemma MovingStart(g: Geometry, bix: nat, o: int, ix: nat, t: nat, v: Flash, body: Body, dir: Dir)
    requires g.Valid() && t < |v.pages| && Linked(g, Patch(v, t, body), dir)
    ensures Moving(g, bix, o, ix, t, v, body, dir, v, body, dir)
  {
    hide Linked;
    hide SlackOf;
  }

  lemma MovingLinked(g: Geometry, bix: nat, o: int, ix: nat, t: nat, v: Flash, body0: Body, dir0: Dir, w: Flash, body: Body, dir: Dir)
    requires g.Valid() && t < |v.pages| && Moving(g, bix, o, ix, t, v, body0, dir0, w, body, dir)
    ensures t < |w.pages| && Linked(g, Patch(w, t, body), dir)
  {
  }

  lemma GroupMember(g: Geometry, fl: Flash, s: nat, o: int, ix: nat)
    requires g.Valid() && s < |fl.lu| == |fl.pages|
    ensures InGroup(g, fl, s, o, ix) <==> fl.lu[s] == o && Covering(g, fl.pages[s]) == ix
  {
  }

  lemma MovingOn(g: Geometry, bix: nat, o: int, ix: nat, t: nat, u: Flash, body0: Body, dir0: Dir, v: Flash, body1: Body, dir1: Dir, w: Flash, body: Body, dir: Dir)
    requires g.Valid() && t < |u.pages| && t < |v.pages| && t < |w.pages| && v.pages[t].span == ix
    requires Moving(g, bix, o, ix, t, u, body0, dir0, v, body1, dir1)
    requires Moving(g, bix, o, ix, t, v, body1, dir1, w, body, dir)
    ensures Moving(g, bix, o, ix, t, u, body0, dir0, w, body, dir)
  {
    hide Linked;
    hide SlackOf;
    hide Meaning;
    hide IxSpan;
  }

  lemma BeganNow(g: Geometry, bix: nat, u: Flash, v: Flash, w: Flash, s: int, o: int, ix: nat)
    requires g.Valid() && OnlyFills(g, bix, u, v) && OnlyFills(g, bix, v, w) && InGroup(g, v, s, o, ix) && w.lu[s] == DELETED && o != DELETED
    requires Began(g, u, v, o, ix) || u == v
    requires TookFree(v.lu, w.lu)
    ensures Began(g, u, w, o, ix)
  {
    if u != v {
      var a :| InGroup(g, u, a, o, ix) && a < |v.lu| && v.lu[a] == DELETED;
      assert w.lu[a] == DELETED;
      var x: nat :| x < |u.lu| && x < |v.lu| && u.lu[x] == FREE && v.lu[x] != FREE;
      assert w.lu[x] != FREE;
    } else {
      assert InGroup(g, u, s, o, ix) && w.lu[s] == DELETED;
    }
  }

  /** No entry of lo..hi is a data page. */
  ghost predicate NoData(fl: Flash, lo: int, hi: int) {
    forall x :: lo <= x < hi && 0 <= x < |fl.lu| ==> !Live(fl.lu[x]) || IsIndexId(fl.lu[x])
  }

  ghost predicate NoLive(fl: Flash, lo: int, hi: int) {
    forall x :: lo <= x < hi && 0 <= x < |fl.lu| ==> !Live(fl.lu[x])
  }

  /** The medium is consistent and the open descriptors agree with it. */
  ghost predicate Consistent(g: Geometry, fl: Flash, dir: Dir, fds: seq<Fd>) {
    Linked(g, fl, dir) && FdsOk(Meaning(fl, dir), dir, fds)
  }

  /** A consistent medium, collected: it is consistent with the same meaning, but for an index page
      that may be lost; the same descriptors are open; and if nothing is lost their users notice
      nothing. */
  ghost predicate Survived(g: Geometry, v: Flash, dir0: Dir, fds0: seq<Fd>, w: Flash, loss: Loss, dir: Dir, fds: seq<Fd>) {
    && RealLoss(w, loss) && Consistent(g, Mended(w, loss), dir, fds)
    && Meaning(Mended(w, loss), dir) == Meaning(v, dir0) && SameOpen(fds0, fds)
    && (Mapless(fds0) ==> Mapless(fds)) && (loss == NoLoss ==> Calm(dir0, fds0, dir, fds))
  }

  lemma SurvivedNone(g: Geometry, v: Flash, dir: Dir, fds: seq<Fd>)
    requires Consistent(g, v, dir, fds)
    ensures Survived(g, v, dir, fds, v, NoLoss, dir, fds)
  {
    hide Consistent;
    CalmRefl(dir, fds);
  }

  lemma SurvivedOn(g: Geometry, u: Flash, dir0: Dir, fds0: seq<Fd>, v: Flash, dir1: Dir, fds1: seq<Fd>, w: Flash, loss: Loss, dir: Dir, fds: seq<Fd>)
    requires Survived(g, u, dir0, fds0, v, NoLoss, dir1, fds1)
    ensures Consistent(g, v, dir1, fds1) && Meaning(v, dir1) == Meaning(u, dir0)
    ensures Survived(g, v, dir1, fds1, w, loss, dir, fds) ==> Survived(g, u, dir0, fds0, w, loss, dir, fds)
  {
    hide Consistent;
    hide RealLoss;
    hide Calm;
    if Survived(g, v, dir1, fds1, w, loss, dir, fds) && loss == NoLoss {
      assert dir1.Keys == Meaning(v, dir1).Keys == dir0.Keys;
      CalmOn(dir0, fds0, dir1, fds1, dir, fds);
    }
  }

  /** The index page `work` of the data page in slot `s` has been loaded, to move its group. */
  ghost predicate Loaded(g: Geometry, fl: Flash, s: int, gc: Gc, work: Page)
    requires g.Valid()
  {
    && |fl.lu| == |fl.pages| && InGroup(g, fl, s, gc.objId, gc.ixSpan)
    && Live(gc.objId) && IsWord(gc.objId) && !IsIndexId(gc.objId)
    && gc.ixPix < |fl.lu| && fl.lu[gc.ixPix] == IndexId(gc.objId) && Live(IndexId(gc.objId))
    && work == fl.pages[gc.ixPix] && work.flags.delet && work.span == gc.ixSpan
  }

  /** Loads the index page that covers the data page of slot `s`. When there is none the data
      page is deleted; `found` tells. */
  method LoadIndex(fs: Spiffs, s: nat, gc0: Gc, ghost dir: Dir)
    returns (res: Status, found: bool, gc: Gc, work: Page)
    requires fs.Valid() && s < fs.g.Total()
    requires Live(gc0.objId) && !IsIndexId(gc0.objId) && fs.flash.lu[s] == gc0.objId
    modifies fs`flash, fs`log, fs`pagesDeleted, fs`pagesAllocated, fs`cursorBlock, fs`cursorEntry
    ensures Inner(res)
    ensures fs.Valid() && fs.Drift() == old(fs.Drift())
    ensures gc == gc0.(ixSpan := gc.ixSpan, ixPix := gc.ixPix)
    ensures !found && res == OK ==> fs.flash == Dropped(old(fs.flash), s)
    ensures found || res != OK ==> fs.flash == old(fs.flash)
    ensures found && res == OK ==> Loaded(fs.g, fs.flash, s, gc, work)
    ensures Consistent(fs.g, old(fs.flash), dir, fs.fds) ==> found && res == OK
  {
    hide FreeSuffix;
    hide CursorOk;
    hide All;
    hide FreeBlocks;
    hide FdsOk;
    var objId, page := gc0.objId, fs.flash.pages[s];
    var ix := Covering(fs.g, page);
    var status, t;
    status, t := fs.FindIdAndSpan(IndexId(objId), ix);
    work := page;
    gc := gc0.(ixSpan := ix, ixPix := t);
    found := status == OK;
    if Linked(fs.g, fs.flash, dir) {
      CoverFound(fs.g, fs.flash, dir, s);
    }
    if !found {
      fs.PageDelete(s);
      res := OK;
      return;
    }
    work := fs.flash.pages[t];
    res := ValidateObjIx(work, IndexId(objId), ix);
    if Linked(fs.g, fs.flash, dir) {
      IndexTrusted(fs.g, fs.flash, dir, t, ix);
    }
  }

  lemma IndexTrusted(g: Geometry, fl: Flash, dir: Dir, t: nat, ix: nat)
    requires Linked(g, fl, dir) && t < |fl.lu| && Live(fl.lu[t]) && IsIndexId(fl.lu[t]) && fl.pages[t].span == ix
    ensures ValidateObjIx(fl.pages[t], fl.lu[t], ix) == OK
  {
    hide RefsLead;
    hide DataReferred;
    hide Locates;
  }

  lemma CoverFound(g: Geometry, fl: Flash, dir: Dir, s: nat)
    requires Linked(g, fl, dir) && s < |fl.lu| && Live(fl.lu[s]) && !IsIndexId(fl.lu[s])
    ensures exists t: nat :: Matches(fl, IndexId(fl.lu[s]), Covering(g, fl.pages[s]), t)
  {
    var k := KeyAt(fl, s);
    assert k in dir && Referred(g, fl, dir, k);
    var x := IndexKey(g, k);
    assert GoodPage(g, fl.lu[s], fl.pages[s]);
    MatchIsFiled(g, fl, dir, x.id, x.span);
    var t: nat := dir[x];
    assert Matches(fl, IndexId(fl.lu[s]), Covering(g, fl.pages[s]), t);
  }

  /** Writes the index page of the work buffer to a new slot and tells the descriptors. */
  method WriteIndex(fs: Spiffs, objId: int, ix: nat, t: nat, work: Page)
    returns (res: Status, dst: nat)
    requires fs.Valid() && fs.cleaning && t < fs.g.Total()
    requires Live(objId) && IsWord(objId) && !IsIndexId(objId) && fs.flash.lu[t] == IndexId(objId) && Live(IndexId(objId))
    requires work.span == ix && work.flags.delet
    modifies fs`flash, fs`log, fs`freeBlocks, fs`maxEraseCount, fs`pagesDeleted, fs`pagesAllocated
    modifies fs`freeCursorBlock, fs`freeCursorEntry, fs`fds
    ensures Inner(res) && fs.maxEraseCount == old(fs.maxEraseCount)
    ensures fs.Valid() && fs.Drift() == old(fs.Drift())
    ensures res != OK ==> fs.flash == old(fs.flash) && fs.fds == old(fs.fds)
    ensures res == OK ==>
      && dst < fs.g.Total() && old(fs.flash).lu[dst] == FREE && dst < |old(fs.flash).pages|
      && fs.flash == Moved(old(fs.flash), t, dst, IndexId(objId), (if ix == 0 then EditHeader(work, None, 0) else work).(flags := AsUsed(work.flags)))
      && |fs.fds| == |old(fs.fds)| && forall i :: 0 <= i < |fs.fds| ==>
           fs.fds[i] == EventFd(old(fs.fds)[i], PageStored(fs.g, ix, work.body), if ix == 0 then IndexId(objId) else objId, work.span, dst, if ix == 0 then HeaderSize(work) else 0)
    ensures forall b: nat {:trigger OnlyFills(fs.g, b, old(fs.flash), fs.flash)} :: OnlyFills(fs.g, b, old(fs.flash), fs.flash)
    ensures res == OK ==> forall b: nat :: b < fs.g.blocks ==> CursorBacked(fs.g, fs.flash, b, fs.freeCursorBlock, fs.freeCursorEntry, true)
    ensures (exists u: nat :: u < fs.g.Total() && old(fs.flash).lu[u] == FREE) && ValidateObjIx(work, IndexId(objId), ix) == OK ==> res == OK
  {
    hide OnlyFills;
    hide Logged;
    hide AllWords;
    hide FreeSuffix;
    hide CursorOk;
    hide All;
    hide FreeBlocks;
    hide ErasedFree;
    hide DeadMarked;
    hide Geometry.Total;
    hide Geometry.BlockStart;
    hide EventFd;
    hide QuickStep;
    hide MoveOps;
    hide PageMoveOps;
    hide Before;
    hide StartSlot;
    hide ValidateObjIx;
    var id := IndexId(objId);
    ghost var mid, v := fs.flash, fs.flash;
    if ix == 0 {
      res, dst, mid := fs.UpdateIndexHdr(None, id, t, Some(work), None, 0);
    } else {
      res, dst, mid := fs.PageMove(Some(work), id, t);
      if res == OK {
        fs.ObjectEvent(PageStored(fs.g, ix, work.body), objId, work.span, dst, 0);
      }
    }
    forall b: nat
      ensures OnlyFills(fs.g, b, v, fs.flash)
    {
      if res == OK {
        MoveFills(fs.g, b, v, t, dst, id, (if ix == 0 then EditHeader(work, None, 0) else work).(flags := AsUsed(work.flags)));
      } else {
        FillsRefl(fs.g, b, v);
      }
    }
  }

  lemma EditNothing(work: Page)
    ensures EditHeader(work, None, 0) == work
  {
  }

  /** Stores the index page of the work buffer and tells the descriptors. */
  method StoreIndex(fs: Spiffs, ghost bix: nat, objId: int, ix: nat, t: nat, work: Page, ghost dir0: Dir)
    returns (res: Status, ghost dir: Dir)
    requires fs.Valid() && fs.cleaning && t < fs.g.Total()
    requires Live(objId) && IsWord(objId) && !IsIndexId(objId) && fs.flash.lu[t] == IndexId(objId) && Live(IndexId(objId))
    requires work.span == ix && work.flags.delet
    modifies fs`flash, fs`log, fs`freeBlocks, fs`maxEraseCount, fs`pagesDeleted, fs`pagesAllocated
    modifies fs`freeCursorBlock, fs`freeCursorEntry, fs`fds
    ensures Inner(res) && fs.maxEraseCount == old(fs.maxEraseCount)
    ensures fs.Valid() && fs.Drift() == old(fs.Drift())
    ensures OnlyFills(fs.g, bix, old(fs.flash), fs.flash)
    ensures res == OK ==> forall b: nat :: b < fs.g.blocks ==> CursorBacked(fs.g, fs.flash, b, fs.freeCursorBlock, fs.freeCursorEntry, true)
    ensures res == OK && Consistent(fs.g, Patch(old(fs.flash), t, work.body), dir0, old(fs.fds)) && work == old(fs.flash).pages[t].(body := work.body) ==>
      && Consistent(fs.g, fs.flash, dir, fs.fds)
      && Meaning(fs.flash, dir) == Meaning(Patch(old(fs.flash), t, work.body), dir0) && SameOpen(old(fs.fds), fs.fds)
    ensures res != OK ==> fs.flash == old(fs.flash) && fs.fds == old(fs.fds) && dir == dir0
    ensures Mapless(old(fs.fds)) ==> Mapless(fs.fds)
    ensures res == OK && Consistent(fs.g, Patch(old(fs.flash), t, work.body), dir0, old(fs.fds)) && work == old(fs.flash).pages[t].(body := work.body) && (exists q :: q in dir0 && q.id == objId) ==>
      && (MapsBut(fs.g, dir0, old(fs.fds), objId, ix) ==> MapsOk(dir, fs.fds))
      && forall i :: 0 <= i < |fs.fds| ==> Untouched(dir0, old(fs.fds)[i], fs.fds[i])
    ensures res == OK ==> exists u: nat :: u < fs.g.Total() && old(fs.flash).lu[u] == FREE
    ensures Linked(fs.g, Patch(old(fs.flash), t, work.body), dir0) && work == old(fs.flash).pages[t].(body := work.body) && NoneUnder(fs.g, bix, dir0, Key(IndexId(objId), ix)) ==>
      var slack := SlackOf(fs.g, bix, old(fs.flash).lu, dir0, {Key(IndexId(objId), ix)});
      if res == OK then SlackOf(fs.g, bix, fs.flash.lu, dir, {}) == slack else slack < 0
  {
    hide Inner;
    hide CursorBacked;
    hide OnlyFills;
    hide SlackOf;
    hide ValidateObjIx;
    hide FreeSuffix;
    hide CursorOk;
    hide All;
    hide FreeBlocks;
    hide ErasedFree;
    hide DeadMarked;
    hide Linked;
    hide Meaning;
    hide FdsOk;
    hide Geometry.Total;
    hide Geometry.BlockStart;
    hide EventFd;
    hide EditHeader;
    OkInner();
    ghost var v := fs.flash;
    dir := dir0;
    EditNothing(work);
    ghost var mine, x := Linked(fs.g, Patch(v, t, work.body), dir0) && work == v.pages[t].(body := work.body), Key(IndexId(objId), ix);
    if mine {
      WorkTrusted(fs.g, v, dir0, t, work);
      RoomForNext(fs.g, bix, v.lu, dir0, {x}, x);
    }
    var dst;
    res, dst := WriteIndex(fs, objId, ix, t, work);
    if res == OK && mine {
      InPlace(fs.g, v, dir0, t, work);
      if NoneUnder(fs.g, bix, dir0, x) {
        IndexMoved(fs.g, bix, v.lu, dir0, x, dst, {x});
      }
      if FdsOk(Meaning(Patch(v, t, work.body), dir0), dir0, old(fs.fds)) {
        IndexStored(fs.g, v, dir0, old(fs.fds), fs.fds, t, work, dst, if ix == 0 then IndexId(objId) else objId, if ix == 0 then HeaderSize(work) else 0);
        if exists q :: q in dir0 && q.id == objId {
          IndexMaps(fs.g, v, dir0, old(fs.fds), fs.fds, t, work, dst, if ix == 0 then IndexId(objId) else objId, if ix == 0 then HeaderSize(work) else 0, objId);
        }
      }
      dir := dir0[x := dst];
    }
    if res == OK {
      MaplessEvent(old(fs.fds), fs.fds, PageStored(fs.g, ix, work.body), if ix == 0 then IndexId(objId) else objId, ix, dst, if ix == 0 then HeaderSize(work) else 0);
    }
  }

  /** No data page in the block is under index page `x`. */
  ghost predicate NoneUnder(g: Geometry, bix: nat, dir: Dir, x: Key)
    requires g.Valid()
  {
    forall q :: q in dir && !IsIndexId(q.id) && InBlock(g, bix, dir[q]) ==> IndexKey(g, q) != x
  }

  lemma GroupGone(g: Geometry, fl: Flash, t: int, body: Body, dir: Dir, bix: nat, o: int, ix: nat)
    requires 0 <= t < |fl.pages| && Linked(g, Patch(fl, t, body), dir) && 1 <= o <= MAX_ID
    requires NoneInGroup(g, fl, g.BlockStart(bix), g.BlockStart(bix) + g.n, o, ix)
    ensures NoneUnder(g, bix, dir, Key(IndexId(o), ix))
  {
    hide RefsLead;
    hide DataReferred;
    hide Headed;
    hide IxSpan;
    var v := Patch(fl, t, body);
    forall q | q in dir && !IsIndexId(q.id) && InBlock(g, bix, dir[q])
      ensures IndexKey(g, q) != Key(IndexId(o), ix)
    {
      assert KeyAt(v, dir[q]) == q && GoodPage(g, v.lu[dir[q]], v.pages[dir[q]]);
      assert !InGroup(g, fl, dir[q], o, ix);
    }
  }

  lemma InPlace(g: Geometry, fl: Flash, dir: Dir, t: int, work: Page)
    requires 0 <= t < |fl.pages| && Linked(g, Patch(fl, t, work.body), dir) && Live(fl.lu[t]) && work == fl.pages[t].(body := work.body)
    ensures KeyAt(fl, t) in dir && dir[KeyAt(fl, t)] == t && KeyAt(fl, t) == Key(fl.lu[t], work.span)
  {
    hide RefsLead;
    hide DataReferred;
    assert KeyAt(Patch(fl, t, work.body), t) == KeyAt(fl, t);
  }

  /** Once a page of the group is gone from its slot, the buffer refers to other pages than the
      stored index page does. */
  lemma OtherRefs(g: Geometry, v: Flash, dir0: Dir, w: Flash, body: Body, dir: Dir, t: nat, o: int, ix: nat)
    requires Linked(g, v, dir0) && t < |v.lu| && v.lu[t] == IndexId(o) && v.pages[t].span == ix && 1 <= o <= MAX_ID
    requires SameSize(v, w) && w.lu[t] == v.lu[t] && w.pages[t] == v.pages[t] && Linked(g, Patch(w, t, body), dir)
    requires Began(g, v, w, o, ix)
    ensures RefsOf(body) != RefsOf(w.pages[t].body)
  {
    hide IxSpan;
    hide IxEntry;
    var s :| InGroup(g, v, s, o, ix) && s < |w.lu| && w.lu[s] == DELETED;
    var k := KeyAt(v, s);
    assert k in dir0 && Referred(g, v, dir0, k) && GoodPage(g, v.lu[s], v.pages[s]);
    var x, i, u := IndexKey(g, k), IxEntry(g, k.span), Patch(w, t, body);
    assert KeyAt(v, t) == x && KeyAt(u, t) == x;
    assert RefAt(v, dir0, x, i) == s;
    assert !RefLeads(g, u, x, i, s);
    assert RefAt(u, dir, x, i) != s;
  }

  /** The index page of the work buffer is on flash and the descriptors know. */
  lemma IndexStored(g: Geometry, fl: Flash, dir: Dir, fds: seq<Fd>, fds': seq<Fd>, t: int, work: Page, f: int, id: int, size: int)
    requires Shaped(g, fl) && 0 <= t < |fl.lu| && 0 <= f < |fl.lu| && Live(fl.lu[t]) && IsIndexId(fl.lu[t]) && fl.lu[f] == FREE
    requires Consistent(g, Patch(fl, t, work.body), dir, fds) && work == fl.pages[t].(body := work.body) && work.span >= 0
    requires id == fl.lu[t] || id == ObjectId(fl.lu[t])
    requires if work.span == 0 then size == HeaderSize(work) else size == 0
    requires |fds'| == |fds| && forall i :: 0 <= i < |fds| ==> fds'[i] == EventFd(fds[i], PageStored(g, work.span, work.body), id, work.span, f, size)
    ensures
      var w, d := Moved(fl, t, f, fl.lu[t], work.(flags := AsUsed(work.flags))), dir[KeyAt(fl, t) := f];
      && Consistent(g, w, d, fds') && Meaning(w, d) == Meaning(Patch(fl, t, work.body), dir) && SameOpen(fds, fds')
  {
    hide Linked;
    hide FdsOk;
    hide EventFd;
    hide GoodPage;
    hide Moved;
    var k, m := KeyAt(fl, t), Meaning(Patch(fl, t, work.body), dir);
    StoredPageGood(g, fl, dir, t, work);
    IndexMoveStep(g, fl, dir, t, work.body, f, work);
    assert m[k := Strip(work.body)] == m;
    StoredSize(m, k, work);
    EventKeeps(m, m, dir, fds, fds', PageStored(g, work.span, work.body), k, id, f, size);
  }

  /** The windows of the object know again where the pages under the stored index page are, and the
      users of its descriptors notice nothing. */
  lemma IndexMaps(g: Geometry, fl: Flash, dir: Dir, fds: seq<Fd>, fds': seq<Fd>, t: int, work: Page, f: int, id: int, size: int, o: int)
    requires Shaped(g, fl) && 0 <= t < |fl.lu| && fl.lu[t] == IndexId(o) && 0 < o < IX_FLAG
    requires Consistent(g, Patch(fl, t, work.body), dir, fds) && work == fl.pages[t].(body := work.body) && work.span >= 0
    requires id == fl.lu[t] || id == ObjectId(fl.lu[t])
    requires if work.span == 0 then size == HeaderSize(work) else size == 0
    requires |fds'| == |fds| && forall i :: 0 <= i < |fds| ==> fds'[i] == EventFd(fds[i], PageStored(g, work.span, work.body), id, work.span, f, size)
    requires exists q :: q in dir && q.id == o
    ensures MapsBut(g, dir, fds, o, work.span) ==> MapsOk(dir[KeyAt(fl, t) := f], fds')
    ensures forall i :: 0 <= i < |fds| ==> Untouched(dir, fds[i], fds'[i])
  {
    hide RefsLead;
    hide DataReferred;
    hide EventFd;
    hide FirstSpan;
    hide MapsBut;
    hide MapsOk;
    var v, x, k: nat := Patch(fl, t, work.body), KeyAt(fl, t), work.span;
    StoredPageGood(g, fl, dir, t, work);
    assert GoodPage(g, fl.lu[t], work) && x == Key(IndexId(o), k) && dir[x] == t;
    LinkedRefs(g, v, dir, o, k);
    assert IxRefs(g, k, work.body) == RefsAt(v, dir, x);
    RefsSame(g, dir, x, f, o, k, IxRefs(g, k, work.body));
    MapsTold(g, dir, dir[x := f], fds, fds', PageStored(g, k, work.body), o, id, k, f, size);
    forall i | 0 <= i < |fds| && k == 0 && size != 0 && ObjectId(fds[i].objId) == o && fds[i].fileNbr != 0 && fds[i].score != 0
      ensures Length(fds[i].size) == Length(size) && !Idle(dir, fds[i])
    {
      assert FdOk(Meaning(v, dir), dir, fds[i]);
      assert Meaning(v, dir)[x] == Strip(work.body);
    }
    UntouchedEvents(dir, fds, fds', PageStored(g, k, work.body), id, k, f, size);
  }

  lemma RefsSame(g: Geometry, dir: Dir, x: Key, f: int, o: int, k: nat, refs: seq<int>)
    requires g.Valid() && RefsOfIx(g, dir, o, k, refs) && IsIndexId(x.id) && 0 < o
    requires forall span: nat :: Key(o, span) in dir ==> dir[Key(o, span)] != NONE
    ensures RefsOfIx(g, dir[x := f], o, k, refs) && SameData(dir, dir[x := f])
    ensures forall span: nat :: Key(o, span) in dir[x := f] ==> dir[x := f][Key(o, span)] != NONE
  {
    hide IxSpan;
    hide IxEntry;
  }

  lemma WorkTrusted(g: Geometry, fl: Flash, dir: Dir, t: int, work: Page)
    requires 0 <= t < |fl.pages| && Linked(g, Patch(fl, t, work.body), dir) && Live(fl.lu[t]) && IsIndexId(fl.lu[t])
    requires work == fl.pages[t].(body := work.body)
    ensures ValidateObjIx(work, fl.lu[t], work.span) == OK
  {
    hide Linked;
    hide Meaning;
    StoredPageGood(g, fl, dir, t, work);
  }

  lemma StoredSize(m: map<Key, Body>, k: Key, work: Page)
    requires k in m && m[k] == Strip(work.body)
    ensures work.body.Header? ==> m[k].Header? && m[k].size == HeaderSize(work)
  {
  }

  lemma StoredPageGood(g: Geometry, fl: Flash, dir: Dir, t: int, work: Page)
    requires 0 <= t < |fl.pages| && Linked(g, Patch(fl, t, work.body), dir) && Live(fl.lu[t]) && IsIndexId(fl.lu[t])
    requires work == fl.pages[t].(body := work.body)
    ensures GoodPage(g, fl.lu[t], work) && work.(flags := AsUsed(work.flags)) == work
    ensures
      var k, m := KeyAt(fl, t), Meaning(Patch(fl, t, work.body), dir);
      k in m && m[k] == Strip(work.body) && k in dir && dir[k] == t && (k.span == 0 ==> work.body.Header?) && -IX_FLAG < k.id
  {
    hide RefsLead;
    hide DataReferred;
    assert KeyAt(Patch(fl, t, work.body), t) == KeyAt(fl, t);
  }

  /** A page marked deleted in its header is deleted in the lookup as well. */
  lemma ScrapKeeps(g: Geometry, v: Flash, bix: nat, cb: nat, ce: nat, s: nat)
    requires Shaped(g, v) && s < |v.lu| && Live(v.lu[s]) && !v.pages[s].flags.delet && CursorBacked(g, v, bix, cb, ce, false) && InBlock(g, bix, s)
    ensures OnlyFills(g, bix, v, Dropped(v, s)) && CursorBacked(g, Dropped(v, s), bix, cb, ce, false)
  {
  }

  lemma MoveFills(g: Geometry, bix: nat, v: Flash, s: nat, f: nat, id: int, page: Page)
    requires s < |v.lu| == |v.pages| && Live(v.lu[s]) && f < |v.lu| && v.lu[f] == FREE
    requires InBlock(g, bix, s) || IsIndexId(v.lu[s])
    ensures OnlyFills(g, bix, v, Moved(v, s, f, id, page))
  {
  }

  // A block of index pages, emptied into the block in front of the cursor.

  /** The block in front of a free cursor that stands at the start of a block or behind the end of one. */
  function Front(g: Geometry, cb: nat, ce: nat): nat {
    if ce < g.n then cb else if cb + 1 < g.blocks then cb + 1 else 0
  }

  /** Block `b` is full of index pages, and the block in front of the cursor is another one and free. */
  ghost predicate Rotates(g: Geometry, lu: seq<int>, cb: nat, ce: nat, b: nat) {
    var a := Front(g, cb, ce);
    && (ce == 0 || ce >= g.n) && cb < g.blocks && a < g.blocks && b < g.blocks && a != b
    && (forall s :: InBlock(g, a, s) && 0 <= s < |lu| ==> lu[s] == FREE)
    && (forall s :: InBlock(g, b, s) && 0 <= s < |lu| ==> Live(lu[s]) && IsIndexId(lu[s]))
  }

  /** The first `e` index pages of block `b` went to block `a`. */
  ghost predicate Rotated(g: Geometry, v: seq<int>, w: seq<int>, a: nat, b: nat, e: nat) {
    && |w| == |v|
    && forall s :: 0 <= s < |v| ==>
         if g.BlockStart(a) <= s < g.BlockStart(a) + e then Live(w[s]) && IsIndexId(w[s])
         else if g.BlockStart(b) <= s < g.BlockStart(b) + e then w[s] == DELETED
         else w[s] == v[s]
  }

  lemma FrontStart(g: Geometry, cb: nat, ce: nat)
    requires g.Valid() && cb < g.blocks && (ce == 0 || ce >= g.n)
    ensures Front(g, cb, ce) < g.blocks && StartSlot(g, cb, ce) == g.BlockStart(Front(g, cb, ce))
  {
    BlockFits(g, 0);
  }

  /** If the entry that the search starts at is free, it is the one that is found. */
  lemma StartFound(lu: seq<int>, start: nat, f: nat)
    requires start < |lu| && f < |lu| && lu[start] == FREE
    requires forall t: nat :: t < |lu| && Before(start, t, f) ==> lu[t] != FREE
    ensures f == start
  {
    assert start != f ==> Before(start, start, f);
  }

  /** A page went from slot `s` to the slot the search starts at, if that was free. */
  ghost predicate StartMoved(g: Geometry, u: seq<int>, w: seq<int>, s: nat, cb: nat, ce: nat, ok: bool, cb': nat, ce': nat) {
    var start := StartSlot(g, cb, ce);
    start < |u| && u[start] == FREE && s < |u| ==>
      && ok && |w| == |u| && 0 < ce' <= g.n && start == g.BlockStart(cb') + ce' - 1
      && forall x :: 0 <= x < |u| ==> w[x] == if x == s then DELETED else if x == start then u[s] else u[x]
  }

  lemma MovedToStart(g: Geometry, v: Flash, s: nat, f: nat, page: Page, cb: nat, ce: nat, cb': nat, ce': nat)
    requires Shaped(g, v) && s < |v.lu| && f < |v.lu| && v.lu[f] == FREE && Live(v.lu[s])
    requires forall t: nat :: t < |v.lu| && Before(StartSlot(g, cb, ce), t, f) ==> v.lu[t] != FREE
    requires 0 < ce' <= g.n && f == g.BlockStart(cb') + ce' - 1
    ensures StartMoved(g, v.lu, Moved(v, s, f, v.lu[s], page).lu, s, cb, ce, true, cb', ce')
  {
    hide StartSlot;
    hide Geometry.BlockStart;
    MovedLookup(v, s, f, v.lu[s], page);
    var start := StartSlot(g, cb, ce);
    if start < |v.lu| && v.lu[start] == FREE {
      StartFound(v.lu, start, f);
    }
  }

  lemma StartTaken(g: Geometry, u: seq<int>, w: seq<int>, s: nat, cb: nat, ce: nat, cb': nat, ce': nat)
    requires forall t: nat :: t < |u| ==> u[t] != FREE
    ensures StartMoved(g, u, w, s, cb, ce, false, cb', ce')
  {
  }

  /** The first `e` index pages of block `b` went to the block that was in front of the cursor, which has
      followed. */
  ghost predicate Rotating(g: Geometry, v: seq<int>, u: seq<int>, cb: nat, ce: nat, b: nat, e: nat, cb': nat, ce': nat) {
    && Rotated(g, v, u, Front(g, cb, ce), b, e)
    && cb' == (if e == 0 then cb else Front(g, cb, ce)) && ce' == (if e == 0 then ce else e)
  }

  /** One more index page was moved. */
  lemma RotateOn(g: Geometry, v: seq<int>, u: seq<int>, w: seq<int>, cb: nat, ce: nat, b: nat, e: nat, cb1: nat, ce1: nat, ok: bool, cb2: nat, ce2: nat)
    requires g.Valid() && |v| == g.Total() && Rotates(g, v, cb, ce, b) && e < g.n
    requires Rotating(g, v, u, cb, ce, b, e, cb1, ce1) && StartMoved(g, u, w, g.BlockStart(b) + e, cb1, ce1, ok, cb2, ce2)
    ensures ok && Rotating(g, v, w, cb, ce, b, e + 1, cb2, ce2)
  {
    hide Geometry.Total;
    hide Geometry.BlockStart;
    hide StartSlot;
    var a := Front(g, cb, ce);
    RotateApart(g, a, b);
    RotateEntries(g, v, u, cb, ce, b, e);
    CursorIs(g, a, e, cb2, ce2);
    assert InBlock(g, b, g.BlockStart(b) + e);
  }

  lemma RotateApart(g: Geometry, a: nat, b: nat)
    requires a != b && g.Valid()
    ensures g.BlockStart(a) + g.n <= g.BlockStart(b) || g.BlockStart(b) + g.n <= g.BlockStart(a)
  {
    if a < b {
      BlocksOrdered(g, a, b);
    } else {
      BlocksOrdered(g, b, a);
    }
  }

  lemma RotateEntries(g: Geometry, v: seq<int>, u: seq<int>, cb: nat, ce: nat, b: nat, e: nat)
    requires g.Valid() && |v| == g.Total() && Rotates(g, v, cb, ce, b) && e < g.n && Rotated(g, v, u, Front(g, cb, ce), b, e)
    ensures var a := Front(g, cb, ce);
      && g.BlockStart(a) + e < |u| && u[g.BlockStart(a) + e] == FREE
      && g.BlockStart(b) + e < |u| && Live(u[g.BlockStart(b) + e]) && IsIndexId(u[g.BlockStart(b) + e])
      && g.BlockStart(a) + e != g.BlockStart(b) + e
      && StartSlot(g, if e == 0 then cb else a, if e == 0 then ce else e) == g.BlockStart(a) + e
  {
    hide Geometry.Total;
    hide Geometry.BlockStart;
    var a := Front(g, cb, ce);
    RotateApart(g, a, b);
    BlockFits(g, a);
    BlockFits(g, b);
    FrontStart(g, cb, ce);
    assert InBlock(g, a, g.BlockStart(a) + e) && InBlock(g, b, g.BlockStart(b) + e);
  }

  /** The block and the entry in front of a slot. */
  lemma CursorIs(g: Geometry, a: nat, e: nat, cb: nat, ce: nat)
    requires g.Valid() && e < g.n && 0 < ce <= g.n && g.BlockStart(a) + e == g.BlockStart(cb) + ce - 1
    ensures cb == a && ce == e + 1
  {
    hide Geometry.BlockStart;
    BlocksApart(g, a, cb, g.BlockStart(a) + e);
  }

  /** Moves one live index page out of the block, or scraps it if its header is marked deleted. */
  method MoveIndex(fs: Spiffs, bix: nat, s: nat, ghost dir0: Dir)
    returns (res: Status, ghost dir: Dir)
    requires fs.Valid() && fs.cleaning && bix < fs.g.blocks && InBlock(fs.g, bix, s) && s < fs.g.Total()
    requires Live(fs.flash.lu[s]) && IsIndexId(fs.flash.lu[s])
    requires CursorBacked(fs.g, fs.flash, bix, fs.freeCursorBlock, fs.freeCursorEntry, false)
    modifies fs`flash, fs`log, fs`freeBlocks, fs`maxEraseCount, fs`pagesDeleted, fs`pagesAllocated
    modifies fs`freeCursorBlock, fs`freeCursorEntry, fs`fds
    ensures Inner(res) && fs.maxEraseCount == old(fs.maxEraseCount) && fs.flash.counts == old(fs.flash).counts
    ensures Consistent(fs.g, old(fs.flash), dir0, old(fs.fds)) ==>
      StartMoved(fs.g, old(fs.flash).lu, fs.flash.lu, s, old(fs.freeCursorBlock), old(fs.freeCursorEntry), res == OK, fs.freeCursorBlock, fs.freeCursorEntry)
    ensures fs.Valid() && fs.Drift() == old(fs.Drift())
    ensures OnlyFills(fs.g, bix, old(fs.flash), fs.flash)
    ensures res == OK ==> CursorBacked(fs.g, fs.flash, bix, fs.freeCursorBlock, fs.freeCursorEntry, false)
    ensures res == OK ==> fs.flash.lu[s] == DELETED
    ensures forall x :: fs.g.BlockStart(bix) <= x < s ==> fs.flash.lu[x] == old(fs.flash.lu[x])
    ensures forall x :: 0 <= x < fs.g.Total() && old(fs.flash).lu[x] == FREE ==> fs.flash.lu[x] == FREE || IsIndexId(fs.flash.lu[x])
    ensures Consistent(fs.g, old(fs.flash), dir0, old(fs.fds)) ==> Survived(fs.g, old(fs.flash), dir0, old(fs.fds), fs.flash, NoLoss, dir, fs.fds)
    ensures Consistent(fs.g, old(fs.flash), dir0, old(fs.fds)) && NoData(old(fs.flash), fs.g.BlockStart(bix), fs.g.BlockStart(bix) + fs.g.n) ==>
      var slack := SlackOf(fs.g, bix, old(fs.flash).lu, dir0, {});
      SlackOf(fs.g, bix, fs.flash.lu, dir, {}) == slack && (res != OK ==> slack < 0)
  {
    hide Inner;
    hide Survived;
    hide SlackOf;
    hide CursorBacked;
    hide OnlyFills;
    hide FreeSuffix;
    hide CursorOk;
    hide All;
    hide FreeBlocks;
    hide ErasedFree;
    hide DeadMarked;
    hide Linked;
    hide Meaning;
    hide FdsOk;
    hide Geometry.Total;
    hide Geometry.BlockStart;
    hide EventFd;
    hide GoodPage;
    hide Before;
    hide StartSlot;
    hide StartMoved;
    OkInner();
    ghost var v := fs.flash;
    var page, id := fs.flash.pages[s], fs.flash.lu[s];
    BlockFits(fs.g, bix);
    FillsRefl(fs.g, bix, v);
    dir := dir0;
    if Linked(fs.g, v, dir0) {
      assert Patch(v, s, page.body) == v;
      StoredPageGood(fs.g, v, dir0, s, page);
      LiveFlags(fs.g, id, page);
    }
    if Consistent(fs.g, v, dir0, fs.fds) {
      ghost var k := KeyAt(v, s);
      SurvivedNone(fs.g, v, dir0, fs.fds);
      assert k in ToWrite(fs.g, bix, dir0) + {};
      RoomForNext(fs.g, bix, v.lu, dir0, {}, k);
    }
    if page.flags.delet {
      var dst;
      res, dst := Evacuate(fs, bix, None, id, s);
      if res != OK {
        StartTaken(fs.g, v.lu, v.lu, s, old(fs.freeCursorBlock), old(fs.freeCursorEntry), fs.freeCursorBlock, fs.freeCursorEntry);
        return;
      }
      MoveFills(fs.g, bix, v, s, dst, id, page);
      MovedToStart(fs.g, v, s, dst, page, old(fs.freeCursorBlock), old(fs.freeCursorEntry), fs.freeCursorBlock, fs.freeCursorEntry);
      fs.ObjectEvent(IxMoved, id, page.span, dst, 0);
      if Consistent(fs.g, v, dir0, old(fs.fds)) {
        IndexShifted(fs.g, v, dir0, old(fs.fds), fs.fds, bix, s, dst);
        dir := dir0[KeyAt(v, s) := dst];
      }
    } else {
      ScrapKeeps(fs.g, v, bix, fs.freeCursorBlock, fs.freeCursorEntry, s);
      fs.PageDelete(s);
      fs.ObjectEvent(IxDeleted, id, page.span, s, 0);
      res := OK;
    }
  }

  /** A live index page went to another slot as it is, and the descriptors were told. */
  lemma IndexShifted(g: Geometry, v: Flash, dir: Dir, fds: seq<Fd>, fds': seq<Fd>, bix: nat, s: nat, f: nat)
    requires Shaped(g, v) && Consistent(g, v, dir, fds) && s < |v.lu| && f < |v.lu| && v.lu[f] == FREE && Live(v.lu[s]) && IsIndexId(v.lu[s]) && InBlock(g, bix, s)
    requires |fds'| == |fds| && forall i :: 0 <= i < |fds| ==> fds'[i] == EventFd(fds[i], IxMoved, v.lu[s], v.pages[s].span, f, 0)
    ensures var w, d := Moved(v, s, f, v.lu[s], v.pages[s]), dir[KeyAt(v, s) := f];
      && Survived(g, v, dir, fds, w, NoLoss, d, fds')
      && (NoData(v, g.BlockStart(bix), g.BlockStart(bix) + g.n) ==> SlackOf(g, bix, w.lu, d, {}) == SlackOf(g, bix, v.lu, dir, {}))
  {
    hide Linked;
    hide FdsOk;
    hide EventFd;
    hide SlackOf;
    hide NoData;
    hide Geometry.BlockStart;
    hide Untouched;
    hide MapsOk;
    hide Mapless;
    var page, k, m := v.pages[s], KeyAt(v, s), Meaning(v, dir);
    assert Patch(v, s, page.body) == v;
    StoredPageGood(g, v, dir, s, page);
    LiveFlags(g, v.lu[s], page);
    IndexMoveStep(g, v, dir, s, page.body, f, page);
    assert m[k := Strip(page.body)] == m;
    var w, d := Moved(v, s, f, v.lu[s], page), dir[k := f];
    EventKeeps(m, m, dir, fds, fds', IxMoved, k, v.lu[s], f, 0);
    assert SameData(dir, d);
    MapsUntold(dir, d, fds, fds', IxMoved, v.lu[s], page.span, f, 0);
    UntouchedEvents(dir, fds, fds', IxMoved, v.lu[s], page.span, f, 0);
    NoLossYet(w);
    if NoData(v, g.BlockStart(bix), g.BlockStart(bix) + g.n) {
      NoDataUnder(g, v, dir, bix, k);
      IndexMoved(g, bix, v.lu, dir, k, f, {});
    }
  }

  lemma NoDataUnder(g: Geometry, fl: Flash, dir: Dir, bix: nat, x: Key)
    requires Linked(g, fl, dir) && NoData(fl, g.BlockStart(bix), g.BlockStart(bix) + g.n)
    ensures NoneUnder(g, bix, dir, x)
  {
    hide RefsLead;
    hide DataReferred;
    hide Headed;
    forall q | q in dir && !IsIndexId(q.id)
      ensures !InBlock(g, bix, dir[q])
    {
      assert KeyAt(fl, dir[q]) == q;
    }
  }

  lemma LiveFlags(g: Geometry, id: int, page: Page)
    requires GoodPage(g, id, page)
    ensures page.flags.delet && id > -IX_FLAG
  {
  }

  /** One more entry of the block is dealt with. */
  lemma EntryDone(g: Geometry, bix: nat, u: Flash, w: Flash, lo: nat, s: nat, hi: nat)
    requires OnlyFills(g, bix, u, w) && NoData(u, lo, hi) && NoLive(u, lo, s) && lo <= s < |w.lu| == |u.lu|
    requires w != u ==> w.lu[s] == DELETED
    requires w == u ==> !Live(u.lu[s]) || !IsIndexId(u.lu[s])
    requires forall x :: lo <= x < s ==> w.lu[x] == u.lu[x]
    requires forall x :: 0 <= x < |u.lu| && u.lu[x] == FREE ==> w.lu[x] == FREE || IsIndexId(w.lu[x])
    ensures s < hi ==> NoData(w, lo, hi) && NoLive(w, lo, s + 1)
  {
  }

  lemma NoEntries(fl: Flash, lo: nat)
    ensures NoLive(fl, lo, lo)
  {
  }

  lemma RotatedNone(g: Geometry, v: seq<int>, cb: nat, ce: nat, b: nat)
    ensures Rotating(g, v, v, cb, ce, b, 0, cb, ce)
  {
  }

  lemma RotatingEntry(g: Geometry, v: seq<int>, u: seq<int>, cb: nat, ce: nat, b: nat, e: nat, cb': nat, ce': nat)
    requires g.Valid() && |v| == g.Total() && Rotates(g, v, cb, ce, b) && e < g.n && Rotating(g, v, u, cb, ce, b, e, cb', ce')
    ensures g.BlockStart(b) + e < |u| && Live(u[g.BlockStart(b) + e]) && IsIndexId(u[g.BlockStart(b) + e])
  {
    RotateEntries(g, v, u, cb, ce, b, e);
  }

  lemma RotatingDone(g: Geometry, v: seq<int>, u: seq<int>, cb: nat, ce: nat, b: nat, cb': nat, ce': nat)
    requires g.n > 0 && Rotating(g, v, u, cb, ce, b, g.n, cb', ce')
    ensures Rotated(g, v, u, Front(g, cb, ce), b, g.n) && cb' == Front(g, cb, ce) && ce' == g.n
  {
  }

  /** Moves every index page left in the block out of it. */
  method MoveIndexes(fs: Spiffs, bix: nat, ghost dir0: Dir)
    returns (res: Status, ghost dir: Dir)
    requires fs.Valid() && fs.cleaning && bix < fs.g.blocks
    requires CursorBacked(fs.g, fs.flash, bix, fs.freeCursorBlock, fs.freeCursorEntry, false)
    requires NoData(fs.flash, fs.g.BlockStart(bix), fs.g.BlockStart(bix) + fs.g.n)
    modifies fs`flash, fs`log, fs`freeBlocks, fs`maxEraseCount, fs`pagesDeleted, fs`pagesAllocated
    modifies fs`freeCursorBlock, fs`freeCursorEntry, fs`fds
    ensures Inner(res) && fs.maxEraseCount == old(fs.maxEraseCount) && fs.flash.counts == old(fs.flash).counts
    ensures Consistent(fs.g, old(fs.flash), dir0, old(fs.fds)) && Rotates(fs.g, old(fs.flash).lu, old(fs.freeCursorBlock), old(fs.freeCursorEntry), bix) ==>
      var a := Front(fs.g, old(fs.freeCursorBlock), old(fs.freeCursorEntry));
      && res == OK && Rotated(fs.g, old(fs.flash).lu, fs.flash.lu, a, bix, fs.g.n) && fs.freeCursorBlock == a && fs.freeCursorEntry == fs.g.n
    ensures fs.Valid() && fs.Drift() == old(fs.Drift())
    ensures OnlyFills(fs.g, bix, old(fs.flash), fs.flash)
    ensures res == OK ==> CursorBacked(fs.g, fs.flash, bix, fs.freeCursorBlock, fs.freeCursorEntry, false)
    ensures res == OK ==> NoLive(fs.flash, fs.g.BlockStart(bix), fs.g.BlockStart(bix) + fs.g.n)
    ensures Consistent(fs.g, old(fs.flash), dir0, old(fs.fds)) ==>
      && Survived(fs.g, old(fs.flash), dir0, old(fs.fds), fs.flash, NoLoss, dir, fs.fds)
      && SlackOf(fs.g, bix, fs.flash.lu, dir, {}) == SlackOf(fs.g, bix, old(fs.flash).lu, dir0, {})
      && (res != OK ==> SlackOf(fs.g, bix, old(fs.flash).lu, dir0, {}) < 0)
  {
    hide Inner;
    hide SlackOf;
    hide FreeSuffix;
    hide CursorOk;
    hide All;
    hide FreeBlocks;
    hide ErasedFree;
    hide DeadMarked;
    hide Consistent;
    hide Survived;
    hide Meaning;
    hide CursorBacked;
    hide StartSlot;
    hide Rotated;
    hide Rotates;
    hide Rotating;
    hide StartMoved;
    hide Front;
    hide OnlyFills;
    hide NoData;
    hide NoLive;
    hide AllWords;
    hide Geometry.Total;
    hide Geometry.BlockStart;
    OkInner();
    dir, res := dir0, OK;
    var g, entry := fs.g, 0;
    BlockFits(g, bix);
    var lo := g.BlockStart(bix);
    ghost var v := fs.flash;
    if Consistent(g, v, dir0, fs.fds) {
      SurvivedNone(g, v, dir0, fs.fds);
    }
    ghost var cb, ce := fs.freeCursorBlock, fs.freeCursorEntry;
    ghost var rotates := Consistent(g, v, dir0, fs.fds) && Rotates(g, v.lu, cb, ce, bix);
    RotatedNone(g, v.lu, cb, ce, bix);
    FillsRefl(fs.g, bix, v);
    NoEntries(v, lo);
    ghost var good, slack := Consistent(g, fs.flash, dir0, fs.fds), SlackOf(g, bix, fs.flash.lu, dir0, {});
    while entry < g.n
      invariant entry <= g.n && res == OK
      invariant fs.Valid() && fs.Drift() == old(fs.Drift())
      invariant OnlyFills(fs.g, bix, old(fs.flash), fs.flash) && fs.maxEraseCount == old(fs.maxEraseCount)
      invariant CursorBacked(g, fs.flash, bix, fs.freeCursorBlock, fs.freeCursorEntry, false)
      invariant NoData(fs.flash, lo, lo + g.n) && NoLive(fs.flash, lo, lo + entry)
      invariant good ==> Survived(g, v, dir0, old(fs.fds), fs.flash, NoLoss, dir, fs.fds)
      invariant fs.maxEraseCount == old(fs.maxEraseCount) && fs.flash.counts == v.counts
      invariant rotates ==> Rotating(g, v.lu, fs.flash.lu, cb, ce, bix, entry, fs.freeCursorBlock, fs.freeCursorEntry)
      invariant good ==> SlackOf(g, bix, fs.flash.lu, dir, {}) == slack
    {
      var s := lo + entry;
      ghost var cb1, ce1 := fs.freeCursorBlock, fs.freeCursorEntry;
      if rotates {
        RotatingEntry(g, v.lu, fs.flash.lu, cb, ce, bix, entry, cb1, ce1);
      }
      if Live(fs.flash.lu[s]) && IsIndexId(fs.flash.lu[s]) {
        ghost var before, dir1, fds1 := fs.flash, dir, fs.fds;
        if good {
          SurvivedOn(g, v, dir0, old(fs.fds), before, dir1, fds1, before, NoLoss, dir1, fds1);
        }
        res, dir := MoveIndex(fs, bix, s, dir);
        if good {
          SurvivedOn(g, v, dir0, old(fs.fds), before, dir1, fds1, fs.flash, NoLoss, dir, fs.fds);
        }
        if rotates {
          RotateOn(g, v.lu, before.lu, fs.flash.lu, cb, ce, bix, entry, cb1, ce1, res == OK, fs.freeCursorBlock, fs.freeCursorEntry);
        }
        FillsTransitive(fs.g, bix, v, before, fs.flash);
        if res != OK {
          return;
        }
        EntryDone(g, bix, before, fs.flash, lo, s, lo + g.n);
      } else {
        EntryDone(g, bix, fs.flash, fs.flash, lo, s, lo + g.n);
      }
      entry := entry + 1;
    }
    if rotates {
      RotatingDone(g, v.lu, fs.flash.lu, cb, ce, bix, fs.freeCursorBlock, fs.freeCursorEntry);
    }
  }

  /** There is exactly one free entry. */
  ghost predicate OneFree(lu: seq<int>) {
    exists f :: 0 <= f < |lu| && lu[f] == FREE && forall x :: 0 <= x < |lu| && x != f ==> lu[x] != FREE
  }

  lemma LastFree(g: Geometry, bix: nat, v: Flash, w: Flash)
    requires OnlyFills(g, bix, v, w) && OneFree(v.lu) && exists u: nat :: u < |v.lu| && v.lu[u] == FREE && w.lu[u] != FREE
    ensures forall u: nat :: u < |w.lu| ==> w.lu[u] != FREE
  {
  }

  /** The page in slot `s` belongs to the group to be moved. */
  lemma GroupStart(g: Geometry, v: Flash, dir: Dir, bix: nat, s: nat, o: int, ix: nat)
    requires g.Valid() && InBlock(g, bix, s) && InGroup(g, v, s, o, ix) && Live(o) && !IsIndexId(o)
    ensures !NoneInGroup(g, v, g.BlockStart(bix), g.BlockStart(bix) + g.n, o, ix)
    ensures Linked(g, v, dir) ==> 1 <= o <= MAX_ID && SlackOf(g, bix, v.lu, dir, {Key(IndexId(o), ix)}) == SlackOf(g, bix, v.lu, dir, {})
    ensures Linked(g, v, dir) ==> exists q :: q in dir && q.id == o
  {
    hide SlackOf;
    hide IxSpan;
    hide RefsLead;
    hide DataReferred;
    hide Headed;
    if Linked(g, v, dir) {
      var k := KeyAt(v, s);
      assert k in dir && GoodPage(g, v.lu[s], v.pages[s]);
      HeldAnyway(g, bix, v.lu, dir, k);
    }
  }

  lemma GroupMoved(g: Geometry, v: Flash, dir0: Dir, bix: nat, gc: Gc, mid: Flash, body: Body, dir: Dir, fds: seq<Fd>)
    requires g.Valid() && Consistent(g, v, dir0, fds) && gc.ixPix < |v.lu| && SameSize(v, mid) && 1 <= gc.objId <= MAX_ID
    requires v.lu[gc.ixPix] == IndexId(gc.objId) && v.pages[gc.ixPix].span == gc.ixSpan
    requires mid.lu[gc.ixPix] == v.lu[gc.ixPix] && mid.pages[gc.ixPix] == v.pages[gc.ixPix]
    requires Moving(g, bix, gc.objId, gc.ixSpan, gc.ixPix, v, v.pages[gc.ixPix].body, dir0, mid, body, dir)
    requires SlackOf(g, bix, v.lu, dir0, {Key(IndexId(gc.objId), gc.ixSpan)}) == SlackOf(g, bix, v.lu, dir0, {})
    ensures Consistent(g, Patch(mid, gc.ixPix, body), dir, fds) && Meaning(Patch(mid, gc.ixPix, body), dir) == Meaning(v, dir0)
    ensures SlackOf(g, bix, mid.lu, dir, {Key(IndexId(gc.objId), gc.ixSpan)}) == SlackOf(g, bix, v.lu, dir0, {})
    ensures Began(g, v, mid, gc.objId, gc.ixSpan) ==> RealLoss(mid, Unstored(gc.ixPix, body))
    ensures dir.Keys == dir0.Keys && (MapsOk(dir0, fds) ==> MapsBut(g, dir, fds, gc.objId, gc.ixSpan))
    ensures NoneInGroup(g, mid, g.BlockStart(bix), g.BlockStart(bix) + g.n, gc.objId, gc.ixSpan) ==> NoneUnder(g, bix, dir, Key(IndexId(gc.objId), gc.ixSpan))
    ensures (forall u: nat :: u < |mid.lu| ==> mid.lu[u] != FREE) ==> SlackOf(g, bix, v.lu, dir0, {}) < 0
  {
    hide MapsOk;
    hide MapsBut;
    hide SlackOf;
    hide Linked;
    hide Meaning;
    hide FdsOk;
    hide IxSpan;
    hide NoneInGroup;
    hide NoneUnder;
    hide Began;
    var x, t := Key(IndexId(gc.objId), gc.ixSpan), gc.ixPix;
    assert Patch(v, t, v.pages[t].body) == v;
    RoomForNext(g, bix, mid.lu, dir, {x}, x);
    assert dir.Keys == Meaning(Patch(mid, t, body), dir).Keys == Meaning(v, dir0).Keys;
    FdsSame(Meaning(v, dir0), dir0, dir, fds);
    if MapsOk(dir0, fds) {
      MapsStale(g, dir0, dir, fds, gc.objId, gc.ixSpan);
    }
    if Began(g, v, mid, gc.objId, gc.ixSpan) {
      OtherRefs(g, v, dir0, mid, body, dir, t, gc.objId, gc.ixSpan);
    }
    if NoneInGroup(g, mid, g.BlockStart(bix), g.BlockStart(bix) + g.n, gc.objId, gc.ixSpan) {
      GroupGone(g, mid, t, body, dir, bix, gc.objId, gc.ixSpan);
    }
  }

  /** A round of moves: the data pages in the block that the loaded index page refers to leave the
      block, and the index page is stored anew. A round that runs out of free entries has lost the
      index page in the buffer, and with it the pages moved already, exactly if there was a free
      entry at its start. */
  method MoveGroup(fs: Spiffs, bix: nat, s: nat, gc: Gc, work0: Page, ghost dir0: Dir)
    returns (res: Status, ghost loss: Loss, ghost dir: Dir)
    requires fs.Valid() && fs.cleaning && bix < fs.g.blocks && InBlock(fs.g, bix, s) && s < fs.g.Total()
    requires Loaded(fs.g, fs.flash, s, gc, work0)
    requires CursorBacked(fs.g, fs.flash, bix, fs.freeCursorBlock, fs.freeCursorEntry, true)
    modifies fs`flash, fs`log, fs`freeBlocks, fs`maxEraseCount, fs`pagesDeleted, fs`pagesAllocated
    modifies fs`freeCursorBlock, fs`freeCursorEntry, fs`fds
    ensures Inner(res) && fs.maxEraseCount == old(fs.maxEraseCount)
    ensures fs.Valid() && fs.Drift() == old(fs.Drift())
    ensures OnlyFills(fs.g, bix, old(fs.flash), fs.flash)
    ensures res == OK ==> CursorBacked(fs.g, fs.flash, bix, fs.freeCursorBlock, fs.freeCursorEntry, true)
    ensures res == OK ==> fs.flash.lu[s] == DELETED
    ensures Consistent(fs.g, old(fs.flash), dir0, old(fs.fds)) ==> Survived(fs.g, old(fs.flash), dir0, old(fs.fds), fs.flash, loss, dir, fs.fds)
    ensures Consistent(fs.g, old(fs.flash), dir0, old(fs.fds)) ==>
      var slack := SlackOf(fs.g, bix, old(fs.flash).lu, dir0, {});
      && (res == OK ==> loss == NoLoss && SlackOf(fs.g, bix, fs.flash.lu, dir, {}) == slack && !OneFree(old(fs.flash).lu))
      && (res != OK ==> slack < 0 && (loss.Unstored? <==> exists u: nat :: u < fs.g.Total() && old(fs.flash).lu[u] == FREE))
  {
    hide Inner;
    hide SlackOf;
    hide FreeSuffix;
    hide CursorOk;
    hide All;
    hide FreeBlocks;
    hide ErasedFree;
    hide DeadMarked;
    hide Linked;
    hide Meaning;
    hide FdOk;
    hide Geometry.Total;
    hide Geometry.BlockStart;
    hide OneFree;
    hide Calm;
    hide MapsOk;
    hide MapsBut;
    hide Mapless;
    hide Untouched;
    hide RealLoss;
    hide OnlyFills;
    hide NoneInGroup;
    hide IxSpan;
    OkInner();
    ghost var v, t, x := fs.flash, gc.ixPix, Key(IndexId(gc.objId), gc.ixSpan);
    ghost var good := Consistent(fs.g, v, dir0, fs.fds);
    dir, loss := dir0, NoLoss;
    BlockFits(fs.g, bix);
    assert Patch(v, t, work0.body) == v;
    BackedWeaker(fs.g, v, bix, fs.freeCursorBlock, fs.freeCursorEntry);
    GroupStart(fs.g, v, dir0, bix, s, gc.objId, gc.ixSpan);
    var work;
    res, work, dir := MoveData(fs, bix, gc.objId, gc.ixSpan, gc.ixPix, work0, dir0);
    ghost var mid := fs.flash;
    NoLossYet(mid);
    ghost var dir1 := dir;
    if good {
      GroupMoved(fs.g, v, dir0, bix, gc, mid, work.body, dir, fs.fds);
      BeganMeans(fs.g, bix, v, mid, gc.objId, gc.ixSpan);
      SurvivedNone(fs.g, v, dir0, fs.fds);
    }
    if res != OK {
      if good && Began(fs.g, v, mid, gc.objId, gc.ixSpan) {
        loss := Unstored(t, work.body);
      }
      return;
    }
    GroupSlot(fs.g, v, mid, bix, s, gc.objId, gc.ixSpan);
    res, dir := StoreIndex(fs, bix, gc.objId, gc.ixSpan, gc.ixPix, work, dir);
    FillsTransitive(fs.g, bix, v, mid, fs.flash);
    StaysDeleted(fs.g, bix, mid, fs.flash, s);
    NoLossYet(fs.flash);
    if good {
      if res != OK {
        loss := Unstored(t, work.body);
      } else {
        GroupCalm(fs.g, v, dir0, dir1, dir, old(fs.fds), fs.fds, gc.objId, gc.ixSpan);
      }
    }
  }

  lemma GroupCalm(g: Geometry, v: Flash, dir0: Dir, dir1: Dir, dir: Dir, fds: seq<Fd>, fds': seq<Fd>, o: int, ix: nat)
    requires g.Valid() && |fds'| == |fds| && (Mapless(fds) ==> Mapless(fds')) && dir0.Keys == dir1.Keys
    requires MapsOk(dir0, fds) ==> MapsBut(g, dir1, fds, o, ix)
    requires MapsBut(g, dir1, fds, o, ix) ==> MapsOk(dir, fds')
    requires forall i :: 0 <= i < |fds| ==> Untouched(dir1, fds[i], fds'[i])
    ensures Calm(dir0, fds, dir, fds')
  {
    hide MapsOk;
    hide MapsBut;
  }

  lemma BeganMeans(g: Geometry, bix: nat, v: Flash, w: Flash, o: int, ix: nat)
    requires g.Valid() && OnlyFills(g, bix, v, w)
    ensures Began(g, v, w, o, ix) ==> exists u: nat :: u < |v.lu| && v.lu[u] == FREE
    ensures Began(g, v, w, o, ix) && OneFree(v.lu) ==> forall u: nat :: u < |w.lu| ==> w.lu[u] != FREE
  {
    if Began(g, v, w, o, ix) && OneFree(v.lu) {
      LastFree(g, bix, v, w);
    }
  }

  lemma GroupSlot(g: Geometry, v: Flash, w: Flash, bix: nat, s: nat, o: int, ix: nat)
    requires g.Valid() && OnlyFills(g, bix, v, w) && InBlock(g, bix, s) && InGroup(g, v, s, o, ix) && o != FREE
    requires NoneInGroup(g, w, g.BlockStart(bix), g.BlockStart(bix) + g.n, o, ix)
    ensures s < |w.lu| && w.lu[s] == DELETED && w != v
  {
    assert !InGroup(g, w, s, o, ix);
  }

  lemma StaysDeleted(g: Geometry, bix: nat, v: Flash, w: Flash, s: nat)
    requires OnlyFills(g, bix, v, w) && s < |v.lu| && v.lu[s] == DELETED
    ensures s < |w.lu| && w.lu[s] == DELETED
  {
  }

  lemma FdsSame(m: map<Key, Body>, dir: Dir, dir': Dir, fds: seq<Fd>)
    requires FdsOk(m, dir, fds) && dir.Keys == dir'.Keys
    requires forall k :: k in dir && IsIndexId(k.id) ==> dir'[k] == dir[k]
    ensures FdsOk(m, dir', fds)
  {
    forall i | 0 <= i < |fds|
      ensures FdOk(m, dir', fds[i])
    {
      assert FdOk(m, dir, fds[i]);
    }
  }

  /** The entries in front of a used entry of the block stay without data when a round ends. */
  lemma DataGone(g: Geometry, v: Flash, w: Flash, bix: nat, s: int)
    requires Shaped(g, v) && FreeSuffix(g, v.lu) && OnlyFills(g, bix, v, w) && bix < g.blocks
    requires InBlock(g, bix, s) && 0 <= s < |v.lu| && v.lu[s] != FREE && w.lu[s] == DELETED
    requires NoData(v, g.BlockStart(bix), s)
    ensures NoData(w, g.BlockStart(bix), s + 1)
  {
    forall x | g.BlockStart(bix) <= x < s
      ensures v.lu[x] != FREE
    {
      assert InBlock(g, bix, x);
    }
  }

  lemma FillsRefl(g: Geometry, bix: nat, v: Flash)
    requires |v.lu| == |v.pages|
    ensures OnlyFills(g, bix, v, v)
  {
  }

  lemma FillsTransitive(g: Geometry, bix: nat, u: Flash, v: Flash, w: Flash)
    requires OnlyFills(g, bix, u, v) && OnlyFills(g, bix, v, w)
    ensures OnlyFills(g, bix, u, w)
  {
  }

  /** Free pages of the block to be emptied cannot be used: the cursor leaves it. */
  method LeaveBlock(fs: Spiffs, bix: nat)
    requires fs.Valid() && bix < fs.g.blocks
    modifies fs`freeCursorBlock, fs`freeCursorEntry
    ensures fs.Valid()
    ensures CursorBacked(fs.g, fs.flash, bix, fs.freeCursorBlock, fs.freeCursorEntry, true)
    ensures if old(fs.freeCursorBlock) == bix then fs.freeCursorBlock == (if bix + 1 == fs.g.blocks then 0 else bix + 1) && fs.freeCursorEntry == 0 else unchanged(fs)
  {
    if fs.freeCursorBlock == bix {
      fs.freeCursorBlock := if bix + 1 == fs.g.blocks then 0 else bix + 1;
      fs.freeCursorEntry := 0;
    }
  }

  lemma BackedWeaker(g: Geometry, fl: Flash, bix: nat, cb: nat, ce: nat)
    ensures CursorBacked(g, fl, bix, cb, ce, true) ==> CursorBacked(g, fl, bix, cb, ce, false)
  {
  }

  lemma BackedClears(g: Geometry, fl: Flash, bix: nat, cb: nat, ce: nat, ixOnly: bool)
    requires Shaped(g, fl) && CursorOk(g, fl.lu, cb, ce) && CursorBacked(g, fl, bix, cb, ce, ixOnly)
    requires NoLive(fl, g.BlockStart(bix), g.BlockStart(bix) + g.n)
    ensures cb == bix ==> ce == 0
  {
  }

  /** A scan met data page `s`, which may have been scrapped. */
  lemma DroppedData(g: Geometry, v: Flash, w: Flash, lo: int, s: int, bix: nat, cb: nat, ce: nat)
    requires Shaped(g, v) && 0 <= lo <= s < |v.lu| && NoData(v, lo, s) && Live(v.lu[s]) && !IsIndexId(v.lu[s])
    requires CursorBacked(g, v, bix, cb, ce, true) && InBlock(g, bix, s)
    requires w == v || w == Dropped(v, s)
    ensures OnlyFills(g, bix, v, w) && NoData(w, lo, s) && CursorBacked(g, w, bix, cb, ce, true)
    ensures w == Dropped(v, s) ==> NoData(w, lo, s + 1)
  {
  }

  lemma LoadedUsed(g: Geometry, fl: Flash, s: int, gc: Gc, work: Page)
    requires g.Valid() && Loaded(g, fl, s, gc, work)
    ensures 0 <= s < |fl.lu| && fl.lu[s] != FREE
  {
  }

  lemma AsManyLive(g: Geometry, v: Flash, dir0: Dir, w: Flash, dir: Dir, fds0: seq<Fd>, fds: seq<Fd>)
    requires Consistent(g, v, dir0, fds0) && Consistent(g, w, dir, fds) && Meaning(v, dir0) == Meaning(w, dir)
    ensures All(v.lu, InUse) == All(w.lu, InUse)
  {
    hide Linked;
    hide FdsOk;
    hide Meaning;
    LiveCount(g, v, dir0);
    LiveCount(g, w, dir);
  }

  /** Scans the block from entry `from` on for a data page. */
  method FindData(fs: Spiffs, lo: nat, from: nat) returns (entry: nat)
    requires Shaped(fs.g, fs.flash) && from <= fs.g.n && lo + fs.g.n <= fs.g.Total() && NoData(fs.flash, lo, lo + from)
    ensures from <= entry <= fs.g.n && NoData(fs.flash, lo, lo + entry)
    ensures entry < fs.g.n ==> lo + entry < |fs.flash.lu| && Live(fs.flash.lu[lo + entry]) && !IsIndexId(fs.flash.lu[lo + entry])
  {
    entry := from;
    while entry < fs.g.n && !(Live(fs.flash.lu[lo + entry]) && !IsIndexId(fs.flash.lu[lo + entry]))
      invariant from <= entry <= fs.g.n && NoData(fs.flash, lo, lo + entry)
    {
      entry := entry + 1;
    }
  }

  /** What each state of the machine may rely on, the free cursor being at (cb, ce). */
  ghost predicate Phase(g: Geometry, fl: Flash, bix: nat, cb: nat, ce: nat, gc: Gc, entry: nat, work: Page)
    requires g.Valid()
  {
    var lo := g.BlockStart(bix);
    && entry <= g.n && gc.stored <= g.n
    && CursorBacked(g, fl, bix, cb, ce, gc.state == FindObjData || gc.state == MoveObjData)
    && match gc.state
       case FindObjData => NoData(fl, lo, lo + entry)
       case MoveObjData => gc.stored > 0 && NoData(fl, lo, lo + gc.stored - 1) && Loaded(g, fl, lo + gc.stored - 1, gc, work)
       case MoveObjIx => NoData(fl, lo, lo + g.n)
       case Finished => NoLive(fl, lo, lo + g.n)
  }

  /** How far the machine is from finishing. */
  function Rank(g: Geometry, gc: Gc, entry: nat): nat {
    match gc.state
    case FindObjData => 2 + 2 * (if entry <= g.n then g.n - entry else 0)
    case MoveObjData => 3 + 2 * (if gc.stored <= g.n then g.n - gc.stored else 0)
    case MoveObjIx => 1
    case Finished => 0
  }

  lemma OneIsFree(lu: seq<int>)
    ensures OneFree(lu) ==> exists u: nat :: u < |lu| && lu[u] == FREE
  {
    if OneFree(lu) {
      var f :| 0 <= f < |lu| && lu[f] == FREE;
      var u: nat := f;
      assert lu[u] == FREE;
    }
  }

  lemma NoLossYet(fl: Flash)
    ensures Mended(fl, NoLoss) == fl && RealLoss(fl, NoLoss)
  {
  }

  /** From `v` to `w` all pages of block `b` went to the block in front of the cursor, and the cursor stands
      at the end of that. */
  ghost predicate Emptying(g: Geometry, v: Flash, w: Flash, cb0: nat, ce0: nat, b: nat, cb: nat, ce: nat) {
    Rotated(g, v.lu, w.lu, Front(g, cb0, ce0), b, g.n) && w.counts == v.counts && cb == Front(g, cb0, ce0) && ce == g.n
  }

  lemma NoneIsData(g: Geometry, fl: Flash, cb: nat, ce: nat, b: nat)
    requires Rotates(g, fl.lu, cb, ce, b)
    ensures NoData(fl, g.BlockStart(b), g.BlockStart(b) + g.n)
    ensures forall s :: g.BlockStart(b) <= s < g.BlockStart(b) + g.n && s < |fl.lu| ==> IsIndexId(fl.lu[s])
  {
    forall s | g.BlockStart(b) <= s < g.BlockStart(b) + g.n && s < |fl.lu|
      ensures IsIndexId(fl.lu[s])
    {
      assert InBlock(g, b, s);
    }
  }

  /** Looks for the next data page of the block and loads its index page; without one left, the index pages
      come next. */
  method Scan(fs: Spiffs, bix: nat, gc0: Gc, entry0: nat, work0: Page, ghost dir0: Dir)
    returns (res: Status, gc: Gc, entry: nat, work: Page)
    requires fs.Valid() && bix < fs.g.blocks && gc0.state == FindObjData
    requires Phase(fs.g, fs.flash, bix, fs.freeCursorBlock, fs.freeCursorEntry, gc0, entry0, work0)
    modifies fs`flash, fs`log, fs`pagesDeleted, fs`pagesAllocated, fs`cursorBlock, fs`cursorEntry
    ensures Inner(res)
    ensures fs.Valid() && fs.Drift() == old(fs.Drift())
    ensures OnlyFills(fs.g, bix, old(fs.flash), fs.flash)
    ensures Rank(fs.g, gc, entry) < Rank(fs.g, gc0, entry0)
    ensures res == OK ==> Phase(fs.g, fs.flash, bix, fs.freeCursorBlock, fs.freeCursorEntry, gc, entry, work)
    ensures Consistent(fs.g, old(fs.flash), dir0, fs.fds) ==> res == OK && fs.flash == old(fs.flash)
    ensures Consistent(fs.g, old(fs.flash), dir0, fs.fds) ==>
      gc.state == if NoData(fs.flash, fs.g.BlockStart(bix), fs.g.BlockStart(bix) + fs.g.n) then MoveObjIx else MoveObjData
  {
    hide Inner;
    hide FreeSuffix;
    hide CursorOk;
    hide CursorBacked;
    hide OnlyFills;
    hide All;
    hide FreeBlocks;
    hide ErasedFree;
    hide DeadMarked;
    hide Consistent;
    hide Loaded;
    hide Geometry.Total;
    hide Geometry.BlockStart;
    OkInner();
    var g := fs.g;
    res, gc, work := OK, gc0, work0;
    BlockFits(g, bix);
    var lo := g.BlockStart(bix);
    ghost var before := fs.flash;
    FillsRefl(fs.g, bix, before);
    entry := FindData(fs, lo, entry0);
    if entry < g.n {
      // push the cursor; find the index page and load it
      var s, found := lo + entry, true;
      gc := Gc(MoveObjData, entry + 1, fs.flash.lu[s], 0, 0);
      res, found, gc, work := LoadIndex(fs, s, gc, dir0);
      DroppedData(g, before, fs.flash, lo, s, bix, fs.freeCursorBlock, fs.freeCursorEntry);
      if found {
        entry := 0;
      } else {
        // the page was not referred to: go on scanning
        entry := gc.stored;
        gc := gc.(state := FindObjData);
      }
    } else {
      // no data pages left: evacuate the index pages
      BackedWeaker(g, fs.flash, bix, fs.freeCursorBlock, fs.freeCursorEntry);
      gc := gc.(state := MoveObjIx);
      entry := 0;
    }
  }

  /** State MoveObjData: moves the data pages of the loaded index page, stores it, and goes back to looking. */
  method MoveStored(fs: Spiffs, bix: nat, gc0: Gc, entry0: nat, work: Page, ghost dir0: Dir)
    returns (res: Status, gc: Gc, entry: nat, ghost loss: Loss, ghost dir: Dir)
    requires fs.Valid() && fs.cleaning && bix < fs.g.blocks && gc0.state == MoveObjData
    requires Phase(fs.g, fs.flash, bix, fs.freeCursorBlock, fs.freeCursorEntry, gc0, entry0, work)
    modifies fs`flash, fs`log, fs`freeBlocks, fs`maxEraseCount, fs`pagesDeleted, fs`pagesAllocated
    modifies fs`freeCursorBlock, fs`freeCursorEntry, fs`fds
    ensures Inner(res) && fs.maxEraseCount == old(fs.maxEraseCount)
    ensures fs.Valid() && fs.Drift() == old(fs.Drift())
    ensures OnlyFills(fs.g, bix, old(fs.flash), fs.flash)
    ensures Rank(fs.g, gc, entry) < Rank(fs.g, gc0, entry0) && gc.state == FindObjData
    ensures res == OK ==> Phase(fs.g, fs.flash, bix, fs.freeCursorBlock, fs.freeCursorEntry, gc, entry, work)
    ensures Consistent(fs.g, old(fs.flash), dir0, old(fs.fds)) ==> Survived(fs.g, old(fs.flash), dir0, old(fs.fds), fs.flash, loss, dir, fs.fds)
    ensures Consistent(fs.g, old(fs.flash), dir0, old(fs.fds)) ==>
      var slack := SlackOf(fs.g, bix, old(fs.flash).lu, dir0, {});
      && (res == OK ==> loss == NoLoss && SlackOf(fs.g, bix, fs.flash.lu, dir, {}) == slack)
      && (res != OK ==> slack < 0)
    ensures Consistent(fs.g, old(fs.flash), dir0, old(fs.fds)) && OneFree(old(fs.flash).lu) ==> res != OK && loss.Unstored?
  {
    hide Inner;
    hide Lower;
    hide Spiffs.Valid;
    hide Spiffs.Drift;
    hide SlackOf;
    hide FreeSuffix;
    hide CursorOk;
    hide CursorBacked;
    hide OnlyFills;
    hide All;
    hide FreeBlocks;
    hide ErasedFree;
    hide DeadMarked;
    hide Consistent;
    hide Meaning;
    hide Loaded;
    hide NoData;
    hide NoLive;
    hide OneFree;
    hide Survived;
    hide Geometry.Total;
    hide Geometry.BlockStart;
    ValidShape(fs);
    BlockFits(fs.g, bix);
    ghost var before := fs.flash;
    gc, entry := gc0, entry0;
    var s := fs.g.BlockStart(bix) + gc.stored - 1;
    LoadedUsed(fs.g, before, s, gc, work);
    res, loss, dir := MoveGroup(fs, bix, s, gc, work, dir0);
    OneIsFree(before.lu);
    if res == OK {
      DataGone(fs.g, before, fs.flash, bix, s);
    }
    entry := gc.stored;
    gc := gc.(state := FindObjData);
  }

  /** One step of the machine: a scan of the block, and the switch of states after it. */
  method Step(fs: Spiffs, bix: nat, gc0: Gc, entry0: nat, work0: Page, ghost dir0: Dir)
    returns (res: Status, gc: Gc, entry: nat, work: Page, ghost loss: Loss, ghost dir: Dir)
    requires fs.Valid() && fs.cleaning && bix < fs.g.blocks && gc0.state != Finished
    requires Phase(fs.g, fs.flash, bix, fs.freeCursorBlock, fs.freeCursorEntry, gc0, entry0, work0)
    modifies fs`flash, fs`log, fs`freeBlocks, fs`maxEraseCount, fs`pagesDeleted, fs`pagesAllocated
    modifies fs`freeCursorBlock, fs`freeCursorEntry, fs`fds, fs`cursorBlock, fs`cursorEntry
    ensures Inner(res) && fs.maxEraseCount == old(fs.maxEraseCount)
    ensures fs.Valid() && fs.Drift() == old(fs.Drift())
    ensures OnlyFills(fs.g, bix, old(fs.flash), fs.flash)
    ensures Rank(fs.g, gc, entry) < Rank(fs.g, gc0, entry0)
    ensures res == OK ==> Phase(fs.g, fs.flash, bix, fs.freeCursorBlock, fs.freeCursorEntry, gc, entry, work)
    ensures Consistent(fs.g, old(fs.flash), dir0, old(fs.fds)) ==> Survived(fs.g, old(fs.flash), dir0, old(fs.fds), fs.flash, loss, dir, fs.fds)
    ensures Consistent(fs.g, old(fs.flash), dir0, old(fs.fds)) ==>
      var slack := SlackOf(fs.g, bix, old(fs.flash).lu, dir0, {});
      && (res == OK ==> loss == NoLoss && SlackOf(fs.g, bix, fs.flash.lu, dir, {}) == slack)
      && (res != OK ==> slack < 0)
    ensures Consistent(fs.g, old(fs.flash), dir0, old(fs.fds)) && gc0.state == FindObjData ==>
      && res == OK && fs.flash == old(fs.flash)
      && (!NoData(fs.flash, fs.g.BlockStart(bix), fs.g.BlockStart(bix) + fs.g.n) ==> gc.state == MoveObjData)
    ensures Consistent(fs.g, old(fs.flash), dir0, old(fs.fds)) && Rotates(fs.g, old(fs.flash).lu, old(fs.freeCursorBlock), old(fs.freeCursorEntry), bix) ==>
      && (gc0.state == FindObjData ==> gc.state == MoveObjIx && fs.freeCursorBlock == old(fs.freeCursorBlock) && fs.freeCursorEntry == old(fs.freeCursorEntry))
      && (gc0.state == MoveObjIx ==> Emptying(fs.g, old(fs.flash), fs.flash, old(fs.freeCursorBlock), old(fs.freeCursorEntry), bix, fs.freeCursorBlock, fs.freeCursorEntry) && res == OK && gc.state == Finished)
    ensures Consistent(fs.g, old(fs.flash), dir0, old(fs.fds)) && gc0.state == MoveObjData && OneFree(old(fs.flash).lu) ==> res != OK && loss.Unstored?
  {
    hide Lower;
    hide Spiffs.Valid;
    hide Spiffs.Drift;
    hide Inner;
    hide SlackOf;
    hide FreeSuffix;
    hide CursorOk;
    hide CursorBacked;
    hide OnlyFills;
    hide All;
    hide FreeBlocks;
    hide ErasedFree;
    hide DeadMarked;
    hide Consistent;
    hide Meaning;
    hide Loaded;
    hide NoData;
    hide NoLive;
    hide Geometry.Total;
    hide Geometry.BlockStart;
    hide OneFree;
    hide Survived;
    hide Rotated;
    hide Rotates;
    hide Front;
    OkInner();
    ValidShape(fs);
    if Rotates(fs.g, fs.flash.lu, fs.freeCursorBlock, fs.freeCursorEntry, bix) {
      NoneIsData(fs.g, fs.flash, fs.freeCursorBlock, fs.freeCursorEntry, bix);
    }
    if Consistent(fs.g, fs.flash, dir0, fs.fds) {
      SurvivedNone(fs.g, fs.flash, dir0, fs.fds);
    }
    var g := fs.g;
    gc, entry, work, dir, res, loss := gc0, entry0, work0, dir0, OK, NoLoss;
    FillsRefl(g, bix, fs.flash);
    match gc0.state {
      case FindObjData =>
        res, gc, entry, work := Scan(fs, bix, gc0, entry0, work0, dir0);
      case MoveObjData =>
        res, gc, entry, loss, dir := MoveStored(fs, bix, gc0, entry0, work, dir);
      case MoveObjIx =>
        res, dir := MoveIndexes(fs, bix, dir);
        gc := gc.(state := Finished);
    }
  }

  /** Empties a block: whatever the medium looked like, a success leaves no live page in it. On a
      consistent medium it succeeds exactly if the free entries outside the block are as many as the
      pages in the block and the index pages that refer to them, wherever in the search order they
      are; a success leaves the medium consistent with the same meaning and as many live pages. Where
      it fails the medium is as it should be but for at most one index page that was not stored, the
      pages it refers to being lost with it. With one free entry and data in the block that happens. */
  method Clean(fs: Spiffs, bix: nat, ghost dir0: Dir)
    returns (res: Status, ghost loss: Loss, ghost dir: Dir)
    requires fs.Valid() && fs.cleaning && bix < fs.g.blocks
    modifies fs`flash, fs`log, fs`freeBlocks, fs`maxEraseCount, fs`pagesDeleted, fs`pagesAllocated
    modifies fs`freeCursorBlock, fs`freeCursorEntry, fs`fds, fs`cursorBlock, fs`cursorEntry
    ensures Inner(res) && fs.maxEraseCount == old(fs.maxEraseCount)
    ensures fs.Valid() && fs.Drift() == old(fs.Drift())
    ensures OnlyFills(fs.g, bix, old(fs.flash), fs.flash)
    ensures res == OK ==> NoLive(fs.flash, fs.g.BlockStart(bix), fs.g.BlockStart(bix) + fs.g.n)
    ensures res == OK && fs.freeCursorBlock == bix ==> fs.freeCursorEntry == 0
    ensures Consistent(fs.g, old(fs.flash), dir0, old(fs.fds)) ==>
      && Survived(fs.g, old(fs.flash), dir0, old(fs.fds), fs.flash, loss, dir, fs.fds)
      && (res == OK ==> loss == NoLoss && fs.pagesAllocated == old(fs.pagesAllocated))
    ensures Consistent(fs.g, old(fs.flash), dir0, old(fs.fds)) ==>
      && (res == OK <==> SlackOf(fs.g, bix, old(fs.flash).lu, dir0, {}) >= 0)
      && (res == OK ==> |FreeOutside(fs.g, bix, fs.flash.lu)| == SlackOf(fs.g, bix, old(fs.flash).lu, dir0, {}))
    ensures Consistent(fs.g, old(fs.flash), dir0, old(fs.fds)) && Rotates(fs.g, old(fs.flash).lu, old(fs.freeCursorBlock), old(fs.freeCursorEntry), bix) ==>
      res == OK && fs.maxEraseCount == old(fs.maxEraseCount) && Emptying(fs.g, old(fs.flash), fs.flash, old(fs.freeCursorBlock), old(fs.freeCursorEntry), bix, fs.freeCursorBlock, fs.freeCursorEntry)
    ensures Consistent(fs.g, old(fs.flash), dir0, old(fs.fds)) && OneFree(old(fs.flash).lu) && !NoData(old(fs.flash), fs.g.BlockStart(bix), fs.g.BlockStart(bix) + fs.g.n) ==>
      loss.Unstored?
  {
    hide Lower;
    hide Spiffs.Valid;
    hide Spiffs.Drift;
    hide Inner;
    hide SlackOf;
    hide OneFree;
    hide Survived;
    hide NoData;
    hide Phase;
    hide Rank;
    hide FreeSuffix;
    hide CursorOk;
    hide CursorBacked;
    hide OnlyFills;
    hide NoLive;
    hide All;
    hide FreeBlocks;
    hide ErasedFree;
    hide DeadMarked;
    hide Consistent;
    hide Meaning;
    hide Geometry.Total;
    hide Geometry.BlockStart;
    hide Rotates;
    hide Emptying;
    hide FreeOutside;
    hide Front;
    OkInner();
    ValidShape(fs);
    var g, gc, entry := fs.g, Gc(FindObjData, 0, 0, 0, 0), 0;
    var work := ERASED;
    dir, res, loss := dir0, OK, NoLoss;
    ghost var fds0, max, drift := fs.fds, fs.maxEraseCount, fs.Drift();
    ghost var v, good, slack := fs.flash, Consistent(g, fs.flash, dir0, fs.fds), SlackOf(g, bix, fs.flash.lu, dir0, {});
    ghost var doomed := good && OneFree(v.lu) && !NoData(v, g.BlockStart(bix), g.BlockStart(bix) + g.n);
    ghost var cb, ce := fs.freeCursorBlock, fs.freeCursorEntry;
    ghost var rotates := good && Rotates(g, v.lu, cb, ce, bix);
    LeaveBlock(fs, bix);
    ValidShape(fs);
    if rotates {
      RotatesOn(g, v.lu, cb, ce, bix, fs.freeCursorBlock, fs.freeCursorEntry);
    }
    ghost var cb1, ce1 := fs.freeCursorBlock, fs.freeCursorEntry;
    AtStart(g, fs.flash, bix, fs.freeCursorBlock, fs.freeCursorEntry, work);
    FillsRefl(fs.g, bix, fs.flash);
    if good {
      SurvivedNone(g, v, dir0, fs.fds);
    }
    while res == OK && gc.state != Finished
      invariant fs.Valid() && Shaped(g, fs.flash) && fs.Drift() == drift && Inner(res)
      invariant OnlyFills(fs.g, bix, v, fs.flash) && fs.maxEraseCount == max
      invariant res == OK ==> Phase(g, fs.flash, bix, fs.freeCursorBlock, fs.freeCursorEntry, gc, entry, work)
      invariant good ==> Survived(g, v, dir0, fds0, fs.flash, loss, dir, fs.fds)
      invariant good ==> if res == OK then loss == NoLoss && SlackOf(g, bix, fs.flash.lu, dir, {}) == slack else slack < 0
      invariant rotates ==> res == OK && fs.maxEraseCount == max && Rotates(g, v.lu, cb1, ce1, bix) && Front(g, cb1, ce1) == Front(g, cb, ce)
      invariant rotates && (gc.state == FindObjData || gc.state == MoveObjIx) ==> fs.flash == v && fs.freeCursorBlock == cb1 && fs.freeCursorEntry == ce1
      invariant rotates && gc.state != FindObjData && gc.state != MoveObjIx ==> gc.state == Finished && Emptying(g, v, fs.flash, cb, ce, bix, fs.freeCursorBlock, fs.freeCursorEntry)
      invariant doomed ==> if res == OK then fs.flash == v && (gc.state == FindObjData || gc.state == MoveObjData) else loss.Unstored?
      decreases Rank(g, gc, entry)
    {
      ghost var before, dir1, fds1 := fs.flash, dir, fs.fds;
      if good {
        SurvivedOn(g, v, dir0, fds0, before, dir1, fds1, before, NoLoss, dir1, fds1);
      }
      res, gc, entry, work, loss, dir := Step(fs, bix, gc, entry, work, dir);
      ValidShape(fs);
      if good {
        SurvivedOn(g, v, dir0, fds0, before, dir1, fds1, fs.flash, loss, dir, fs.fds);
      }
      FillsTransitive(fs.g, bix, v, before, fs.flash);
      if rotates && gc.state == Finished {
        EmptyingFrom(g, v, fs.flash, cb, ce, cb1, ce1, bix, fs.freeCursorBlock, fs.freeCursorEntry);
      }
    }
    ValidShape(fs);
    if res == OK {
      CleanEnd(g, v, dir0, fds0, fs.flash, dir, fs.fds, bix, fs.freeCursorBlock, fs.freeCursorEntry, gc, entry, work);
    }
  }

  lemma CleanEnd(g: Geometry, v: Flash, dir0: Dir, fds0: seq<Fd>, w: Flash, dir: Dir, fds: seq<Fd>, bix: nat, cb: nat, ce: nat, gc: Gc, entry: nat, work: Page)
    requires Shaped(g, v) && Shaped(g, w) && CursorOk(g, w.lu, cb, ce) && Phase(g, w, bix, cb, ce, gc, entry, work) && gc.state == Finished && bix < g.blocks
    requires Consistent(g, v, dir0, fds0) ==> Survived(g, v, dir0, fds0, w, NoLoss, dir, fds) && SlackOf(g, bix, w.lu, dir, {}) == SlackOf(g, bix, v.lu, dir0, {})
    ensures NoLive(w, g.BlockStart(bix), g.BlockStart(bix) + g.n) && (cb == bix ==> ce == 0)
    ensures Consistent(g, v, dir0, fds0) ==> All(v.lu, InUse) == All(w.lu, InUse) && |FreeOutside(g, bix, w.lu)| == SlackOf(g, bix, v.lu, dir0, {}) >= 0
  {
    hide SlackOf;
    hide Phase;
    hide CursorOk;
    hide NoLive;
    hide All;
    hide Meaning;
    hide Linked;
    hide FdsOk;
    hide FreeOutside;
    hide Geometry.Total;
    hide Geometry.BlockStart;
    AtEnd(g, w, bix, cb, ce, gc, entry, work);
    if Consistent(g, v, dir0, fds0) {
      SurvivedOn(g, v, dir0, fds0, w, dir, fds, w, NoLoss, dir, fds);
      AsManyLive(g, v, dir0, w, dir, fds0, fds);
      NoneLeft(g, w, dir, fds, bix);
      EmptySlack(g, bix, w.lu, dir);
    }
  }

  /** Leaving the block does not change which block is in front of the cursor. */
  lemma RotatesOn(g: Geometry, lu: seq<int>, cb: nat, ce: nat, b: nat, cb': nat, ce': nat)
    requires g.Valid() && Rotates(g, lu, cb, ce, b)
    requires if cb == b then cb' == (if b + 1 == g.blocks then 0 else b + 1) && ce' == 0 else cb' == cb && ce' == ce
    ensures Rotates(g, lu, cb', ce', b) && Front(g, cb', ce') == Front(g, cb, ce)
  {
  }

  lemma EmptyingFrom(g: Geometry, v: Flash, w: Flash, cb: nat, ce: nat, cb': nat, ce': nat, b: nat, c: nat, e: nat)
    requires Emptying(g, v, w, cb', ce', b, c, e) && Front(g, cb', ce') == Front(g, cb, ce)
    ensures Emptying(g, v, w, cb, ce, b, c, e)
  {
    hide Rotated;
    hide Front;
  }

  lemma NoneLeft(g: Geometry, fl: Flash, dir: Dir, fds: seq<Fd>, bix: nat)
    requires Consistent(g, fl, dir, fds) && NoLive(fl, g.BlockStart(bix), g.BlockStart(bix) + g.n)
    ensures forall k :: k in dir ==> !InBlock(g, bix, dir[k])
  {
    hide RefsLead;
    hide DataReferred;
    hide Headed;
  }

  lemma AtStart(g: Geometry, fl: Flash, bix: nat, cb: nat, ce: nat, work: Page)
    requires g.Valid() && CursorBacked(g, fl, bix, cb, ce, true)
    ensures Phase(g, fl, bix, cb, ce, Gc(FindObjData, 0, 0, 0, 0), 0, work)
  {
  }

  lemma AtEnd(g: Geometry, fl: Flash, bix: nat, cb: nat, ce: nat, gc: Gc, entry: nat, work: Page)
    requires Shaped(g, fl) && CursorOk(g, fl.lu, cb, ce) && Phase(g, fl, bix, cb, ce, gc, entry, work) && gc.state == Finished
    ensures NoLive(fl, g.BlockStart(bix), g.BlockStart(bix) + g.n) && (cb == bix ==> ce == 0)
  {
    BackedClears(g, fl, bix, cb, ce, false);
  }
}
