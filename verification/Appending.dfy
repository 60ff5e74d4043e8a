/** Appending to a file: data pages are added or filled up, index pages are created as they are
    needed, and the header is told the new length. */
module Appending {
  import opened Words
  import opened Layout
  import opened Medium
  import opened Directory
  import opened Tally
  import opened Store
  import opened Collector
  import opened Circling
  import opened Files
  import opened Holding
  import opened Window
  import opened Maps
  import opened Following
  import opened Plans
  import Reclaim

  // Open descriptors while the length of one object is in flux.

  ghost predicate FdPlaced(dir: Dir, fd: Fd) {
    fd.fileNbr != 0 && fd.score != 0 ==>
      && -IX_FLAG < fd.objId < 0
      && Key(fd.objId, 0) in dir && dir[Key(fd.objId, 0)] == fd.hdr
      && (Key(fd.objId, fd.cursorSpan) in dir ==> dir[Key(fd.objId, fd.cursorSpan)] == fd.cursorPix)
  }

  /** Every descriptor knows where its header and cursor pages are; those of objects other than
      `o` know the length too. */
  ghost predicate FdsTrack(m: Image, dir: Dir, fds: seq<Fd>, o: int) {
    forall i :: 0 <= i < |fds| ==> FdPlaced(dir, fds[i]) && (ObjectId(fds[i].objId) != o ==> FdOk(m, dir, fds[i]))
  }

  lemma TrackStart(m: Image, dir: Dir, fds: seq<Fd>, o: int)
    requires FdsOk(m, dir, fds)
    ensures FdsTrack(m, dir, fds, o)
  {
    forall i | 0 <= i < |fds|
      ensures FdPlaced(dir, fds[i])
    {
      assert FdOk(m, dir, fds[i]);
    }
  }

  lemma TrackSame(m: Image, m': Image, dir: Dir, dir': Dir, fds: seq<Fd>, o: int)
    requires FdsTrack(m, dir, fds, o) && SameOthers(m, m', o)
    requires forall k: Key :: IsIndexId(k.id) ==> (k in dir <==> k in dir') && (k in dir ==> dir'[k] == dir[k])
    ensures FdsTrack(m', dir', fds, o)
  {
    forall i | 0 <= i < |fds|
      ensures FdPlaced(dir', fds[i]) && (ObjectId(fds[i].objId) != o ==> FdOk(m', dir', fds[i]))
    {
      assert FdPlaced(dir, fds[i]) && (ObjectId(fds[i].objId) != o ==> FdOk(m, dir, fds[i]));
    }
  }

  /** An index page of `o` got a new place and the descriptors were told. */
  lemma TrackEvent(m: Image, m': Image, dir: Dir, fds: seq<Fd>, fds': seq<Fd>, ev: IxEvent, o: int, id: int, k: nat, f: int, size: int)
    requires FdsTrack(m, dir, fds, o) && SameOthers(m, m', o) && |fds'| == |fds| && ev != IxDeleted
    requires ObjectId(id) == o && 1 <= o <= MAX_ID
    requires forall i :: 0 <= i < |fds| ==> fds'[i] == EventFd(fds[i], ev, id, k, f, size)
    ensures FdsTrack(m', dir[Key(IndexId(o), k) := f], fds', o)
    ensures k == 0 && size > 0 && Key(IndexId(o), 0) in m' && m'[Key(IndexId(o), 0)].Header? && m'[Key(IndexId(o), 0)].size == size ==>
      FdsOk(m', dir[Key(IndexId(o), k) := f], fds')
  {
    hide EventFd;
    forall i | 0 <= i < |fds|
      ensures FdPlaced(dir[Key(IndexId(o), k) := f], fds'[i])
      ensures ObjectId(fds'[i].objId) != o ==> FdOk(m', dir[Key(IndexId(o), k) := f], fds'[i])
      ensures k == 0 && size > 0 && Key(IndexId(o), 0) in m' && m'[Key(IndexId(o), 0)].Header? && m'[Key(IndexId(o), 0)].size == size ==>
        FdOk(m', dir[Key(IndexId(o), k) := f], fds'[i])
    {
      EventFields(fds[i], ev, id, k, f, size);
      assert FdPlaced(dir, fds[i]) && (ObjectId(fds[i].objId) != o ==> FdOk(m, dir, fds[i]));
    }
  }

  /** The descriptor used for writing, tied to object `o`. */
  ghost predicate Writer(fds: seq<Fd>, fdi: nat, o: int) {
    fdi < |fds| && fds[fdi].fileNbr != 0 && fds[fdi].score != 0 && fds[fdi].objId == IndexId(o) && 1 <= o <= MAX_ID
  }

  /** The writer's cursor is set to an index page, and its length to any value. */
  lemma TrackOwn(m: Image, dir: Dir, fds: seq<Fd>, fdi: nat, o: int, k: nat, t: int, size: int)
    requires FdsTrack(m, dir, fds, o) && Writer(fds, fdi, o)
    requires Key(IndexId(o), k) in dir && dir[Key(IndexId(o), k)] == t
    ensures FdsTrack(m, dir, fds[fdi := fds[fdi].(cursorPix := t, cursorSpan := k, size := size)], o)
    ensures Writer(fds[fdi := fds[fdi].(cursorPix := t, cursorSpan := k, size := size)], fdi, o)
    ensures FdsTrack(m, dir, fds[fdi := fds[fdi].(size := size)], o)
    ensures Writer(fds[fdi := fds[fdi].(size := size)], fdi, o)
  {
    var fds' := fds[fdi := fds[fdi].(cursorPix := t, cursorSpan := k, size := size)];
    var fds'' := fds[fdi := fds[fdi].(size := size)];
    forall i | 0 <= i < |fds|
      ensures FdPlaced(dir, fds'[i]) && (ObjectId(fds'[i].objId) != o ==> FdOk(m, dir, fds'[i]))
      ensures FdPlaced(dir, fds''[i]) && (ObjectId(fds''[i].objId) != o ==> FdOk(m, dir, fds''[i]))
    {
      assert FdPlaced(dir, fds[i]) && (ObjectId(fds[i].objId) != o ==> FdOk(m, dir, fds[i]));
    }
  }

  // What is on flash while an append goes on.

  /** The length word of object `o` on flash. */
  ghost predicate HeaderHas(fl: Flash, dir: Dir, o: int, word: int) {
    var x := Key(IndexId(o), 0);
    x in dir && 0 <= dir[x] < |fl.pages| && HeaderSize(fl.pages[dir[x]]) == word
  }

  /** Index pages are as they were. */
  ghost predicate IndexesSame(v: Flash, w: Flash) {
    && SameSize(v, w)
    && forall x :: 0 <= x < |v.lu| && Live(v.lu[x]) && IsIndexId(v.lu[x]) ==> w.lu[x] == v.lu[x] && w.pages[x] == v.pages[x]
  }

  /** The header page in the buffer differs from the stored one in nothing but the length and the
      references to pages behind the first `off` bytes, which the stored one does not have. */
  ghost predicate Unfinished(g: Geometry, fl: Flash, t: int, body: Body, off: nat)
    requires g.Valid()
  {
    && 0 <= t < |fl.pages| && fl.pages[t].body.Header? && body.Header?
    && body.name == fl.pages[t].body.name && |body.refs| == |fl.pages[t].body.refs| == g.hdrLen
    && forall j :: 0 <= j < g.hdrLen ==>
         if j < PageCount(g, off) then body.refs[j] == fl.pages[t].body.refs[j] else fl.pages[t].body.refs[j] == NONE
  }

  /** The header of object `o` is in the same slot. */
  ghost predicate HeaderKept(dir: Dir, dir': Dir, o: int) {
    var x := Key(IndexId(o), 0);
    (x in dir <==> x in dir') && (x in dir ==> dir'[x] == dir[x])
  }

  lemma HeaderStays(g: Geometry, v: Flash, w: Flash, dir: Dir, dir': Dir, o: int, word: int)
    requires g.Valid() && Linked(g, v, dir) && IndexesSame(v, w) && HeaderKept(dir, dir', o) && 1 <= o <= MAX_ID && HeaderHas(v, dir, o, word)
    ensures HeaderHas(w, dir', o, word)
  {
    hide RefsLead;
    hide DataReferred;
    hide GoodPages;
    assert KeyAt(v, dir[Key(IndexId(o), 0)]) == Key(IndexId(o), 0);
  }

  // The states of an append: an index page in the buffer, or everything stored.

  /** Index page `k` is in the buffer; `n` bytes of the file are in place. The buffer only
      extends the stored page wherever it will be programmed over it. */
  ghost predicate Filling(g: Geometry, fl: Flash, fds: seq<Fd>, fdi: nat, dir: Dir, m0: Image, o: int, off: nat, data: seq<int>, n: nat, k: nat, t: nat, work: Page) {
    && Held(g, fl, dir, o, k, t, work)
    && Grown(g, m0, Seen(fl, dir, t, work), o, off, data, n, k)
    && (k > 0 || off == 0 ==> Extends(fl.pages[t].body, work.body))
    && (k == 0 && off == 0 ==> HeaderSize(fl.pages[t]) == NONE)
    && FdsTrack(Seen(fl, dir, t, work), dir, fds, o)
    && Writer(fds, fdi, o)
  }

  /** Nothing is in the buffer, and the stored length counts the `n` bytes in place; the index
      pages go up to `top`. */
  ghost predicate Settled(g: Geometry, fl: Flash, fds: seq<Fd>, fdi: nat, dir: Dir, m0: Image, o: int, off: nat, data: seq<int>, n: nat, top: nat) {
    && Linked(g, fl, dir)
    && Grown(g, m0, Meaning(fl, dir), o, off, data, n, top)
    && Meaning(fl, dir)[Key(IndexId(o), 0)].size == (if n == 0 then NONE else n)
    && FdsTrack(Meaning(fl, dir), dir, fds, o)
    && Writer(fds, fdi, o)
  }

  /** Nothing is in the buffer; the stored length may be another. */
  ghost predicate Grounded(g: Geometry, fl: Flash, fds: seq<Fd>, fdi: nat, dir: Dir, m0: Image, o: int, off: nat, data: seq<int>, n: nat, top: nat) {
    && Linked(g, fl, dir)
    && Grown(g, m0, Meaning(fl, dir), o, off, data, n, top)
    && FdsTrack(Meaning(fl, dir), dir, fds, o)
    && Writer(fds, fdi, o)
  }

  /** What the stored header says while an append goes on: `word` is its length word. With the header
      itself in the buffer it is as it was; with a later index page in the buffer it has been stored. */
  ghost predicate Backed(g: Geometry, fl: Flash, dir: Dir, o: int, off: nat, n: nat, k: nat, t: nat, work: Page, word: int)
    requires g.Valid()
  {
    && HeaderHas(fl, dir, o, word)
    && (k == 0 ==> word == (if off == 0 then NONE else off) && (off > 0 ==> Unfinished(g, fl, t, work.body, off)))
    && (k > 0 ==> 0 < word && off <= word <= n)
  }

  /** How an append leaves the medium, whether or not it wrote everything: `n` bytes of the file are in
      place, its index pages go up to `top`, and the header says `word`, which is 0 exactly if nothing
      was written to an empty file. Only if the file was not empty, and the append stayed under the
      header page but needed more pages and could not store it, the new references are lost. */
  ghost predicate Ended(g: Geometry, m0: Image, fl: Flash, loss: Loss, dir: Dir, fds: seq<Fd>, fdi: nat, o: int, off: nat, data: seq<int>, n: nat, word: int, top: nat)
    requires g.Valid()
  {
    && RealLoss(fl, loss)
    && Grounded(g, Mended(fl, loss), fds, fdi, dir, m0, o, off, data, n, top)
    && HeaderHas(fl, dir, o, word)
    && (word == 0 <==> n == 0) && off <= word <= n && fdi < |fds| && (word == n ==> Length(fds[fdi].size) == n)
    && (loss.Unstored? <==> off > 0 && top == 0 && PageCount(g, off) < PageCount(g, n) && word < n)
    && (loss.Unstored? ==> word == off && Key(IndexId(o), 0) in dir && dir[Key(IndexId(o), 0)] == loss.t && Unfinished(g, fl, loss.t, loss.body, off))
  }

  /** A chunk of data at the start of a page, in a page of its own. */
  lemma ChunkAdded(g: Geometry, v: Flash, mid: Flash, fds: seq<Fd>, fdi: nat, dir: Dir, m0: Image, o: int, off: nat, data: seq<int>, n: nat, k: nat, t: nat, work: Page, f: nat, w: nat)
    requires Filling(g, v, fds, fdi, dir, m0, o, off, data, n, k, t, work) && QuickStep(v, mid)
    requires f < |mid.lu| && mid.lu[f] == FREE
    requires Rem(n, g.dps) == 0 && k == IxSpan(g, Quot(n, g.dps)) && 0 < w <= g.dps && n + w <= off + |data|
    ensures
      var q := Quot(n, g.dps);
      var bytes := Overlay(Ones(g.dps), 0, data[n - off..n - off + w]);
      var work' := work.(body := PutRef(work.body, IxEntry(g, q), f));
      Filling(g, Placed(mid, f, o, Page(o, q, DATA_FLAGS, Data(bytes))), fds, fdi, dir[Key(o, q) := f], m0, o, off, data, n + w, k, t, work')
  {
    hide Linked;
    hide Quot;
    hide Rem;
    hide Extends;
    hide FdsTrack;
    hide Overlay;
    hide QuickStep;
    hide IxSpan;
    var q, m := Quot(n, g.dps), Seen(v, dir, t, work);
    var bytes := Overlay(Ones(g.dps), 0, data[n - off..n - off + w]);
    HeldQuick(g, v, mid, dir, o, k, t, work);
    LastPage(g, m, o, n, k);
    assert Key(o, q) !in dir;
    HeldAdd(g, mid, dir, o, k, t, work, f, q, bytes);
    GrowPage(g, m0, m, o, off, data, n, k, w);
    TrackSame(m, m[Key(o, q) := Data(bytes)], dir, dir[Key(o, q) := f], fds, o);
  }

  /** What is programmed when bytes are added to a page: they, and nothing anywhere else. */
  function TailWrite(g: Geometry, r: nat, chunk: seq<int>): Page
    requires r + |chunk| <= g.dps
  {
    Page(-1, -1, ALL_SET, Data(Overlay(Ones(g.dps), r, chunk)))
  }

  /** NOR safety of filling up a page: behind its last byte the page is erased. */
  lemma TailExact(g: Geometry, was: Page, r: nat, chunk: seq<int>)
    requires was.body.Data? && |was.body.bytes| == g.dps && r + |chunk| <= g.dps
    requires forall x :: r <= x < g.dps ==> was.body.bytes[x] == -1
    ensures ProgramPage(was, TailWrite(g, r, chunk)) == was.(body := Data(Overlay(was.body.bytes, r, chunk)))
  {
    hide Overlay;
    assert AndWords(was.body.bytes, Overlay(Ones(g.dps), r, chunk)) == Overlay(was.body.bytes, r, chunk);
  }

  /** A chunk of data behind the last byte of a page that is not full. */
  lemma ChunkExtended(g: Geometry, v: Flash, fds: seq<Fd>, fdi: nat, dir: Dir, m0: Image, o: int, off: nat, data: seq<int>, n: nat, k: nat, t: nat, work: Page, w: nat)
    requires Filling(g, v, fds, fdi, dir, m0, o, off, data, n, k, t, work)
    requires Rem(n, g.dps) > 0 && k == IxSpan(g, Quot(n, g.dps)) && 0 < w <= g.dps - Rem(n, g.dps) && n + w <= off + |data|
    ensures
      var i, chunk := IxEntry(g, Quot(n, g.dps)), data[n - off..n - off + w];
      && i < |RefsOf(work.body)| && 0 <= RefsOf(work.body)[i] < |v.pages| && PutRef(work.body, i, RefsOf(work.body)[i]) == work.body
      && Live(v.lu[RefsOf(work.body)[i]]) && v.lu[RefsOf(work.body)[i]] == o
      && DataCheck(g, v, RefsOf(work.body)[i], o, Quot(n, g.dps)) == OK
      && Filling(g, Apply(g, v, PageWrite(RefsOf(work.body)[i], TailWrite(g, Rem(n, g.dps), chunk))), fds, fdi, dir, m0, o, off, data, n + w, k, t, work)
  {
    hide Quot;
    hide Rem;
    hide Extends;
    hide FdsTrack;
    hide Overlay;
    hide IxSpan;
    hide IxEntry;
    hide Linked;
    var q, r, m, chunk := Quot(n, g.dps), Rem(n, g.dps), Seen(v, dir, t, work), data[n - off..n - off + w];
    var x := Key(o, q);
    LastPage(g, m, o, n, k);
    HeldRef(g, v, dir, o, k, t, work, q);
    var s := dir[x];
    var bytes := v.pages[s].body.bytes;
    HeldData(g, v, dir, o, k, t, work, q);
    TailExact(g, v.pages[s], r, chunk);
    HeldRewrite(g, v, dir, o, k, t, work, s, q, Overlay(bytes, r, chunk));
    GrowPage(g, m0, m, o, off, data, n, k, w);
    TrackSame(m, m[x := Data(Overlay(bytes, r, chunk))], dir, dir, fds, o);
  }

  /** The length in the header changes, in the buffer only. */
  lemma SizeSet(g: Geometry, v: Flash, fds: seq<Fd>, fdi: nat, dir: Dir, m0: Image, o: int, off: nat, data: seq<int>, n: nat, t: nat, work: Page, size: int)
    requires Filling(g, v, fds, fdi, dir, m0, o, off, data, n, 0, t, work)
    ensures work.body.Header?
    ensures Filling(g, v, fds, fdi, dir, m0, o, off, data, n, 0, t, work.(body := work.body.(size := size)))
    ensures Key(IndexId(o), 0) in dir && dir[Key(IndexId(o), 0)] == t
    ensures
      var m := Seen(v, dir, t, work.(body := work.body.(size := size)));
      Key(IndexId(o), 0) in m && m[Key(IndexId(o), 0)].Header? && m[Key(IndexId(o), 0)].size == size
  {
    hide Linked;
    hide FdsTrack;
    hide Extends;
    var m, x := Seen(v, dir, t, work), Key(IndexId(o), 0);
    HeldPage(g, v, dir, o, 0, t, work);
    HeldSize(g, v, dir, o, t, work, size);
    GrowSize(g, m0, m, o, off, data, n, 0, size);
    TrackSame(m, m[x := m[x].(size := size)], dir, dir, fds, o);
  }

  /** An index page body with another length, where it has one, and other references. */
  function ReBody(b: Body, size: int, refs: seq<int>): Body {
    match b
    case Header(_, name, _) => Header(size, name, refs)
    case Index(_) => Index(refs)
    case _ => b
  }

  /** In front of the page for position `n` there are all others. */
  lemma PagesBefore(g: Geometry, v: Flash, fds: seq<Fd>, fdi: nat, dir: Dir, m0: Image, o: int, off: nat, data: seq<int>, n: nat, k: nat, t: nat, work: Page)
    requires Filling(g, v, fds, fdi, dir, m0, o, off, data, n, k, t, work) && Rem(n, g.dps) == 0
    ensures Key(o, Quot(n, g.dps)) !in dir && (forall p: nat :: p < Quot(n, g.dps) ==> Key(o, p) in dir) && 1 <= o <= MAX_ID
  {
    hide Linked;
    hide Quot;
    hide Rem;
    hide Extends;
    hide FdsTrack;
    PagePosition(g, n, g.dps);
    var m := Seen(v, dir, t, work);
    assert m.Keys == dir.Keys;
  }

  /** A data page was written where there was none, or bytes into a data page. */
  lemma IndexesKept(g: Geometry, v: Flash, mid: Flash, f: nat, id: int, page: Page)
    requires QuickStep(v, mid) && f < |mid.lu| && mid.lu[f] == FREE
    ensures |mid.lu| == |mid.pages| && IndexesSame(v, Placed(mid, f, id, page)) && IndexesSame(v, mid)
  {
  }

  /** Puts a chunk of data into a data page: a new page at the start of a page, otherwise the page
      there is. A new page is refused exactly if no page can be had. */
  method PutChunk(fs: Spiffs, fdi: nat, k: nat, t: nat, work0: Page, span: nat, pageOffs: nat, w: nat, ghost dir0: Dir, ghost m0: Image, o: int, off: nat, data: seq<int>, n: nat)
    returns (res: Status, work: Page, ghost dir: Dir)
    requires fs.Valid() && Filling(fs.g, fs.flash, fs.fds, fdi, dir0, m0, o, off, data, n, k, t, work0)
    requires span == Quot(n, fs.g.dps) && pageOffs == Rem(n, fs.g.dps) && k == IxSpan(fs.g, span)
    requires 0 < w <= fs.g.dps - pageOffs && off <= n && n + w <= off + |data| && 1 <= o <= MAX_ID
    modifies fs`flash, fs`log, fs`freeBlocks, fs`maxEraseCount, fs`pagesDeleted, fs`pagesAllocated
    modifies fs`freeCursorBlock, fs`freeCursorEntry
    ensures fs.Valid() && fs.Drift() == old(fs.Drift())
    ensures old(fs.Spare()) >= 1 ==> res == OK && fs.Spare() >= old(fs.Spare()) - 1
    ensures Filling(fs.g, fs.flash, fs.fds, fdi, dir, m0, o, off, data, if res == OK then n + w else n, k, t, work)
    ensures IndexesSame(old(fs.flash), fs.flash) && Followed(dir0, fs.fds, dir, fs.fds, fdi, off)
    ensures HeaderKept(dir0, dir, o)
    ensures |RefsOf(work.body)| == |RefsOf(work0.body)| && work.body == ReBody(work0.body, HeaderSize(work), RefsOf(work.body))
    ensures forall j :: 0 <= j < |RefsOf(work.body)| && !(res == OK && pageOffs == 0 && j == IxEntry(fs.g, span)) ==> RefsOf(work.body)[j] == RefsOf(work0.body)[j]
    ensures old(fs.freeBlocks) >= 1 && !fs.cleaning ==> fs.freeBlocks >= 1 && (res != OK ==> unchanged(fs) && work == work0 && dir == dir0 && !fs.CanTake())
    ensures res == OK <==> pageOffs > 0 || old(fs.CanTake())
    ensures !fs.cleaning ==> if res == OK then Spent(old(fs.Stock({})), fs.Stock({}), if pageOffs == 0 then 1 else 0, 0) else Ends(old(fs.Stock({})), 0, 0)
  {
    hide FreeSuffix;
    hide CursorOk;
    hide All;
    hide FreeBlocks;
    hide ErasedFree;
    hide DeadMarked;
    hide Filling;
    hide Geometry.Total;
    hide Quot;
    hide Rem;
    hide IxSpan;
    hide IxEntry;
    hide QuickStep;
    hide TailWrite;
    hide Overlay;
    hide Followed;
    hide IndexesSame;
    work, dir := work0, dir0;
    var g, chunk := fs.g, data[n - off..n - off + w];
    ghost var v := fs.flash;
    FollowRefl(dir, fs.fds, fdi, off);
    SameBody(work.body, work);
    if pageOffs == 0 {
      var to;
      ghost var mid;
      PagesBefore(g, v, fs.fds, fdi, dir, m0, o, off, data, n, k, t, work);
      res, to, mid := fs.AllocateData(o, span, Flags(true, false, true, true, true), Data(Overlay(Ones(g.dps), pageOffs, chunk)), true);
      if res == OK {
        ChunkAdded(g, v, mid, fs.fds, fdi, dir, m0, o, off, data, n, k, t, work, to, w);
        IndexesKept(g, v, mid, to, o, Page(o, span, DATA_FLAGS, Data(Overlay(Ones(g.dps), 0, chunk))));
        FollowGrow(dir, fs.fds, o, span, to, fdi, off);
        dir := dir[Key(o, span) := to];
        PutSame(work, IxEntry(g, span), to);
        work := work.(body := PutRef(work.body, IxEntry(g, span), to));
      } else {
        QuickIndexes(v, mid);
        FillingQuick(g, v, mid, fs.fds, fdi, dir, m0, o, off, data, n, k, t, work);
      }
    } else {
      ChunkExtended(g, v, fs.fds, fdi, dir, m0, o, off, data, n, k, t, work, w);
      var page := RefsOf(work.body)[IxEntry(g, span)];
      res := DataCheck(g, fs.flash, page, o, span);
      if res == OK {
        fs.WritePage(page, TailWrite(g, pageOffs, chunk));
        DataWritten(g, v, page, o, TailWrite(g, pageOffs, chunk));
      }
    }
  }

  lemma SameBody(b: Body, p: Page)
    requires p.body == b
    ensures b == ReBody(b, HeaderSize(p), RefsOf(b))
  {
  }

  lemma PutSame(p: Page, i: int, r: int)
    ensures var p' := p.(body := PutRef(p.body, i, r));
      && |RefsOf(p'.body)| == |RefsOf(p.body)| && p'.body == ReBody(p.body, HeaderSize(p'), RefsOf(p'.body))
      && forall j :: 0 <= j < |RefsOf(p.body)| && j != i ==> RefsOf(p'.body)[j] == RefsOf(p.body)[j]
  {
  }

  lemma QuickIndexes(v: Flash, mid: Flash)
    requires QuickStep(v, mid)
    ensures IndexesSame(v, mid)
  {
  }

  lemma DataWritten(g: Geometry, v: Flash, s: nat, o: int, page: Page)
    requires |v.lu| == |v.pages| && s < |v.lu| && v.lu[s] == o && 1 <= o
    ensures IndexesSame(v, Apply(g, v, PageWrite(s, page)))
  {
  }

  /** Writes one chunk of data, and notes the length so far in the header page, if that is the one in
      the buffer. */
  method WriteChunk(fs: Spiffs, fdi: nat, k: nat, t: nat, work0: Page, span: nat, pageOffs: nat, w: nat, ghost dir0: Dir, ghost m0: Image, o: int, off: nat, data: seq<int>, n: nat)
    returns (res: Status, work: Page, ghost dir: Dir)
    requires fs.Valid() && Filling(fs.g, fs.flash, fs.fds, fdi, dir0, m0, o, off, data, n, k, t, work0)
    requires span == Quot(n, fs.g.dps) && pageOffs == Rem(n, fs.g.dps) && k == IxSpan(fs.g, span)
    requires 0 < w <= fs.g.dps - pageOffs && off <= n && n + w <= off + |data| && 1 <= o <= MAX_ID
    modifies fs`flash, fs`log, fs`freeBlocks, fs`maxEraseCount, fs`pagesDeleted, fs`pagesAllocated
    modifies fs`freeCursorBlock, fs`freeCursorEntry
    ensures fs.Valid() && fs.Drift() == old(fs.Drift())
    ensures old(fs.Spare()) >= 1 ==> res == OK && fs.Spare() >= old(fs.Spare()) - 1
    ensures Filling(fs.g, fs.flash, fs.fds, fdi, dir, m0, o, off, data, if res == OK then n + w else n, k, t, work)
    ensures IndexesSame(old(fs.flash), fs.flash) && Followed(dir0, fs.fds, dir, fs.fds, fdi, off)
    ensures HeaderKept(dir0, dir, o)
    ensures |RefsOf(work.body)| == |RefsOf(work0.body)| && work.body == ReBody(work0.body, HeaderSize(work), RefsOf(work.body))
    ensures forall j :: 0 <= j < |RefsOf(work.body)| && !(res == OK && pageOffs == 0 && j == IxEntry(fs.g, span)) ==> RefsOf(work.body)[j] == RefsOf(work0.body)[j]
    ensures old(fs.freeBlocks) >= 1 && !fs.cleaning ==> fs.freeBlocks >= 1 && (res != OK ==> unchanged(fs) && work == work0 && dir == dir0 && !fs.CanTake())
    ensures res == OK <==> pageOffs > 0 || old(fs.CanTake())
    ensures !fs.cleaning ==> if res == OK then Spent(old(fs.Stock({})), fs.Stock({}), if pageOffs == 0 then 1 else 0, 0) else Ends(old(fs.Stock({})), 0, 0)
  {
    hide FreeSuffix;
    hide CursorOk;
    hide All;
    hide FreeBlocks;
    hide ErasedFree;
    hide DeadMarked;
    hide Filling;
    hide Geometry.Total;
    hide Quot;
    hide Rem;
    hide IxSpan;
    hide IxEntry;
    hide QuickStep;
    hide TailWrite;
    hide Overlay;
    hide Followed;
    hide IndexesSame;
    res, work, dir := PutChunk(fs, fdi, k, t, work0, span, pageOffs, w, dir0, m0, o, off, data, n);
    if res == OK && k == 0 {
      SizeSet(fs.g, fs.flash, fs.fds, fdi, dir, m0, o, off, data, n + w, t, work, n);
      work := work.(body := work.body.(size := n));
    }
  }

  lemma FillingQuick(g: Geometry, v: Flash, mid: Flash, fds: seq<Fd>, fdi: nat, dir: Dir, m0: Image, o: int, off: nat, data: seq<int>, n: nat, k: nat, t: nat, work: Page)
    requires Filling(g, v, fds, fdi, dir, m0, o, off, data, n, k, t, work) && QuickStep(v, mid)
    ensures Filling(g, mid, fds, fdi, dir, m0, o, off, data, n, k, t, work)
  {
    hide Linked;
    hide FdsTrack;
    hide Extends;
    hide Grown;
    HeldQuick(g, v, mid, dir, o, k, t, work);
  }

  // Storing the index page in the buffer, and the new length.

  lemma WriterTold(fds: seq<Fd>, fds': seq<Fd>, fdi: nat, ev: IxEvent, o: int, id: int, k: nat, f: int, size: int)
    requires Writer(fds, fdi, o) && |fds'| == |fds| && ev != IxDeleted && fds'[fdi] == EventFd(fds[fdi], ev, id, k, f, size)
    ensures Writer(fds', fdi, o)
    ensures k == 0 && ObjectId(id) == o ==> fds'[fdi].hdr == f
  {
  }

  /** The header went to slot `dst` with length `n`, and the descriptors were told. */
  lemma HeaderTold(g: Geometry, m0: Image, m: Image, w: Flash, dir: Dir, fds: seq<Fd>, fds': seq<Fd>, fdi: nat, ev: IxEvent, o: int, off: nat, data: seq<int>, n: nat, k: nat, dst: nat)
    requires g.Valid() && Grown(g, m0, m, o, off, data, n, k) && FdsTrack(m, dir, fds, o) && Writer(fds, fdi, o)
    requires n > 0 && ev != IxDeleted
    requires
      var x, d := Key(IndexId(o), 0), dir[Key(IndexId(o), 0) := dst];
      && Linked(g, w, d) && x in m && m[x].Header? && Meaning(w, d) == m[x := Header(n, m[x].name, [])] && (m[x].refs == [])
    requires |fds'| == |fds| && forall i :: 0 <= i < |fds| ==>
      fds'[i] == var e := EventFd(fds[i], ev, IndexId(o), 0, dst, n); if i == fdi then e.(hdr := dst) else e
    ensures Settled(g, w, fds', fdi, dir[Key(IndexId(o), 0) := dst], m0, o, off, data, n, k)
    ensures Consistent(g, w, dir[Key(IndexId(o), 0) := dst], fds')
  {
    hide Linked;
    hide FdsTrack;
    hide FdsOk;
    hide Grown;
    hide EventFd;
    var x, d := Key(IndexId(o), 0), dir[Key(IndexId(o), 0) := dst];
    var m' := m[x := Header(n, m[x].name, [])];
    assert m' == m[x := m[x].(size := n)];
    GrowSize(g, m0, m, o, off, data, n, k, n);
    var told := EventFd(fds[fdi], ev, IndexId(o), 0, dst, n);
    WriterTold(fds, fds[fdi := told], fdi, ev, o, IndexId(o), 0, dst, n);
    assert told.(hdr := dst) == told;
    forall i | 0 <= i < |fds|
      ensures fds'[i] == EventFd(fds[i], ev, IndexId(o), 0, dst, n)
    {
    }
    WriterTold(fds, fds', fdi, ev, o, IndexId(o), 0, dst, n);
    TrackEvent(m, m', dir, fds, fds', ev, o, IndexId(o), 0, dst, n);
  }

  /** After the buffer was programmed over its page. */
  lemma Programmed(g: Geometry, v: Flash, fds: seq<Fd>, fds': seq<Fd>, fdi: nat, dir: Dir, m0: Image, o: int, off: nat, data: seq<int>, n: nat, k: nat, t: nat, work: Page, ev: IxEvent, size: int)
    requires Filling(g, v, fds, fdi, dir, m0, o, off, data, n, k, t, work) && (k > 0 || off == 0)
    requires ev != IxDeleted && |fds'| == |fds| && forall i :: 0 <= i < |fds| ==> fds'[i] == EventFd(fds[i], ev, IndexId(o), k, t, size)
    ensures
      var w := Apply(g, v, PageWrite(t, work));
      && Linked(g, w, dir) && Grown(g, m0, Meaning(w, dir), o, off, data, n, k)
      && Meaning(w, dir) == Seen(v, dir, t, work)
      && FdsTrack(Meaning(w, dir), dir, fds, o) && FdsTrack(Meaning(w, dir), dir, fds', o) && Writer(fds', fdi, o)
      && Key(IndexId(o), 0) in dir
      && (k == 0 && size > 0 && HeaderSize(work) == size ==> FdsOk(Meaning(w, dir), dir, fds') && Meaning(w, dir)[Key(IndexId(o), 0)].size == size)
      && (k == 0 ==> Meaning(w, dir)[Key(IndexId(o), 0)] == Strip(work.body))
  {
    hide Linked;
    hide FdsTrack;
    hide FdsOk;
    hide EventFd;
    hide Extends;
    hide ProgramPage;
    var m := Seen(v, dir, t, work);
    HeldStore(g, v, dir, o, k, t, work);
    HeldPage(g, v, dir, o, k, t, work);
    assert dir[Key(IndexId(o), k) := t] == dir;
    WriterTold(fds, fds', fdi, ev, o, IndexId(o), k, t, size);
    TrackEvent(m, m, dir, fds, fds', ev, o, IndexId(o), k, t, size);
  }

  lemma HeaderPlaced(dir: Dir, fds: seq<Fd>, fdi: nat, o: int, m: Image)
    requires FdsTrack(m, dir, fds, o) && Writer(fds, fdi, o)
    ensures Key(IndexId(o), 0) in dir && dir[Key(IndexId(o), 0)] == fds[fdi].hdr
    ensures ObjectId(fds[fdi].objId) == o
  {
  }

  /** Every page is somewhere. */
  lemma Somewhere(g: Geometry, fl: Flash, dir: Dir)
    requires Linked(g, fl, dir)
    ensures forall k: Key :: k in dir ==> dir[k] != NONE
  {
    hide RefsLead;
    hide DataReferred;
    hide GoodPages;
  }

  /** The descriptors were told of a new header page without new references. */
  lemma HeaderFollows(g: Geometry, fl: Flash, dir: Dir, fds: seq<Fd>, fds': seq<Fd>, fdi: nat, o: int, dst: nat, n: nat, off: nat)
    requires g.Valid() && Linked(g, fl, dir) && |fds'| == |fds| && 1 <= o <= MAX_ID && n > 0 && n >= off
    requires forall i :: 0 <= i < |fds| ==> fds'[i] == var e := EventFd(fds[i], IxHeaderUpdated, IndexId(o), 0, dst, n); if i == fdi then e.(hdr := dst) else e
    ensures Followed(dir, fds, dir[Key(IndexId(o), 0) := dst], fds', fdi, off)
  {
    hide Linked;
    hide EventFd;
    hide Followed;
    Somewhere(g, fl, dir);
    FollowEvent(g, dir, dir[Key(IndexId(o), 0) := dst], fds, fds', fdi, o, IxHeaderUpdated, IndexId(o), 0, dst, n, off);
  }

  /** The descriptors were told of the index page in the buffer, stored to slot `f`. */
  lemma HeldFollows(g: Geometry, v: Flash, dir: Dir, fds: seq<Fd>, fds': seq<Fd>, fdi: nat, o: int, k: nat, t: nat, work: Page, f: nat, size: int, off: nat)
    requires Held(g, v, dir, o, k, t, work) && |fds'| == |fds| && (k == 0 && size != 0 ==> size > 0 && size >= off)
    requires forall i :: 0 <= i < |fds| ==> fds'[i] == var e := EventFd(fds[i], PageStored(g, k, work.body), IndexId(o), k, f, size); if i == fdi && k == 0 then e.(hdr := f) else e
    ensures Followed(dir, fds, dir[Key(IndexId(o), k) := f], fds', fdi, off)
  {
    hide Linked;
    hide EventFd;
    hide Followed;
    hide FirstSpan;
    var x, u := Key(IndexId(o), k), Patch(v, t, work.body);
    HeldPage(g, v, dir, o, k, t, work);
    LinkedRefs(g, u, dir, o, k);
    assert IxRefs(g, k, work.body) == RefsAt(u, dir, x);
    RefsSame(g, dir, x, f, o, k, IxRefs(g, k, work.body));
    FollowEvent(g, dir, dir[x := f], fds, fds', fdi, o, PageStored(g, k, work.body), IndexId(o), k, f, size, off);
  }

  lemma SettledHeader(g: Geometry, fl: Flash, fds: seq<Fd>, fdi: nat, dir: Dir, m0: Image, o: int, off: nat, data: seq<int>, n: nat, top: nat)
    requires Settled(g, fl, fds, fdi, dir, m0, o, off, data, n, top)
    ensures HeaderHas(fl, dir, o, if n == 0 then NONE else n)
  {
    hide RefsLead;
    hide DataReferred;
    hide GoodPages;
    hide FdsTrack;
    var x := Key(IndexId(o), 0);
    assert x in Meaning(fl, dir);
  }

  lemma GrownReach(g: Geometry, m0: Image, m: Image, o: int, off: nat, data: seq<int>, n: nat, top: nat)
    requires g.Valid() && Grown(g, m0, m, o, off, data, n, top)
    ensures off <= n <= off + |data|
  {
  }

  /** Writes a new copy of the header with the new length. */
  method StoreLength(fs: Spiffs, fdi: nat, k: nat, ghost dir0: Dir, ghost m0: Image, o: int, off: nat, ghost data: seq<int>, n: nat)
    returns (res: Status, ghost dir: Dir)
    requires fs.Valid() && Linked(fs.g, fs.flash, dir0) && Grown(fs.g, m0, Meaning(fs.flash, dir0), o, off, data, n, k)
    requires FdsTrack(Meaning(fs.flash, dir0), dir0, fs.fds, o) && Writer(fs.fds, fdi, o)
    requires n > 0
    modifies fs`flash, fs`log, fs`freeBlocks, fs`maxEraseCount, fs`pagesDeleted, fs`pagesAllocated
    modifies fs`freeCursorBlock, fs`freeCursorEntry, fs`fds
    ensures fs.Valid() && fs.Drift() == old(fs.Drift())
    ensures old(fs.Spare()) >= 1 ==> res == OK && fs.Spare() >= old(fs.Spare()) - 1
    ensures old(fs.freeBlocks) >= 1 && !fs.cleaning ==> fs.freeBlocks >= 1 && (res != OK ==> unchanged(fs) && dir == dir0 && !fs.CanTake())
    ensures res == OK <==> old(fs.CanTake())
    ensures !fs.cleaning ==> if res == OK then Spent(old(fs.Stock({})), fs.Stock({}), 1, 1) else Ends(old(fs.Stock({})), 0, 0)
    ensures Followed(dir0, old(fs.fds), dir, fs.fds, fdi, off) && (res == OK ==> HeaderHas(fs.flash, dir, o, n))
    ensures res == OK ==> Settled(fs.g, fs.flash, fs.fds, fdi, dir, m0, o, off, data, n, k) && Consistent(fs.g, fs.flash, dir, fs.fds)
  {
    hide FreeSuffix;
    hide CursorOk;
    hide All;
    hide FreeBlocks;
    hide ErasedFree;
    hide DeadMarked;
    hide Linked;
    hide FdsOk;
    hide FdsTrack;
    hide Grown;
    hide EventFd;
    hide Extends;
    hide Geometry.Total;
    hide Geometry.BlockStart;
    hide IxSpan;
    hide QuickStep;
    hide Moved;
    hide MoveOps;
    hide Meaning;
    hide GoodPage;
    hide Followed;
    hide HeaderHas;
    ghost var v, fds0 := fs.flash, fs.fds;
    dir := dir0;
    HeaderPlaced(dir, fs.fds, fdi, o, Meaning(v, dir));
    HeldLoad(fs.g, v, dir, o, 0);
    var hdr, dst := fs.fds[fdi].hdr, 0;
    HeldPage(fs.g, v, dir, o, 0, hdr, v.pages[hdr]);
    ghost var mid;
    res, dst, mid := fs.UpdateIndexHdr(Some(fdi), fs.fds[fdi].objId, hdr, None, None, n);
    FollowRefl(dir, fds0, fdi, off);
    GrownReach(fs.g, m0, Meaning(v, dir), o, off, data, n, k);
    if res == OK {
      HeaderFollows(fs.g, v, dir, fds0, fs.fds, fdi, o, dst, n, off);
      HeldHeader(fs.g, v, mid, dir, o, hdr, v.pages[hdr], dst, None, n);
      HeaderTold(fs.g, m0, Meaning(v, dir), fs.flash, dir, fds0, fs.fds, fdi, IxHeaderUpdated, o, off, data, n, k, dst);
      dir := dir[Key(IndexId(o), 0) := dst];
      SettledHeader(fs.g, fs.flash, fs.fds, fdi, dir, m0, o, off, data, n, k);
    }
  }

  /** Writes a new copy of the header from the buffer, with the new length. */
  method StoreHeader(fs: Spiffs, fdi: nat, t: nat, work: Page, ghost dir0: Dir, ghost m0: Image, o: int, off: nat, ghost data: seq<int>, n: nat)
    returns (res: Status, ghost dir: Dir)
    requires fs.Valid() && Filling(fs.g, fs.flash, fs.fds, fdi, dir0, m0, o, off, data, n, 0, t, work)
    requires n > 0 && 1 <= o <= MAX_ID
    modifies fs`flash, fs`log, fs`freeBlocks, fs`maxEraseCount, fs`pagesDeleted, fs`pagesAllocated
    modifies fs`freeCursorBlock, fs`freeCursorEntry, fs`fds
    ensures fs.Valid() && fs.Drift() == old(fs.Drift())
    ensures old(fs.Spare()) >= 1 ==> res == OK && fs.Spare() >= old(fs.Spare()) - 1
    ensures old(fs.freeBlocks) >= 1 && !fs.cleaning ==> fs.freeBlocks >= 1 && (res != OK ==> unchanged(fs) && dir == dir0 && !fs.CanTake())
    ensures res == OK <==> old(fs.CanTake())
    ensures !fs.cleaning ==> if res == OK then Spent(old(fs.Stock({})), fs.Stock({}), 1, 1) else Ends(old(fs.Stock({})), 0, 0)
    ensures Followed(dir0, old(fs.fds), dir, fs.fds, fdi, off) && (res == OK ==> HeaderHas(fs.flash, dir, o, n))
    ensures res == OK ==> fdi < |fs.fds| && Settled(fs.g, fs.flash, fs.fds, fdi, dir, m0, o, off, data, n, 0) && Consistent(fs.g, fs.flash, dir, fs.fds)
  {
    hide FreeSuffix;
    hide CursorOk;
    hide All;
    hide FreeBlocks;
    hide ErasedFree;
    hide DeadMarked;
    hide Linked;
    hide FdsOk;
    hide FdsTrack;
    hide Grown;
    hide EventFd;
    hide Extends;
    hide Geometry.Total;
    hide Geometry.BlockStart;
    hide IxSpan;
    hide QuickStep;
    hide Moved;
    hide MoveOps;
    hide Meaning;
    hide GoodPage;
    hide Followed;
    hide HeaderHas;
    ghost var v, fds0 := fs.flash, fs.fds;
    dir := dir0;
    HeldPage(fs.g, v, dir, o, 0, t, work);
    HeaderPlaced(dir, fs.fds, fdi, o, Seen(v, dir, t, work));
    var dst;
    ghost var mid;
    res, dst, mid := fs.UpdateIndexHdr(Some(fdi), fs.fds[fdi].objId, fs.fds[fdi].hdr, Some(work), None, n);
    FollowRefl(dir, fds0, fdi, off);
    GrownReach(fs.g, m0, Seen(v, dir, t, work), o, off, data, n, 0);
    if res == OK {
      EditSize(work, n);
      HeldFollows(fs.g, v, dir, fds0, fs.fds, fdi, o, 0, t, work, dst, n, off);
      HeldHeader(fs.g, v, mid, dir, o, t, work, dst, None, n);
      HeaderTold(fs.g, m0, Seen(v, dir, t, work), fs.flash, dir, fds0, fs.fds, fdi, PageStored(fs.g, 0, work.body), o, off, data, n, 0, dst);
      dir := dir[Key(IndexId(o), 0) := dst];
      SettledHeader(fs.g, fs.flash, fs.fds, fdi, dir, m0, o, off, data, n, 0);
    }
  }

  /** With another length a header page tells the windows the same. */
  lemma EditSize(work: Page, size: int)
    requires work.body.Header? && size != 0
    ensures RefsOf(EditHeader(work, None, size).body) == RefsOf(work.body) && HeaderSize(EditHeader(work, None, size)) == size
    ensures forall g: Geometry :: PageStored(g, 0, EditHeader(work, None, size).body) == PageStored(g, 0, work.body)
  {
  }

  lemma HeaderApart(g: Geometry, v: Flash, dir: Dir, o: int, k: nat, t: nat, work: Page, word: int)
    requires Held(g, v, dir, o, k, t, work) && k > 0 && HeaderHas(v, dir, o, word)
    ensures HeaderHas(Patch(v, t, work.body), dir, o, word)
  {
    hide RefsLead;
    hide DataReferred;
    hide GoodPages;
    assert KeyAt(Patch(v, t, work.body), dir[Key(IndexId(o), 0)]) == Key(IndexId(o), 0);
  }

  /** Stores index page `k` in the buffer, which is not the header, over its page, and the length in
      a new copy of the header. */
  method StoreIndexPage(fs: Spiffs, fdi: nat, k: nat, t: nat, work: Page, ghost dir0: Dir, ghost m0: Image, o: int, off: nat, ghost data: seq<int>, n: nat)
    returns (res: Status, ghost dir: Dir)
    requires fs.Valid() && Filling(fs.g, fs.flash, fs.fds, fdi, dir0, m0, o, off, data, n, k, t, work)
    requires n > 0 && k > 0 && 1 <= o <= MAX_ID
    modifies fs`flash, fs`log, fs`freeBlocks, fs`maxEraseCount, fs`pagesDeleted, fs`pagesAllocated
    modifies fs`freeCursorBlock, fs`freeCursorEntry, fs`fds
    ensures fs.Valid() && fs.Drift() == old(fs.Drift())
    ensures old(fs.Spare()) >= 1 ==> res == OK && fs.Spare() >= old(fs.Spare()) - 1
    ensures res == OK ==> fdi < |fs.fds| && Settled(fs.g, fs.flash, fs.fds, fdi, dir, m0, o, off, data, n, k) && Consistent(fs.g, fs.flash, dir, fs.fds)
    ensures Followed(dir0, old(fs.fds), dir, fs.fds, fdi, off) && (res == OK ==> HeaderHas(fs.flash, dir, o, n))
    ensures res == OK <==> old(fs.CanTake())
    ensures !fs.cleaning ==> if res == OK then Spent(old(fs.Stock({})), fs.Stock({}), 1, 1) else Ends(old(fs.Stock({})), 0, 0)
    ensures old(fs.freeBlocks) >= 1 && !fs.cleaning ==> fs.freeBlocks >= 1
    ensures old(fs.freeBlocks) >= 1 && !fs.cleaning && res != OK ==>
      && fdi < |old(fs.fds)| == |fs.fds| && fs.fds[fdi].size == old(fs.fds)[fdi].size
      && dir == dir0 && !fs.CanTake() && Grounded(fs.g, fs.flash, fs.fds, fdi, dir, m0, o, off, data, n, k)
      && (forall word :: HeaderHas(old(fs.flash), dir, o, word) ==> HeaderHas(fs.flash, dir, o, word))
  {
    hide FreeSuffix;
    hide CursorOk;
    hide All;
    hide FreeBlocks;
    hide ErasedFree;
    hide DeadMarked;
    hide Linked;
    hide FdsOk;
    hide FdsTrack;
    hide Grown;
    hide EventFd;
    hide Extends;
    hide Geometry.Total;
    hide Geometry.BlockStart;
    hide IxSpan;
    hide QuickStep;
    hide Moved;
    hide MoveOps;
    hide Meaning;
    hide GoodPage;
    hide Followed;
    hide HeaderHas;
    hide Spiffs.CanTake;
    hide Spiffs.Spare;
    ghost var v, fds0 := fs.flash, fs.fds;
    dir := dir0;
    var objId := fs.fds[fdi].objId;
    HeldPage(fs.g, v, dir, o, k, t, work);
    HeldStore(fs.g, v, dir, o, k, t, work);
    res := IndexCheck(fs.g, fs.flash, t, objId, k);
    ProgramIndex(fs, k, t, work, objId);
    Programmed(fs.g, v, fds0, fs.fds, fdi, dir, m0, o, off, data, n, k, t, work, PageStored(fs.g, k, work.body), 0);
    HeldFollows(fs.g, v, dir, fds0, fs.fds, fdi, o, k, t, work, t, 0, off);
    assert dir[Key(IndexId(o), k) := t] == dir;
    forall word | HeaderHas(v, dir, o, word)
      ensures HeaderHas(fs.flash, dir, o, word)
    {
      HeaderApart(fs.g, v, dir, o, k, t, work, word);
    }
    ghost var fds1 := fs.fds;
    EventFields(fds0[fdi], PageStored(fs.g, k, work.body), IndexId(o), k, t, 0);
    res, dir := StoreLength(fs, fdi, k, dir, m0, o, off, data, n);
    FollowOn(dir0, fds0, dir0, fds1, dir, fs.fds, fdi, off);
  }

  /** Programs the buffer over its page and tells the descriptors. */
  method ProgramIndex(fs: Spiffs, k: nat, t: nat, work: Page, id: int)
    requires fs.Valid() && t < |fs.flash.lu| && Live(fs.flash.lu[t])
    modifies fs`flash, fs`log, fs`fds
    ensures fs.Valid() && fs.Drift() == old(fs.Drift()) && fs.Spare() == old(fs.Spare()) && (fs.CanTake() <==> old(fs.CanTake()))
    ensures fs.Stock({}) == old(fs.Stock({}))
    ensures fs.flash == Apply(fs.g, old(fs.flash), PageWrite(t, work))
    ensures |fs.fds| == |old(fs.fds)| && forall i :: 0 <= i < |fs.fds| ==> fs.fds[i] == EventFd(old(fs.fds)[i], PageStored(fs.g, k, work.body), id, k, t, 0)
  {
    hide FreeSuffix;
    hide CursorOk;
    hide All;
    hide FreeBlocks;
    hide ErasedFree;
    hide DeadMarked;
    hide EventFd;
    hide ProgramPage;
    fs.WritePage(t, work);
    fs.ObjectEvent(PageStored(fs.g, k, work.body), id, k, t, 0);
  }

  /** Stores the header page in the buffer for the first time: over its page. While more is to come
      the descriptors are not told. */
  method StoreFirst(fs: Spiffs, fdi: nat, t: nat, work: Page, last: bool, ghost dir: Dir, ghost m0: Image, o: int, ghost data: seq<int>, n: nat)
    returns (res: Status)
    requires fs.Valid() && Filling(fs.g, fs.flash, fs.fds, fdi, dir, m0, o, 0, data, n, 0, t, work) && HeaderSize(work) == n
    requires n > 0 && 1 <= o <= MAX_ID
    modifies fs`flash, fs`log, fs`fds
    ensures fs.Valid() && fs.Drift() == old(fs.Drift()) && fs.Spare() == old(fs.Spare()) && (fs.CanTake() <==> old(fs.CanTake())) && res == OK
    ensures fs.Stock({}) == old(fs.Stock({}))
    ensures fdi < |fs.fds| && Settled(fs.g, fs.flash, fs.fds, fdi, dir, m0, o, 0, data, n, 0) && HeaderHas(fs.flash, dir, o, n)
    ensures last ==> Consistent(fs.g, fs.flash, dir, fs.fds)
    ensures Followed(dir, old(fs.fds), dir, fs.fds, fdi, 0)
  {
    hide FreeSuffix;
    hide CursorOk;
    hide All;
    hide FreeBlocks;
    hide ErasedFree;
    hide DeadMarked;
    hide Linked;
    hide FdsOk;
    hide FdsTrack;
    hide Grown;
    hide EventFd;
    hide Extends;
    hide Geometry.Total;
    hide Geometry.BlockStart;
    hide IxSpan;
    hide QuickStep;
    hide Moved;
    hide MoveOps;
    hide Meaning;
    hide GoodPage;
    hide Followed;
    hide HeaderHas;
    ghost var v, fds0 := fs.flash, fs.fds;
    HeldPage(fs.g, v, dir, o, 0, t, work);
    HeaderPlaced(dir, fs.fds, fdi, o, Seen(v, dir, t, work));
    var objId := fs.fds[fdi].objId;
    FollowRefl(dir, fds0, fdi, 0);
    res := IndexCheck(fs.g, fs.flash, t, objId, 0);
    if res == OK {
      fs.WritePage(t, work);
      if last {
        fs.ObjectEvent(IxHeaderUpdated, objId, 0, t, n);
        Programmed(fs.g, v, fds0, fs.fds, fdi, dir, m0, o, 0, data, n, 0, t, work, IxHeaderUpdated, n);
        WriterTold(fds0, fs.fds, fdi, IxHeaderUpdated, o, IndexId(o), 0, t, n);
        assert dir[Key(IndexId(o), 0) := t] == dir;
        HeaderFollows(fs.g, fs.flash, dir, fds0, fs.fds, fdi, o, t, n, 0);
      } else {
        ghost var told := seq(|fds0|, i requires 0 <= i < |fds0| => EventFd(fds0[i], IxMoved, IndexId(o), 0, t, 0));
        Programmed(fs.g, v, fds0, told, fdi, dir, m0, o, 0, data, n, 0, t, work, IxMoved, 0);
      }
      SettledHeader(fs.g, fs.flash, fs.fds, fdi, dir, m0, o, 0, data, n, 0);
    }
  }

  /** Stores the index page in the buffer and, in the header page, the length. Only the header of a
      file that was empty needs no new page; anything else is refused exactly if no page can be had,
      and then what is in the buffer stays there, if it is the header, or only the length is not
      stored. */
  method StoreHeld(fs: Spiffs, fdi: nat, k: nat, t: nat, work0: Page, last: bool, ghost dir0: Dir, ghost m0: Image, o: int, off: nat, ghost data: seq<int>, n: nat)
    returns (res: Status, ghost dir: Dir)
    requires fs.Valid() && Filling(fs.g, fs.flash, fs.fds, fdi, dir0, m0, o, off, data, n, k, t, work0)
    requires n > 0 && 1 <= o <= MAX_ID
    modifies fs`flash, fs`log, fs`freeBlocks, fs`maxEraseCount, fs`pagesDeleted, fs`pagesAllocated
    modifies fs`freeCursorBlock, fs`freeCursorEntry, fs`fds
    ensures fs.Valid() && fs.Drift() == old(fs.Drift())
    ensures old(fs.Spare()) >= 1 ==> res == OK && fs.Spare() >= old(fs.Spare()) - 1
    ensures res == OK ==> fdi < |fs.fds| && Settled(fs.g, fs.flash, fs.fds, fdi, dir, m0, o, off, data, n, k)
    ensures res == OK && last ==> Consistent(fs.g, fs.flash, dir, fs.fds)
    ensures Followed(dir0, old(fs.fds), dir, fs.fds, fdi, off) && (res == OK ==> HeaderHas(fs.flash, dir, o, n))
    ensures res == OK <==> (k == 0 && off == 0) || old(fs.CanTake())
    ensures !fs.cleaning ==> if res == OK then Spent(old(fs.Stock({})), fs.Stock({}), StoreCost(off, k), StoreCost(off, k)) else Ends(old(fs.Stock({})), 0, 0)
    ensures k == 0 && off == 0 ==> (fs.CanTake() <==> old(fs.CanTake())) && fs.freeBlocks == old(fs.freeBlocks)
    ensures old(fs.freeBlocks) >= 1 && !fs.cleaning ==> fs.freeBlocks >= 1
    ensures old(fs.freeBlocks) >= 1 && !fs.cleaning && res != OK ==>
      && fdi < |old(fs.fds)| == |fs.fds| && fs.fds[fdi].size == old(fs.fds)[fdi].size
      && dir == dir0 && !fs.CanTake() && (k == 0 ==> unchanged(fs))
      && (k > 0 ==> Grounded(fs.g, fs.flash, fs.fds, fdi, dir, m0, o, off, data, n, k))
      && (forall word :: HeaderHas(old(fs.flash), dir, o, word) ==> HeaderHas(fs.flash, dir, o, word))
  {
    hide FreeSuffix;
    hide CursorOk;
    hide All;
    hide FreeBlocks;
    hide ErasedFree;
    hide DeadMarked;
    hide Linked;
    hide FdsOk;
    hide FdsTrack;
    hide Grown;
    hide EventFd;
    hide Extends;
    hide Geometry.Total;
    hide Geometry.BlockStart;
    hide IxSpan;
    hide QuickStep;
    hide Moved;
    hide MoveOps;
    hide Meaning;
    hide GoodPage;
    hide Followed;
    hide HeaderHas;
    hide Filling;
    hide Settled;
    hide Grounded;
    hide Spiffs.CanTake;
    hide Spiffs.Spare;
    FillingParts(fs.g, fs.flash, fs.fds, fdi, dir0, m0, o, off, data, n, k, t, work0);
    var work := work0;
    dir := dir0;
    if k == 0 {
      SizeSet(fs.g, fs.flash, fs.fds, fdi, dir, m0, o, off, data, n, t, work, n);
      work := work.(body := work.body.(size := n));
      if off != 0 {
        res, dir := StoreHeader(fs, fdi, t, work, dir, m0, o, off, data, n);
      } else {
        res := StoreFirst(fs, fdi, t, work, last, dir, m0, o, data, n);
      }
    } else {
      res, dir := StoreIndexPage(fs, fdi, k, t, work, dir, m0, o, off, data, n);
    }
  }

  // How an append ends.

  lemma EndSettled(g: Geometry, fl: Flash, fds: seq<Fd>, fdi: nat, dir: Dir, m0: Image, o: int, off: nat, data: seq<int>, n: nat, top: nat)
    requires g.Valid() && Settled(g, fl, fds, fdi, dir, m0, o, off, data, n, top) && n > 0 && fdi < |fds| && Length(fds[fdi].size) == n
    ensures HeaderHas(fl, dir, o, n) && Ended(g, m0, fl, NoLoss, dir, fds, fdi, o, off, data, n, n, top)
  {
    hide Linked;
    hide Grown;
    hide FdsTrack;
    hide HeaderHas;
    SettledHeader(g, fl, fds, fdi, dir, m0, o, off, data, n, top);
    GrownReach(g, m0, Meaning(fl, dir), o, off, data, n, top);
  }

  lemma EndGrounded(g: Geometry, fl: Flash, fds: seq<Fd>, fdi: nat, dir: Dir, m0: Image, o: int, off: nat, data: seq<int>, n: nat, k: nat, word: int)
    requires g.Valid() && Grounded(g, fl, fds, fdi, dir, m0, o, off, data, n, k) && k > 0
    requires HeaderHas(fl, dir, o, word) && 0 < word && off <= word <= n && fdi < |fds| && (word == n ==> Length(fds[fdi].size) == n)
    ensures Ended(g, m0, fl, NoLoss, dir, fds, fdi, o, off, data, n, word, k)
  {
    hide Grounded;
    hide HeaderHas;
  }

  /** Data pages of a file whose only index page is the header are under the header. */
  lemma UnderHeader(g: Geometry, fl: Flash, dir: Dir, m0: Image, o: int, off: nat, data: seq<int>, n: nat, q: nat)
    requires Linked(g, fl, dir) && Grown(g, m0, Meaning(fl, dir), o, off, data, n, 0) && q < PageCount(g, n) && 1 <= o <= MAX_ID
    ensures Key(o, q) in dir && IxSpan(g, q) == 0 && q < g.hdrLen && IxEntry(g, q) == q
  {
    hide RefsLead;
    hide GoodPages;
    hide Locates;
    hide TailErased;
    var m := Meaning(fl, dir);
    assert Key(o, q) in m;
    assert Referred(g, fl, dir, Key(o, q));
    assert Key(IndexId(o), IxSpan(g, q)) in m;
  }

  /** The references of the header in the buffer: one for each data page. */
  lemma HeaderRefs(g: Geometry, fl: Flash, dir: Dir, m0: Image, o: int, off: nat, data: seq<int>, n: nat, t: nat, work: Page, j: nat)
    requires Held(g, fl, dir, o, 0, t, work) && Grown(g, m0, Seen(fl, dir, t, work), o, off, data, n, 0) && j < g.hdrLen
    ensures work.body.Header? && |work.body.refs| == g.hdrLen && (work.body.refs[j] == NONE <==> j >= PageCount(g, n))
  {
    hide Linked;
    hide TailErased;
    hide PageCount;
    var m := Seen(fl, dir, t, work);
    HeldPage(g, fl, dir, o, 0, t, work);
    IxRoundTrip(g, 0, j);
    HeldRef(g, fl, dir, o, 0, t, work, j);
    assert Key(o, j) in m <==> 0 <= j < PageCount(g, n);
    if Key(o, j) in dir {
      Somewhere(g, Patch(fl, t, work.body), dir);
    }
  }

  /** The header in the buffer is never stored: with no new references it says what the stored one
      does, but for the length; otherwise the new references are lost. */
  lemma EndFilling(g: Geometry, fl: Flash, fds: seq<Fd>, fdi: nat, dir: Dir, m0: Image, o: int, off: nat, data: seq<int>, n: nat, t: nat, work: Page)
    requires g.Valid() && Filling(g, fl, fds, fdi, dir, m0, o, off, data, n, 0, t, work) && off > 0
    requires Backed(g, fl, dir, o, off, n, 0, t, work, off) && fdi < |fds| && (off == n ==> Length(fds[fdi].size) == n)
    ensures Ended(g, m0, fl, if PageCount(g, off) < PageCount(g, n) then Unstored(t, work.body) else NoLoss, dir, fds, fdi, o, off, data, n, off, 0)
  {
    hide Linked;
    hide Grown;
    hide FdsTrack;
    hide PageCount;
    hide HeaderHas;
    GrownReach(g, m0, Seen(fl, dir, t, work), o, off, data, n, 0);
    MorePages(g, off, n);
    HeldPage(g, fl, dir, o, 0, t, work);
    if PageCount(g, off) < PageCount(g, n) {
      var j := PageCount(g, off);
      UnderHeader(g, Patch(fl, t, work.body), dir, m0, o, off, data, n, j);
      HeaderRefs(g, fl, dir, m0, o, off, data, n, t, work, j);
      assert RefsOf(work.body)[j] != RefsOf(fl.pages[t].body)[j];
    } else {
      forall j | 0 <= j < g.hdrLen
        ensures work.body.refs[j] == fl.pages[t].body.refs[j]
      {
        HeaderRefs(g, fl, dir, m0, o, off, data, n, t, work, j);
      }
      var size := HeaderSize(fl.pages[t]);
      SizeSet(g, fl, fds, fdi, dir, m0, o, off, data, n, t, work, size);
      assert work.body.refs == fl.pages[t].body.refs;
      assert Patch(fl, t, work.(body := work.body.(size := size)).body) == fl;
    }
  }

  lemma MorePages(g: Geometry, a: nat, b: nat)
    requires g.Valid() && a <= b
    ensures PageCount(g, a) <= PageCount(g, b) && (PageCount(g, a) < PageCount(g, b) ==> a < b)
  {
    hide Quot;
    if a > 0 {
      QuotMonotone(a - 1, b - 1, g.dps);
    }
  }

  /** A chunk was written: what the stored header says is as before. */
  lemma BackedChunk(g: Geometry, v: Flash, w: Flash, fds: seq<Fd>, fdi: nat, dir: Dir, dir': Dir, m0: Image, o: int, off: nat, data: seq<int>, n: nat, n': nat, k: nat, t: nat, work: Page, work': Page, word: int)
    requires g.Valid() && Filling(g, v, fds, fdi, dir, m0, o, off, data, n, k, t, work) && Backed(g, v, dir, o, off, n, k, t, work, word)
    requires IndexesSame(v, w) && HeaderKept(dir, dir', o) && n <= n'
    requires |RefsOf(work'.body)| == |RefsOf(work.body)| && work'.body == ReBody(work.body, HeaderSize(work'), RefsOf(work'.body))
    requires forall j :: 0 <= j < |RefsOf(work'.body)| && j < PageCount(g, off) ==> k > 0 || RefsOf(work'.body)[j] == RefsOf(work.body)[j]
    ensures Backed(g, w, dir', o, off, n', k, t, work', word) && (off <= n < n' ==> word < n')
  {
    hide RefsLead;
    hide DataReferred;
    hide GoodPages;
    hide Grown;
    hide Extends;
    hide FdsTrack;
    hide PageCount;
    var u := Patch(v, t, work.body);
    assert KeyAt(u, dir[Key(IndexId(o), 0)]) == Key(IndexId(o), 0);
    assert v.lu[t] == IndexId(o) && Live(v.lu[t]) && IsIndexId(v.lu[t]);
  }

  /** The header was loaded. */
  lemma BackedLoaded(g: Geometry, fl: Flash, fds: seq<Fd>, fdi: nat, dir: Dir, m0: Image, o: int, off: nat, data: seq<int>, t: nat)
    requires g.Valid() && t < |fl.pages| && Filling(g, fl, fds, fdi, dir, m0, o, off, data, off, 0, t, fl.pages[t])
    requires HeaderHas(fl, dir, o, if off == 0 then NONE else off)
    ensures Backed(g, fl, dir, o, off, off, 0, t, fl.pages[t], if off == 0 then NONE else off)
  {
    hide Linked;
    hide Grown;
    hide Extends;
    hide FdsTrack;
    hide PageCount;
    hide HeaderHas;
    HeldPage(g, fl, dir, o, 0, t, fl.pages[t]);
    forall j | 0 <= j < g.hdrLen && j >= PageCount(g, off)
      ensures fl.pages[t].body.refs[j] == NONE
    {
      HeaderRefs(g, fl, dir, m0, o, off, data, off, t, fl.pages[t], j);
    }
  }

  // Loading the index page the next bytes belong to.

  /** The next byte belongs to the last index page, or to the one behind it. */
  lemma NextIx(g: Geometry, n: nat)
    requires g.Valid()
    ensures var k := IxSpan(g, Quot(n, g.dps)); k == TopIx(g, n) || (n > 0 && k == TopIx(g, n) + 1)
  {
    hide IxSpan;
    if n > 0 {
      QuotRemNext(n - 1, g.dps);
      IxNext(g, Quot(n - 1, g.dps));
    } else {
      assert IxSpan(g, 0) == 0;
    }
  }

  lemma ExtendsItself(b: Body)
    ensures b != Clash ==> Extends(b, b)
  {
  }

  /** An index page that is there was loaded. */
  lemma FillLoaded(g: Geometry, v: Flash, fds: seq<Fd>, fdi: nat, dir: Dir, m0: Image, o: int, off: nat, data: seq<int>, n: nat, k: nat)
    requires g.Valid() && Settled(g, v, fds, fdi, dir, m0, o, off, data, n, TopIx(g, n)) && k == TopIx(g, n) && (k == 0 ==> n == off)
    ensures var x := Key(IndexId(o), k);
      && x in dir && 0 <= dir[x] < |v.pages| && v.lu[dir[x]] == IndexId(o)
      && ValidateObjIx(v.pages[dir[x]], IndexId(o), k) == OK
      && Filling(g, v, fds, fdi, dir, m0, o, off, data, n, k, dir[x], v.pages[dir[x]])
      && (fds[fdi].cursorSpan == k ==> fds[fdi].cursorPix == dir[x])
      && (k == 0 ==> fds[fdi].hdr == dir[x])
  {
    hide Linked;
    hide Extends;
    hide TopIx;
    hide PageCount;
    var x, m := Key(IndexId(o), k), Meaning(v, dir);
    assert x in m;
    HeldLoad(g, v, dir, o, k);
    HeldPage(g, v, dir, o, k, dir[x], v.pages[dir[x]]);
    ExtendsItself(v.pages[dir[x]].body);
    assert FdPlaced(dir, fds[fdi]);
  }

  /** A new index page was allocated. */
  lemma FillNew(g: Geometry, v: Flash, mid: Flash, fds: seq<Fd>, fds': seq<Fd>, fdi: nat, dir: Dir, m0: Image, o: int, off: nat, data: seq<int>, n: nat, k: nat, f: nat)
    requires g.Valid() && Settled(g, v, fds, fdi, dir, m0, o, off, data, n, TopIx(g, n)) && k == TopIx(g, n) + 1 && QuickStep(v, mid)
    requires f < |mid.lu| && mid.lu[f] == FREE
    requires |fds'| == |fds| && forall i :: 0 <= i < |fds| ==> fds'[i] == EventFd(fds[i], PageBegun(g, k), IndexId(o), k, f, 0)
    ensures f < |mid.pages|
    ensures Filling(g, Placed(mid, f, IndexId(o), FreshIndex(g, o, k).(body := Blank)), fds', fdi, dir[Key(IndexId(o), k) := f], m0, o, off, data, n, k, f, FreshIndex(g, o, k))
  {
    hide Linked;
    hide TopIx;
    hide QuickStep;
    hide EventFd;
    hide FdsTrack;
    hide ExtentTop;
    QuickKeeps(g, v, mid, dir);
    var m := Meaning(mid, dir);
    GrowIndex(g, m0, m, o, off, data, n, k - 1);
    HeldNew(g, mid, dir, o, k, f);
    TrackEvent(m, m[Key(IndexId(o), k) := Index([])], dir, fds, fds', PageBegun(g, k), o, IndexId(o), k, f, 0);
    WriterTold(fds, fds', fdi, PageBegun(g, k), o, IndexId(o), k, f, 0);
  }

  lemma CursorSet(g: Geometry, v: Flash, fds: seq<Fd>, fdi: nat, dir: Dir, m0: Image, o: int, off: nat, data: seq<int>, n: nat, k: nat, t: nat, work: Page, size: int)
    requires Filling(g, v, fds, fdi, dir, m0, o, off, data, n, k, t, work)
    ensures Filling(g, v, fds[fdi := fds[fdi].(cursorPix := t, cursorSpan := k, size := size)], fdi, dir, m0, o, off, data, n, k, t, work)
  {
    hide Linked;
    hide Grown;
    hide Extends;
    hide FdsTrack;
    HeldPage(g, v, dir, o, k, t, work);
    TrackOwn(Seen(v, dir, t, work), dir, fds, fdi, o, k, t, size);
  }

  /** A new index page behind the last one has nothing to refer to yet. */
  lemma BegunFollows(g: Geometry, fl: Flash, dir: Dir, fds: seq<Fd>, fds': seq<Fd>, fdi: nat, m0: Image, o: int, off: nat, data: seq<int>, n: nat, k: nat, f: nat)
    requires g.Valid() && Linked(g, fl, dir) && Grown(g, m0, Meaning(fl, dir), o, off, data, n, TopIx(g, n)) && k == TopIx(g, n) + 1 && 1 <= o <= MAX_ID
    requires |fds'| == |fds| && forall i :: 0 <= i < |fds| ==> fds'[i] == EventFd(fds[i], PageBegun(g, k), IndexId(o), k, f, 0)
    ensures Followed(dir, fds, dir[Key(IndexId(o), k) := f], fds', fdi, off)
  {
    hide Linked;
    hide EventFd;
    hide Followed;
    hide FirstSpan;
    hide IxSpan;
    hide IxEntry;
    hide Quot;
    var x, m := Key(IndexId(o), k), Meaning(fl, dir);
    Somewhere(g, fl, dir);
    forall span: nat {:trigger Key(o, span)} | IxSpan(g, span) == k
      ensures Key(o, span) !in dir
    {
      if span < PageCount(g, n) {
        IxMonotone(g, span, PageCount(g, n) - 1);
      }
      assert Key(o, span) in m <==> 0 <= span < PageCount(g, n);
    }
    assert RefsOfIx(g, dir[x := f], o, k, PageBegun(g, k).refs);
    FollowEvent(g, dir, dir[x := f], fds, fds', fdi, o, PageBegun(g, k), IndexId(o), k, f, 0, off);
  }

  lemma PlacedIndexes(v: Flash, mid: Flash, f: nat, id: int, page: Page)
    requires QuickStep(v, mid) && f < |mid.lu| && mid.lu[f] == FREE
    ensures |mid.lu| == |mid.pages| && IndexesSame(v, Placed(mid, f, id, page))
  {
  }

  lemma IndexesRefl(v: Flash)
    requires |v.lu| == |v.pages|
    ensures IndexesSame(v, v)
  {
  }

  /** Creates index page `k` behind the last one. */
  method BeginIndex(fs: Spiffs, fdi: nat, k: nat, ghost dir0: Dir, ghost m0: Image, o: int, off: nat, ghost data: seq<int>, n: nat)
    returns (res: Status, t: nat, work: Page, ghost dir: Dir)
    requires fs.Valid() && Settled(fs.g, fs.flash, fs.fds, fdi, dir0, m0, o, off, data, n, TopIx(fs.g, n))
    requires k == TopIx(fs.g, n) + 1 && 1 <= o <= MAX_ID
    modifies fs`flash, fs`log, fs`freeBlocks, fs`maxEraseCount, fs`pagesDeleted, fs`pagesAllocated
    modifies fs`freeCursorBlock, fs`freeCursorEntry, fs`fds
    ensures fs.Valid() && fs.Drift() == old(fs.Drift())
    ensures old(fs.Spare()) >= 1 ==> res == OK && fs.Spare() >= old(fs.Spare()) - 1
    ensures Followed(dir0, old(fs.fds), dir, fs.fds, fdi, off) && IndexesSame(old(fs.flash), fs.flash) && HeaderKept(dir0, dir, o)
    ensures res == OK <==> old(fs.CanTake())
    ensures !fs.cleaning ==> if res == OK then Spent(old(fs.Stock({})), fs.Stock({}), 1, 0) else Ends(old(fs.Stock({})), 0, 0)
    ensures old(fs.freeBlocks) >= 1 && !fs.cleaning ==> fs.freeBlocks >= 1 && (res != OK ==> unchanged(fs) && dir == dir0 && !fs.CanTake())
    ensures res == OK ==> fdi < |fs.fds| && Filling(fs.g, fs.flash, fs.fds, fdi, dir, m0, o, off, data, n, k, t, work)
  {
    hide FreeSuffix;
    hide CursorOk;
    hide All;
    hide FreeBlocks;
    hide ErasedFree;
    hide DeadMarked;
    hide Linked;
    hide FdsOk;
    hide Grown;
    hide EventFd;
    hide Extends;
    hide Geometry.Total;
    hide Geometry.BlockStart;
    hide IxSpan;
    hide Quot;
    hide Rem;
    hide QuickStep;
    hide Meaning;
    hide GoodPage;
    hide FdsTrack;
    hide Filling;
    hide TopIx;
    hide Followed;
    hide IndexesSame;
    hide EventFd;
    dir := dir0;
    ghost var v, fds0, mid := fs.flash, fs.fds, fs.flash;
    FollowRefl(dir, fds0, fdi, off);
    res, t, mid := fs.AllocateData(fs.fds[fdi].objId, k, Flags(true, false, false, true, true), Blank, true);
    work := FreshIndex(fs.g, o, k);
    if res == OK {
      fs.ObjectEvent(PageBegun(fs.g, k), fs.fds[fdi].objId, k, t, 0);
      FillNew(fs.g, v, mid, fds0, fs.fds, fdi, dir, m0, o, off, data, n, k, t);
      BegunFollows(fs.g, v, dir, fds0, fs.fds, fdi, m0, o, off, data, n, k, t);
      PlacedIndexes(v, mid, t, IndexId(o), FreshIndex(fs.g, o, k).(body := Blank));
      dir := dir[Key(IndexId(o), k) := t];
    } else {
      QuickIndexes(v, mid);
    }
  }

  /** Loads the index page `k` or creates it, behind the last one. */
  method Load(fs: Spiffs, fdi: nat, k: nat, first: bool, ghost dir0: Dir, ghost m0: Image, o: int, off: nat, ghost data: seq<int>, n: nat)
    returns (res: Status, t: nat, work: Page, ghost dir: Dir)
    requires fs.Valid() && Settled(fs.g, fs.flash, fs.fds, fdi, dir0, m0, o, off, data, n, TopIx(fs.g, n))
    requires k == IxSpan(fs.g, Quot(n, fs.g.dps)) && 1 <= o <= MAX_ID
    requires if first then n == off == Length(fs.fds[fdi].size) else k > TopIx(fs.g, n)
    modifies fs`flash, fs`log, fs`freeBlocks, fs`maxEraseCount, fs`pagesDeleted, fs`pagesAllocated
    modifies fs`freeCursorBlock, fs`freeCursorEntry, fs`fds, fs`cursorBlock, fs`cursorEntry
    ensures fs.Valid() && fs.Drift() == old(fs.Drift())
    ensures old(fs.Spare()) >= 1 ==> res == OK && fs.Spare() >= old(fs.Spare()) - 1
    ensures Followed(dir0, old(fs.fds), dir, fs.fds, fdi, off) && IndexesSame(old(fs.flash), fs.flash) && HeaderKept(dir0, dir, o)
    ensures res == OK <==> k <= TopIx(fs.g, n) || old(fs.CanTake())
    ensures !fs.cleaning ==> if res == OK then Spent(old(fs.Stock({})), fs.Stock({}), if k <= TopIx(fs.g, n) then 0 else 1, 0) else Ends(old(fs.Stock({})), 0, 0)
    ensures old(fs.freeBlocks) >= 1 && !fs.cleaning ==> fs.freeBlocks >= 1 && (res != OK ==> unchanged(fs) && dir == dir0 && !fs.CanTake())
    ensures res == OK && k <= TopIx(fs.g, n) ==> fs.flash == old(fs.flash) && t < |fs.flash.pages| && work == fs.flash.pages[t] && fs.freeBlocks == old(fs.freeBlocks) && (fs.CanTake() <==> old(fs.CanTake()))
    ensures res == OK ==> fdi < |fs.fds| && Filling(fs.g, fs.flash, fs.fds, fdi, dir, m0, o, off, data, n, k, t, work)
  {
    hide FreeSuffix;
    hide CursorOk;
    hide All;
    hide FreeBlocks;
    hide ErasedFree;
    hide DeadMarked;
    hide Linked;
    hide FdsOk;
    hide Grown;
    hide EventFd;
    hide Extends;
    hide Geometry.Total;
    hide Geometry.BlockStart;
    hide IxSpan;
    hide Quot;
    hide Rem;
    hide QuickStep;
    hide Meaning;
    hide GoodPage;
    hide FdsTrack;
    hide Filling;
    hide TopIx;
    hide Followed;
    hide IndexesSame;
    hide EventFd;
    dir := dir0;
    var objId := fs.fds[fdi].objId;
    ghost var v, was := fs.flash, fs.fds;
    NextIx(fs.g, n);
    IndexesRefl(v);
    FollowRefl(dir, was, fdi, off);
    if k <= TopIx(fs.g, n) {
      FillLoaded(fs.g, v, fs.fds, fdi, dir, m0, o, off, data, n, k);
    }
    if k == 0 {
      t := fs.fds[fdi].hdr;
      work := fs.flash.pages[t];
      res := ValidateObjIx(work, objId, 0);
    } else {
      if !first || k > TopIx(fs.g, Length(fs.fds[fdi].size)) {
        res, t, work, dir := BeginIndex(fs, fdi, k, dir, m0, o, off, data, n);
      } else {
        if fs.fds[fdi].cursorSpan == k {
          res, t := OK, fs.fds[fdi].cursorPix;
        } else {
          MatchIsFiled(fs.g, v, dir, objId, k);
          res, t := fs.FindIdAndSpan(objId, k);
        }
        if res == OK {
          work := fs.flash.pages[t];
          res := ValidateObjIx(work, objId, k);
        }
      }
      if res == OK {
        CursorSet(fs.g, fs.flash, fs.fds, fdi, dir, m0, o, off, data, n, k, t, work, n);
        ghost var fds1 := fs.fds;
        FollowOwn(dir, fds1, fdi, fds1[fdi].(cursorPix := t, cursorSpan := k, size := n), off);
        fs.fds := fs.fds[fdi := fs.fds[fdi].(cursorPix := t, cursorSpan := k, size := n)];
        FollowOn(dir0, was, dir, fds1, dir, fs.fds, fdi, off);
      }
    }
  }

  /** When not even the first page of an empty file could be written, length 0 is programmed into
      the header: not a length any later store in place can replace. */
  method StoreEmpty(fs: Spiffs, fdi: nat, t: nat, work: Page, ghost dir: Dir, ghost m0: Image, o: int, ghost data: seq<int>)
    returns (res: Status)
    requires fs.Valid() && Filling(fs.g, fs.flash, fs.fds, fdi, dir, m0, o, 0, data, 0, 0, t, work) && fdi < |fs.fds| && Length(fs.fds[fdi].size) == 0
    modifies fs`flash, fs`log, fs`fds
    ensures fs.Valid() && fs.Drift() == old(fs.Drift()) && (fs.CanTake() <==> old(fs.CanTake())) && res == OK
    ensures Ended(fs.g, m0, fs.flash, NoLoss, dir, fs.fds, fdi, o, 0, data, 0, 0, 0)
    ensures Followed(dir, old(fs.fds), dir, fs.fds, fdi, 0)
  {
    hide FreeSuffix;
    hide CursorOk;
    hide All;
    hide FreeBlocks;
    hide ErasedFree;
    hide DeadMarked;
    hide Linked;
    hide Grown;
    hide FdsTrack;
    hide EventFd;
    hide Filling;
    hide Extends;
    hide Followed;
    hide ProgramPage;
    ghost var v, fds0 := fs.flash, fs.fds;
    SizeSet(fs.g, v, fds0, fdi, dir, m0, o, 0, data, 0, t, work, 0);
    var page := work.(body := work.body.(size := 0));
    FillingParts(fs.g, v, fds0, fdi, dir, m0, o, 0, data, 0, 0, t, page);
    HeldPage(fs.g, v, dir, o, 0, t, page);
    HeldStore(fs.g, v, dir, o, 0, t, page);
    res := IndexCheck(fs.g, fs.flash, t, fs.fds[fdi].objId, 0);
    if res == OK {
      fs.WritePage(t, page);
      fs.ObjectEvent(IxHeaderUpdated, fs.fds[fdi].objId, 0, t, 0);
      Programmed(fs.g, v, fds0, fs.fds, fdi, dir, m0, o, 0, data, 0, 0, t, page, IxHeaderUpdated, 0);
      assert dir[Key(IndexId(o), 0) := t] == dir;
      Somewhere(fs.g, fs.flash, dir);
      EventFields(fds0[fdi], IxHeaderUpdated, IndexId(o), 0, t, 0);
      WriterTold(fds0, fs.fds, fdi, IxHeaderUpdated, o, IndexId(o), 0, t, 0);
      FollowEvent(fs.g, dir, dir, fds0, fs.fds, fdi, o, IxHeaderUpdated, IndexId(o), 0, t, 0, 0);
    }
  }

  lemma FillingParts(g: Geometry, fl: Flash, fds: seq<Fd>, fdi: nat, dir: Dir, m0: Image, o: int, off: nat, data: seq<int>, n: nat, k: nat, t: nat, work: Page)
    requires Filling(g, fl, fds, fdi, dir, m0, o, off, data, n, k, t, work)
    ensures Held(g, fl, dir, o, k, t, work) && (k > 0 || off == 0 ==> Extends(fl.pages[t].body, work.body)) && Writer(fds, fdi, o)
  {
  }

  /** An append to a file whose length word is 0, under its header page: the new pages and their
      references are stored, and the length stays 0. */
  lemma LengthStuck(g: Geometry, fl: Flash, dir: Dir, o: int, t: nat, work: Page, n: nat)
    requires Held(g, fl, dir, o, 0, t, work) && HeaderSize(fl.pages[t]) == 0 && HeaderSize(work) == n
    requires Extends(fl.pages[t].body, work.body.(size := 0))
    ensures var w, x := Apply(g, fl, PageWrite(t, work)), Key(IndexId(o), 0);
      && HeaderHas(w, dir, o, 0) && Linked(g, w, dir)
      && x in dir && Meaning(w, dir) == Seen(fl, dir, t, work)[x := Strip(work.body).(size := 0)]
      && RefsAt(w, dir, x) == RefsOf(work.body)
  {
    hide Linked;
    HeldSize(g, fl, dir, o, t, work, 0);
    HeldPage(g, fl, dir, o, 0, t, work);
    var page := work.(body := work.body.(size := 0));
    HeldStore(g, fl, dir, o, 0, t, page);
    HeldPage(g, fl, dir, o, 0, t, page);
    assert And(0, n) == 0 && And(0, 0) == 0;
    assert ProgramPage(fl.pages[t], work) == ProgramPage(fl.pages[t], page);
  }

  /** Object `o` holds its old bytes and `data` behind them; its index pages go up to `top`. */
  ghost predicate Appended(g: Geometry, m0: Image, m: Image, o: int, n: nat, data: seq<int>, top: nat)
    requires g.Valid()
  {
    && SameOthers(m0, m, o)
    && ExtentTop(g, m, o, n + |data|, top)
    && (top == TopIx(g, n + |data|) ==> IsFile(g, m, o, n + |data|))
    && Key(IndexId(o), 0) in m0 && m0[Key(IndexId(o), 0)].Header? && Named(m, o, m0[Key(IndexId(o), 0)].name)
    && Contents(g, m, o, n + |data|) == Contents(g, m0, o, n) + data
  }

  lemma AppendDone(g: Geometry, fl: Flash, fds: seq<Fd>, fdi: nat, dir: Dir, m0: Image, o: int, off: nat, data: seq<int>, n: nat, top: nat)
    requires g.Valid() && Settled(g, fl, fds, fdi, dir, m0, o, off, data, n, top) && n > 0
    ensures off <= n <= off + |data| && Appended(g, m0, Meaning(fl, dir), o, off, data[..n - off], top)
    ensures Writer(fds, fdi, o)
  {
    hide Linked;
    hide FdsTrack;
    hide ByteAt;
    hide DataPages;
    hide IndexPages;
    hide TailErased;
    hide TopIx;
    var m := Meaning(fl, dir);
    assert forall p: nat :: p < n ==> ByteAt(g, m, o, p) == if p < off then ByteAt(g, m0, o, p) else data[p - off];
    assert Contents(g, m, o, n) == Contents(g, m0, o, off) + data[..n - off];
  }

  /** The descriptor `fdi` is open for writing a well-formed file. */
  ghost predicate OpenFile(g: Geometry, m: Image, fds: seq<Fd>, fdi: nat)
    requires g.Valid()
  {
    fdi < |fds| && Writer(fds, fdi, ObjectId(fds[fdi].objId)) && IsFile(g, m, ObjectId(fds[fdi].objId), Length(fds[fdi].size))
  }

  lemma OpenId(g: Geometry, m: Image, fds: seq<Fd>, fdi: nat)
    requires g.Valid() && OpenFile(g, m, fds, fdi)
    ensures fdi < |fds| && 1 <= ObjectId(fds[fdi].objId) <= MAX_ID
  {
  }

  lemma AppendStart(g: Geometry, fl: Flash, fds0: seq<Fd>, fds: seq<Fd>, fdi: nat, dir: Dir, o: int, data: seq<int>)
    requires Consistent(g, fl, dir, fds) && SameOpen(fds0, fds) && g.Valid()
    requires OpenFile(g, Meaning(fl, dir), fds0, fdi) && o == ObjectId(fds0[fdi].objId)
    ensures fdi < |fds| && Length(fds[fdi].size) == Length(fds0[fdi].size)
    ensures Settled(g, fl, fds, fdi, dir, Meaning(fl, dir), o, Length(fds0[fdi].size), data, Length(fds0[fdi].size), TopIx(g, Length(fds0[fdi].size)))
  {
    hide Linked;
    hide Extent;
    var n := Length(fds0[fdi].size);
    GrownStart(g, Meaning(fl, dir), o, n, data);
    TrackStart(Meaning(fl, dir), dir, fds, o);
    assert FdOk(Meaning(fl, dir), dir, fds[fdi]);
  }

  lemma OwnLength(g: Geometry, fl: Flash, fds: seq<Fd>, fdi: nat, dir: Dir, m0: Image, o: int, off: nat, data: seq<int>, n: nat, top: nat, size: int)
    requires Settled(g, fl, fds, fdi, dir, m0, o, off, data, n, top)
    ensures Settled(g, fl, fds[fdi := fds[fdi].(size := size)], fdi, dir, m0, o, off, data, n, top)
  {
    hide Linked;
    hide FdsTrack;
    hide ExtentTop;
    var m := Meaning(fl, dir);
    assert Key(IndexId(o), 0) in m;
    TrackOwn(m, dir, fds, fdi, o, 0, dir[Key(IndexId(o), 0)], size);
  }

  /** The length word of a stored header. */
  function WordOf(n: nat): int {
    if n == 0 then NONE else n
  }

  /** Puts the index page `k` of the next byte into the buffer, storing the one before it first. Where
      that fails, no page can be had. `word` is what the stored header says. */
  method Turn(fs: Spiffs, fdi: nat, k: nat, prev: int, t0: nat, work0: Page, ghost word0: int, ghost dir0: Dir, ghost m0: Image, o: int, off: nat, ghost data: seq<int>, n: nat)
    returns (res: Status, t: nat, work: Page, ghost stage: Stage, ghost word: int, ghost loss: Loss, ghost top: nat, ghost dir: Dir)
    requires fs.Valid() && !fs.cleaning && fs.freeBlocks >= 1 && 1 <= o <= MAX_ID && off <= n < off + |data| && k == IxSpan(fs.g, Quot(n, fs.g.dps)) && fdi < |fs.fds|
    requires n > off ==> word0 == WordOf(RunStart(fs.g, off, if prev < 0 then 0 else prev))
    requires n == off ==> prev == -1 && Settled(fs.g, fs.flash, fs.fds, fdi, dir0, m0, o, off, data, off, TopIx(fs.g, off)) && Length(fs.fds[fdi].size) == off
    requires n > off ==> 0 <= prev != k && prev == TopIx(fs.g, n) && Filling(fs.g, fs.flash, fs.fds, fdi, dir0, m0, o, off, data, n, prev, t0, work0) && Backed(fs.g, fs.flash, dir0, o, off, n, prev, t0, work0, word0) && word0 < n
    modifies fs`flash, fs`log, fs`freeBlocks, fs`maxEraseCount, fs`pagesDeleted, fs`pagesAllocated
    modifies fs`freeCursorBlock, fs`freeCursorEntry, fs`fds, fs`cursorBlock, fs`cursorEntry
    ensures fs.Valid() && fs.Drift() == old(fs.Drift()) && fs.freeBlocks >= 1
    ensures old(fs.Spare()) >= 2 ==> res == OK && fs.Spare() >= old(fs.Spare()) - 2
    ensures Followed(dir0, old(fs.fds), dir, fs.fds, fdi, off)
    ensures res == OK ==> fdi < |fs.fds| && Filling(fs.g, fs.flash, fs.fds, fdi, dir, m0, o, off, data, n, k, t, work) && Backed(fs.g, fs.flash, dir, o, off, n, k, t, work, word)
    ensures res != OK ==> n > 0 && !fs.CanTake() && Ended(fs.g, m0, fs.flash, loss, dir, fs.fds, fdi, o, off, data, n, word, top)
    ensures n == off && k == 0 ==> res == OK && (fs.CanTake() <==> old(fs.CanTake()))
    ensures
      var g, s := fs.g, Quot(n, fs.g.dps);
      if res == OK then word == WordOf(RunStart(g, off, k)) && Spent(old(fs.Stock({})), fs.Stock({}), StoreAt(g, off, s) + BeginAt(g, off, s), StoreAt(g, off, s))
      else
        && StopsAt(g, off, s, stage) && AppendStopped(g, off, |data|, stage, n, word, top) && !stage.AtData?
        && Ends(old(fs.Stock({})), HadAt(g, off, s, stage), DropsAt(g, off, s, stage))
  {
    hide FreeSuffix;
    hide CursorOk;
    hide All;
    hide FreeBlocks;
    hide ErasedFree;
    hide DeadMarked;
    hide Linked;
    hide FdsOk;
    hide Grown;
    hide Extends;
    hide Geometry.Total;
    hide Geometry.BlockStart;
    hide IxSpan;
    hide Quot;
    hide Rem;
    hide Meaning;
    hide FdsTrack;
    hide Filling;
    hide Settled;
    hide TopIx;
    hide PageCount;
    hide Followed;
    hide Backed;
    hide Ended;
    hide Grounded;
    hide HeaderHas;
    hide HeaderKept;
    hide IndexesSame;
    hide Writer;
    hide Spiffs.CanTake;
    hide Spiffs.Spare;
    hide Spiffs.Stock;
    dir, res, t, work, word, loss, top, stage := dir0, OK, t0, work0, word0, NoLoss, TopIx(fs.g, n), AtBegin(Quot(n, fs.g.dps));
    TurnPlan(fs.g, off, |data|, n, k, prev);
    ghost var fds0 := fs.fds;
    FollowRefl(dir0, fds0, fdi, off);
    NextIx(fs.g, n);
    if n > off {
      res, dir := StoreHeld(fs, fdi, prev, t, work, false, dir, m0, o, off, data, n);
      if res == OK {
        ghost var fds1 := fs.fds;
        OwnLength(fs.g, fs.flash, fs.fds, fdi, dir, m0, o, off, data, n, prev, n);
        FollowOwn(dir, fds1, fdi, fds1[fdi].(size := n), off);
        fs.fds := fs.fds[fdi := fs.fds[fdi].(size := n)];
        FollowOn(dir0, fds0, dir, fds1, dir, fs.fds, fdi, off);
        word := n;
      } else {
        stage := AtStore(Quot(n, fs.g.dps));
        loss, top := if prev == 0 && PageCount(fs.g, off) < PageCount(fs.g, n) then Unstored(t, work.body) else NoLoss, prev;
        NotStored(fs.g, old(fs.flash), fs.flash, fds0, fs.fds, fdi, dir, m0, o, off, data, n, prev, t, work, word);
      }
    } else {
      word := WordOf(n);
      SettledHeader(fs.g, fs.flash, fs.fds, fdi, dir, m0, o, off, data, n, TopIx(fs.g, n));
    }
    if res == OK {
      ghost var v, dir1, fds1 := fs.flash, dir, fs.fds;
      ZeroTop(fs.g, n, k);
      res, t, work, dir := Load(fs, fdi, k, n == off, dir, m0, o, off, data, n);
      FollowOn(dir0, fds0, dir1, fds1, dir, fs.fds, fdi, off);
      if res == OK {
        TurnedBacked(fs.g, v, fs.flash, fds1, fs.fds, fdi, dir1, dir, m0, o, off, data, n, k, t, work);
      } else {
        EndSettled(fs.g, fs.flash, fs.fds, fdi, dir, m0, o, off, data, n, TopIx(fs.g, n));
      }
    }
  }

  /** What an append takes where it turns to index page `k`. */
  lemma TurnPlan(g: Geometry, off: nat, len: nat, n: nat, k: nat, prev: int)
    requires g.Valid() && off <= n < off + len && k == IxSpan(g, Quot(n, g.dps))
    requires n == off ==> prev == -1
    requires n > off ==> 0 <= prev != k && prev == TopIx(g, n)
    ensures
      var s := Quot(n, g.dps);
      && First(g, off) <= s <= Last(g, off, len)
      && RunStart(g, off, k) == n && StoreAt(g, off, s) == (if n > off then StoreCost(off, prev) else 0)
      && BeginAt(g, off, s) == (if k > TopIx(g, n) then 1 else 0)
      && (k > TopIx(g, n) ==> n == s * g.dps > 0 && k == TopIx(g, n) + 1)
      && (n > off ==> k > TopIx(g, n) && Crosses(g, off, s) && IxSpan(g, s - 1) == prev)
      && (n > off && StoreCost(off, prev) == 1 ==> WordOf(RunStart(g, off, prev)) == RunStart(g, off, prev))
  {
    hide Quot;
    hide Rem;
    hide IxSpan;
    hide TopIx;
    hide RunStart;
    InReach(g, off, len, n);
    StartPage(g, off);
    if n > off {
      TurnPage(g, off, n, prev);
      if StoreCost(off, prev) == 1 {
        RunAt(g, off, n, prev);
      }
    }
  }

  lemma RunAt(g: Geometry, off: nat, n: nat, k: nat)
    requires g.Valid() && off < n && k == TopIx(g, n) && StoreCost(off, k) == 1
    ensures RunStart(g, off, k) > 0
  {
    hide Quot;
    hide Rem;
    hide IxSpan;
    hide RunStart;
    QuotMonotone(off, n - 1, g.dps);
    IxMonotone(g, First(g, off), PageCount(g, n) - 1);
    RunPositive(g, off, k);
  }

  lemma ZeroTop(g: Geometry, n: nat, k: nat)
    requires g.Valid() && k == IxSpan(g, Quot(n, g.dps))
    ensures TopIx(g, 0) == 0 && (n == 0 ==> k == 0 && Rem(n, g.dps) == 0) && (k == 0 ==> k <= TopIx(g, n))
  {
  }

  /** The index page in the buffer could not be stored. */
  lemma NotStored(g: Geometry, v: Flash, w: Flash, fds0: seq<Fd>, fds: seq<Fd>, fdi: nat, dir: Dir, m0: Image, o: int, off: nat, data: seq<int>, n: nat, k: nat, t: nat, work: Page, word: int)
    requires g.Valid() && Filling(g, v, fds0, fdi, dir, m0, o, off, data, n, k, t, work) && Backed(g, v, dir, o, off, n, k, t, work, word)
    requires k == 0 ==> off > 0 && w == v && fds == fds0
    requires k > 0 ==> Grounded(g, w, fds, fdi, dir, m0, o, off, data, n, k)
    requires forall x :: HeaderHas(v, dir, o, x) ==> HeaderHas(w, dir, o, x)
    requires fdi < |fds| && (word == n ==> Length(fds[fdi].size) == n)
    ensures n > 0 && Ended(g, m0, w, if k == 0 && PageCount(g, off) < PageCount(g, n) then Unstored(t, work.body) else NoLoss, dir, fds, fdi, o, off, data, n, word, k)
  {
    hide Filling;
    hide Ended;
    hide Grounded;
    hide HeaderHas;
    hide PageCount;
    FillingReach(g, v, fds0, fdi, dir, m0, o, off, data, n, k, t, work);
    if k == 0 {
      EndFilling(g, v, fds, fdi, dir, m0, o, off, data, n, t, work);
    } else {
      EndGrounded(g, w, fds, fdi, dir, m0, o, off, data, n, k, word);
    }
  }

  lemma FillingReach(g: Geometry, fl: Flash, fds: seq<Fd>, fdi: nat, dir: Dir, m0: Image, o: int, off: nat, data: seq<int>, n: nat, k: nat, t: nat, work: Page)
    requires g.Valid() && Filling(g, fl, fds, fdi, dir, m0, o, off, data, n, k, t, work)
    ensures off <= n <= off + |data|
  {
  }

  /** The index page of the next byte was loaded or begun, everything before it being stored. */
  lemma TurnedBacked(g: Geometry, v: Flash, w: Flash, fds0: seq<Fd>, fds: seq<Fd>, fdi: nat, dir0: Dir, dir: Dir, m0: Image, o: int, off: nat, data: seq<int>, n: nat, k: nat, t: nat, work: Page)
    requires g.Valid() && Settled(g, v, fds0, fdi, dir0, m0, o, off, data, n, TopIx(g, n)) && Filling(g, w, fds, fdi, dir, m0, o, off, data, n, k, t, work) && 1 <= o <= MAX_ID
    requires IndexesSame(v, w) && HeaderKept(dir0, dir, o) && (n > off ==> k > 0) && (k > 0 ==> n > 0)
    requires k == 0 ==> t < |w.pages| && work == w.pages[t]
    ensures Backed(g, w, dir, o, off, n, k, t, work, WordOf(n))
  {
    hide Filling;
    hide HeaderHas;
    hide HeaderKept;
    hide IndexesSame;
    hide PageCount;
    hide TopIx;
    hide Linked;
    hide Grown;
    hide FdsTrack;
    hide Unfinished;
    SettledHeader(g, v, fds0, fdi, dir0, m0, o, off, data, n, TopIx(g, n));
    HeaderStays(g, v, w, dir0, dir, o, WordOf(n));
    FillingReach(g, w, fds, fdi, dir, m0, o, off, data, n, k, t, work);
    if k == 0 {
      BackedLoaded(g, w, fds, fdi, dir, m0, o, off, data, t);
    }
  }

  /** A descriptor that agrees with the medium knows the stored length. */
  lemma OwnSize(g: Geometry, fl: Flash, dir: Dir, fds: seq<Fd>, fdi: nat, m0: Image, o: int, off: nat, data: seq<int>, n: nat, top: nat)
    requires Settled(g, fl, fds, fdi, dir, m0, o, off, data, n, top) && Consistent(g, fl, dir, fds)
    ensures fdi < |fds| && Length(fds[fdi].size) == n
  {
    hide Linked;
    hide Grown;
    hide FdsTrack;
    assert FdOk(Meaning(fl, dir), dir, fds[fdi]);
  }

  /** Ends an append: the descriptor gets the new length, and what is in the buffer is stored. */
  method Finish(fs: Spiffs, fdi: nat, k: nat, t: nat, work: Page, ghost word0: int, ghost dir0: Dir, ghost m0: Image, o: int, off: nat, ghost data: seq<int>, n: nat)
    returns (res: Status, ghost word: int, ghost loss: Loss, ghost dir: Dir)
    requires fs.Valid() && !fs.cleaning && fs.freeBlocks >= 1 && 1 <= o <= MAX_ID && fdi < |fs.fds| && off <= n && (n == 0 ==> k == 0)
    requires Filling(fs.g, fs.flash, fs.fds, fdi, dir0, m0, o, off, data, n, k, t, work) && Backed(fs.g, fs.flash, dir0, o, off, n, k, t, work, word0)
    modifies fs`flash, fs`log, fs`freeBlocks, fs`maxEraseCount, fs`pagesDeleted, fs`pagesAllocated
    modifies fs`freeCursorBlock, fs`freeCursorEntry, fs`fds
    ensures fs.Valid() && fs.Drift() == old(fs.Drift()) && fs.freeBlocks >= 1
    ensures old(fs.Spare()) >= 1 && n > 0 ==> res == OK && fs.Spare() >= old(fs.Spare()) - 1
    ensures Followed(dir0, old(fs.fds), dir, fs.fds, fdi, off)
    ensures res == OK && n > 0 ==> Consistent(fs.g, fs.flash, dir, fs.fds) && word == n
    ensures Ended(fs.g, m0, fs.flash, loss, dir, fs.fds, fdi, o, off, data, n, word, k)
    ensures res != OK || old(!fs.CanTake()) ==> !fs.CanTake()
    ensures res == OK <==> old(fs.CanTake()) || (k == 0 && off == 0)
    ensures if res == OK then word == n else word == word0 && StoreCost(off, k) == 1
    ensures if res == OK then n > 0 ==> Spent(old(fs.Stock({})), fs.Stock({}), StoreCost(off, k), StoreCost(off, k)) else Ends(old(fs.Stock({})), 0, 0)
  {
    hide FreeSuffix;
    hide CursorOk;
    hide All;
    hide FreeBlocks;
    hide ErasedFree;
    hide DeadMarked;
    hide Linked;
    hide FdsOk;
    hide Grown;
    hide Extends;
    hide Geometry.Total;
    hide Geometry.BlockStart;
    hide IxSpan;
    hide Quot;
    hide Rem;
    hide Meaning;
    hide FdsTrack;
    hide Filling;
    hide Settled;
    hide TopIx;
    hide PageCount;
    hide Followed;
    hide Backed;
    hide Ended;
    hide Grounded;
    hide HeaderHas;
    hide HeaderKept;
    hide IndexesSame;
    hide Writer;
    hide Spiffs.CanTake;
    hide Spiffs.Spare;
    hide Spiffs.Stock;
    hide Spent;
    hide Ends;
    dir, word, loss := dir0, word0, NoLoss;
    ghost var fds0 := fs.fds;
    CursorSet(fs.g, fs.flash, fs.fds, fdi, dir, m0, o, off, data, n, k, t, work, n);
    FollowOwn(dir, fds0, fdi, fds0[fdi].(size := n, cursorPix := t, cursorSpan := k), off);
    fs.fds := fs.fds[fdi := fs.fds[fdi].(size := n, cursorPix := t, cursorSpan := k)];
    ghost var fds1 := fs.fds;
    if n == 0 {
      res := StoreEmpty(fs, fdi, t, work, dir, m0, o, data);
      word := 0;
    } else {
      res, dir := StoreHeld(fs, fdi, k, t, work, true, dir, m0, o, off, data, n);
      if res == OK {
        OwnSize(fs.g, fs.flash, dir, fs.fds, fdi, m0, o, off, data, n, k);
        EndSettled(fs.g, fs.flash, fs.fds, fdi, dir, m0, o, off, data, n, k);
        word := n;
      } else {
        loss := if k == 0 && PageCount(fs.g, off) < PageCount(fs.g, n) then Unstored(t, work.body) else NoLoss;
        NotStored(fs.g, old(fs.flash), fs.flash, fds1, fs.fds, fdi, dir, m0, o, off, data, n, k, t, work, word);
      }
    }
    FollowOn(dir0, fds0, dir0, fds1, dir, fs.fds, fdi, off);
  }

  /** The state of an append with `written` bytes done: `prev` is the index page in the buffer, -1 at
      the start; the next byte belongs to page `span` at `pageOffs`; the stored header says `word`. */
  ghost predicate Going(g: Geometry, fl: Flash, fds: seq<Fd>, fdi: nat, dir: Dir, m0: Image, o: int, off: nat, data: seq<int>, ok: bool, written: nat, k: nat, prev: int, t: nat, work: Page, word: int, span: nat, pageOffs: nat)
    requires g.Valid()
  {
    && written <= |data| && (prev == -1 || prev == k) && fdi < |fds|
    && (prev == -1 ==> written == 0 && ok && Settled(g, fl, fds, fdi, dir, m0, o, off, data, off, TopIx(g, off)) && Length(fds[fdi].size) == off)
    && (prev != -1 ==> Filling(g, fl, fds, fdi, dir, m0, o, off, data, off + written, k, t, work) && Backed(g, fl, dir, o, off, off + written, k, t, work, word))
    && (prev != -1 && ok ==> written > 0 && k == TopIx(g, off + written) && word < off + written)
    && (prev != -1 && written == 0 ==> k == IxSpan(g, Quot(off, g.dps)))
    && (prev != -1 ==> word == WordOf(RunStart(g, off, k))) && (written > 0 ==> pageOffs == 0)
    && (ok && written < |data| ==> span == Quot(off + written, g.dps) <= Quot(off + |data| - 1, g.dps) && pageOffs == Rem(off + written, g.dps))
  }

  /** Writes the bytes that go to data page `span`, its index page being in the buffer. */
  method FillPage(fs: Spiffs, fdi: nat, k: nat, t: nat, work0: Page, ghost word: int, span0: nat, pageOffs0: nat, written0: nat, ghost dir0: Dir, ghost m0: Image, o: int, off: nat, data: seq<int>)
    returns (res: Status, work: Page, span: nat, pageOffs: nat, written: nat, ghost dir: Dir)
    requires fs.Valid() && !fs.cleaning && fs.freeBlocks >= 1 && 1 <= o <= MAX_ID && written0 < |data| && fdi < |fs.fds|
    requires Filling(fs.g, fs.flash, fs.fds, fdi, dir0, m0, o, off, data, off + written0, k, t, work0)
    requires Backed(fs.g, fs.flash, dir0, o, off, off + written0, k, t, work0, word) && word == WordOf(RunStart(fs.g, off, k))
    requires span0 == Quot(off + written0, fs.g.dps) && pageOffs0 == Rem(off + written0, fs.g.dps) && k == IxSpan(fs.g, span0)
    requires written0 > 0 ==> pageOffs0 == 0
    modifies fs`flash, fs`log, fs`freeBlocks, fs`maxEraseCount, fs`pagesDeleted, fs`pagesAllocated
    modifies fs`freeCursorBlock, fs`freeCursorEntry
    ensures fs.Valid() && fs.Drift() == old(fs.Drift()) && fs.freeBlocks >= 1
    ensures Going(fs.g, fs.flash, fs.fds, fdi, dir, m0, o, off, data, res == OK, written, k, k, t, work, word, span, pageOffs)
    ensures if res == OK then written0 < written <= |data| && span == span0 + 1 else written == written0 && span == span0 && !fs.CanTake()
    ensures res == OK <==> pageOffs0 > 0 || old(fs.CanTake())
    ensures res != OK ==> DataStop(fs.g, off, |data|, span, off + written, k)
    ensures res == OK ==> span <= Last(fs.g, off, |data|) + 1 && (written == |data| ==> span == Last(fs.g, off, |data|) + 1)
    ensures Followed(dir0, fs.fds, dir, fs.fds, fdi, off)
    ensures old(fs.Spare()) >= 1 ==> res == OK && fs.Spare() >= old(fs.Spare()) - 1
    ensures
      var g, s, before := fs.g, span0, old(fs.Stock({}));
      if res == OK then Spent(before, fs.Stock({}), DataAt(g, off, s), 0) else DataAt(g, off, s) == 1 && Ends(before, 0, 0)
  {
    hide FreeSuffix;
    hide CursorOk;
    hide All;
    hide FreeBlocks;
    hide ErasedFree;
    hide DeadMarked;
    hide Quot;
    hide Rem;
    hide IxSpan;
    hide IxEntry;
    hide TopIx;
    hide PageCount;
    hide Filling;
    hide Settled;
    hide Followed;
    hide Backed;
    hide Ended;
    hide Grounded;
    hide HeaderHas;
    hide HeaderKept;
    hide IndexesSame;
    hide Writer;
    hide Spiffs.CanTake;
    hide Spiffs.Spare;
    hide Spiffs.Stock;
    hide AllWords;
    hide Geometry.Total;
    hide Geometry.BlockStart;
    hide Linked;
    hide Meaning;
    hide FdsTrack;
    hide Grown;
    hide ReBody;
    hide StoreAt;
    hide BeginAt;
    hide DataAt;
    hide RunStart;
    hide AppendStopped;
    var g := fs.g;
    span, pageOffs, written := span0, pageOffs0, written0;
    DataPlan(g, off, |data|, off + written, span, pageOffs);
    var w := if |data| - written < g.dps - pageOffs then |data| - written else g.dps - pageOffs;
    ghost var v, n := fs.flash, off + written;
    PagePosition(g, n, w);
    EntryBehind(g, off, written, span);
    res, work, dir := WriteChunk(fs, fdi, k, t, work0, span, pageOffs, w, dir0, m0, o, off, data, off + written);
    BackedChunk(g, v, fs.flash, fs.fds, fdi, dir0, dir, m0, o, off, data, n, if res == OK then n + w else n, k, t, work0, work, word);
    if res == OK {
      TopAfter(g, n, w);
      if written + w == |data| {
        InPage(g, n, off + |data| - 1);
      }
      pageOffs := 0;
      span := span + 1;
      written := written + w;
      if written < |data| {
        QuotMonotone(off + written, off + |data| - 1, g.dps);
      }
    }
  }

  /** One step of an append: turns to the index page of the next bytes, if that is another one, and
      writes a chunk. `turned` tells whether that index page is in the buffer. A step fails exactly
      when no page can be had. */
  method Step(fs: Spiffs, fdi: nat, k0: nat, prev: int, t0: nat, work0: Page, ghost word0: int, span0: nat, pageOffs0: nat, written0: nat, ghost dir0: Dir, ghost m0: Image, o: int, off: nat, data: seq<int>)
    returns (res: Status, turned: bool, k: nat, t: nat, work: Page, span: nat, pageOffs: nat, written: nat, ghost stage: Stage, ghost word: int, ghost loss: Loss, ghost top: nat, ghost dir: Dir)
    requires fs.Valid() && !fs.cleaning && fs.freeBlocks >= 1 && 1 <= o <= MAX_ID && written0 < |data|
    requires Going(fs.g, fs.flash, fs.fds, fdi, dir0, m0, o, off, data, true, written0, k0, prev, t0, work0, word0, span0, pageOffs0)
    modifies fs`flash, fs`log, fs`freeBlocks, fs`maxEraseCount, fs`pagesDeleted, fs`pagesAllocated
    modifies fs`freeCursorBlock, fs`freeCursorEntry, fs`fds, fs`cursorBlock, fs`cursorEntry
    ensures fs.Valid() && fs.Drift() == old(fs.Drift()) && fs.freeBlocks >= 1
    ensures !turned ==> res != OK && written == written0 && off + written > 0 && Ended(fs.g, m0, fs.flash, loss, dir, fs.fds, fdi, o, off, data, off + written, word, top)
    ensures turned ==> Going(fs.g, fs.flash, fs.fds, fdi, dir, m0, o, off, data, res == OK, written, k, k, t, work, word, span, pageOffs)
    ensures res == OK ==> written > written0 && span == span0 + 1
    ensures turned ==> written <= |data| && (res != OK ==> written == written0)
    ensures res != OK ==> !fs.CanTake()
    ensures Followed(dir0, old(fs.fds), dir, fs.fds, fdi, off)
    ensures off == written0 == 0 ==> turned && (res == OK <==> old(fs.CanTake()))
    ensures old(fs.Spare()) >= 3 ==> res == OK && fs.Spare() >= old(fs.Spare()) - 3
    ensures !turned ==> AppendStopped(fs.g, off, |data|, stage, off + written, word, top)
    ensures turned && res != OK ==> span == span0 && stage == AtData(span) && DataStop(fs.g, off, |data|, span, off + written, k)
    ensures res == OK ==> span <= Last(fs.g, off, |data|) + 1 && (written == |data| ==> span == Last(fs.g, off, |data|) + 1)
    ensures
      var g, s, before := fs.g, span0, old(fs.Stock({}));
      if res == OK then Spent(before, fs.Stock({}), PagesAt(g, off, s), StoreAt(g, off, s))
      else StopsAt(g, off, s, stage) && Ends(before, HadAt(g, off, s, stage), DropsAt(g, off, s, stage))
  {
    hide FreeSuffix;
    hide CursorOk;
    hide All;
    hide FreeBlocks;
    hide ErasedFree;
    hide DeadMarked;
    hide Quot;
    hide Rem;
    hide IxSpan;
    hide IxEntry;
    hide TopIx;
    hide PageCount;
    hide Filling;
    hide Settled;
    hide Followed;
    hide Backed;
    hide Ended;
    hide Grounded;
    hide HeaderHas;
    hide HeaderKept;
    hide IndexesSame;
    hide Writer;
    hide Spiffs.CanTake;
    hide Spiffs.Spare;
    hide Spiffs.Stock;
    hide AllWords;
    hide Geometry.Total;
    hide Geometry.BlockStart;
    hide Linked;
    hide Meaning;
    hide FdsTrack;
    hide Grown;
    hide ReBody;
    hide StoreAt;
    hide BeginAt;
    hide DataAt;
    hide RunStart;
    hide AppendStopped;
    var g := fs.g;
    dir, res, t, work, turned, written, span, pageOffs := dir0, OK, t0, work0, true, written0, span0, pageOffs0;
    word, loss, top, stage := word0, NoLoss, 0, AtData(span0);
    QuotMonotone(off + written, off + |data| - 1, g.dps);
    k := IxSpan(g, span);
    FollowRefl(dir0, fs.fds, fdi, off);
    ghost var fds0 := fs.fds;
    ZeroTop(g, off + written, k);
    DataPlan(g, off, |data|, off + written, span, pageOffs);
    if k == prev {
      SamePlan(g, off, off + written, k);
    } else {
      res, t, work, stage, word, loss, top, dir := Turn(fs, fdi, k, prev, t, work, word, dir, m0, o, off, data, off + written);
      turned := res == OK;
    }
    if turned {
      stage := AtData(span0);
      ghost var dir1, fds1 := dir, fs.fds;
      res, work, span, pageOffs, written, dir := FillPage(fs, fdi, k, t, work, word, span, pageOffs, written, dir, m0, o, off, data);
      FollowOn(dir0, fds0, dir1, fds1, dir, fs.fds, fdi, off);
    }
  }

  /** A data page that an append stops at, with `n` bytes in place and index page `k` in the buffer. */
  predicate DataStop(g: Geometry, off: nat, len: nat, s: nat, n: nat, k: nat)
    requires g.Valid() && len > 0
  {
    First(g, off) <= s <= Last(g, off, len) && DataAt(g, off, s) == 1 && n == s * g.dps && k == IxSpan(g, s)
  }

  /** A data page is new if nothing of it is there. */
  lemma DataPlan(g: Geometry, off: nat, len: nat, n: nat, s: nat, pageOffs: nat)
    requires g.Valid() && off <= n < off + len && s == Quot(n, g.dps) && pageOffs == Rem(n, g.dps) && (n > off ==> pageOffs == 0)
    ensures First(g, off) <= s <= Last(g, off, len) && DataAt(g, off, s) == (if pageOffs == 0 then 1 else 0)
    ensures pageOffs == 0 ==> n == s * g.dps
  {
    hide Quot;
    hide Rem;
    InReach(g, off, len, n);
    QuotRem(n, g.dps);
    QuotRem(off, g.dps);
  }

  /** What an append takes where it stays under the same index page. */
  lemma SamePlan(g: Geometry, off: nat, n: nat, k: nat)
    requires g.Valid() && off < n && Rem(n, g.dps) == 0 && k == IxSpan(g, Quot(n, g.dps)) == TopIx(g, n)
    ensures var s := Quot(n, g.dps); StoreAt(g, off, s) == 0 && BeginAt(g, off, s) == 0
  {
    hide Quot;
    hide Rem;
    hide IxSpan;
    PageEnd(g, n);
    QuotRem(off, g.dps);
    QuotMonotone(off, n - 1, g.dps);
  }

  /** A new page under the header gets an entry behind those of the pages there were. */
  lemma EntryBehind(g: Geometry, off: nat, written: nat, span: nat)
    requires g.Valid() && span == Quot(off + written, g.dps)
    ensures Rem(off + written, g.dps) == 0 && IxSpan(g, span) == 0 ==> IxEntry(g, span) >= PageCount(g, off)
  {
    hide Quot;
    hide Rem;
    PagePosition(g, off + written, g.dps - Rem(off + written, g.dps));
    MorePages(g, off, off + written);
  }

  lemma GoingStart(g: Geometry, fl: Flash, fds: seq<Fd>, fdi: nat, dir: Dir, m0: Image, o: int, off: nat, data: seq<int>, t: nat, work: Page)
    requires g.Valid() && fdi < |fds| && Settled(g, fl, fds, fdi, dir, m0, o, off, data, off, TopIx(g, off)) && Length(fds[fdi].size) == off
    ensures Going(g, fl, fds, fdi, dir, m0, o, off, data, true, 0, 0, -1, t, work, WordOf(off), Quot(off, g.dps), Rem(off, g.dps))
  {
    hide Settled;
    hide TopIx;
    if |data| > 0 {
      QuotMonotone(off, off + |data| - 1, g.dps);
    }
  }

  lemma GoingOn(g: Geometry, fl: Flash, fds: seq<Fd>, fdi: nat, dir: Dir, m0: Image, o: int, off: nat, data: seq<int>, written: nat, k: nat, prev: int, t: nat, work: Page, word: int, span: nat, pageOffs: nat)
    requires g.Valid() && Going(g, fl, fds, fdi, dir, m0, o, off, data, true, written, k, prev, t, work, word, span, pageOffs) && written < |data|
    ensures span <= Quot(off + |data| - 1, g.dps)
  {
    hide Filling;
    hide Settled;
  }

  lemma GoneThrough(g: Geometry, fl: Flash, fds: seq<Fd>, fdi: nat, dir: Dir, m0: Image, o: int, off: nat, data: seq<int>, ok: bool, written: nat, k: nat, prev: int, t: nat, work: Page, word: int, span: nat, pageOffs: nat)
    requires g.Valid() && Going(g, fl, fds, fdi, dir, m0, o, off, data, ok, written, k, prev, t, work, word, span, pageOffs) && |data| > 0
    requires !ok || written == |data|
    ensures fdi < |fds| && Filling(g, fl, fds, fdi, dir, m0, o, off, data, off + written, k, t, work) && Backed(g, fl, dir, o, off, off + written, k, t, work, word)
    ensures (off + written == 0 ==> k == 0) && (ok ==> k == TopIx(g, off + written)) && word == WordOf(RunStart(g, off, k))
  {
    hide Filling;
    hide Settled;
    hide TopIx;
  }

  /** How many pages writing bytes from `off` to `off + len` touches. */
  function Touched(g: Geometry, off: nat, len: nat): (n: int)
    requires g.Valid() && len > 0
  {
    Quot(off + len - 1, g.dps) - Quot(off, g.dps) + 1
  }

  /** Allocations that an append may need: for each page it touches the page itself, and a new index
      page and a new header when the index goes on there; and the header at the end. */
  function AppendNeed(g: Geometry, off: nat, len: nat): int
    requires g.Valid() && len > 0
  {
    3 * Touched(g, off, len) + 1
  }

  /** What a write touches holds what is written. */
  lemma TouchedHolds(g: Geometry, off: nat, len: nat)
    requires g.Valid() && len > 0
    ensures Touched(g, off, len) >= 1 && len <= Touched(g, off, len) * g.dps
  {
    hide Quot;
    QuotMonotone(off, off + len - 1, g.dps);
    QuotRem(off, g.dps);
    QuotRem(off + len - 1, g.dps);
    var a, b := Quot(off, g.dps), Quot(off + len - 1, g.dps);
    assert (b - a + 1) * g.dps == b * g.dps - a * g.dps + g.dps;
  }

  lemma NeedFits(g: Geometry, len: nat, pages: int, spare: int)
    requires g.Valid() && pages >= 1 && len <= pages * g.dps && spare >= 2 * pages + 2
    ensures len + g.dps < (spare - 1) * g.dps
  {
    assert len + g.dps <= (pages + 1) * g.dps;
    assert (spare - 1) * g.dps == (pages + 1) * g.dps + (spare - pages - 2) * g.dps;
    assert (spare - pages - 2) * g.dps >= g.dps;
  }

  lemma AppendRoom(g: Geometry, off: nat, len: nat, spare: int)
    requires g.Valid() && len > 0 && spare >= AppendNeed(g, off, len)
    ensures len + g.dps < (spare - 1) * g.dps && spare >= 4
  {
    hide Touched;
    TouchedHolds(g, off, len);
    NeedFits(g, len, Touched(g, off, len), spare);
  }

  /** After an append the file is well-formed with the bytes that are in place, if the header counts
      them all and no index page is without them. */
  lemma EndedFile(g: Geometry, fl: Flash, loss: Loss, dir: Dir, fds: seq<Fd>, fdi: nat, m0: Image, o: int, off: nat, data: seq<int>, n: nat, top: nat)
    requires g.Valid() && Ended(g, m0, fl, loss, dir, fds, fdi, o, off, data, n, n, top) && n > 0
    ensures loss == NoLoss && off <= n <= off + |data| && Appended(g, m0, Meaning(fl, dir), o, off, data[..n - off], top)
  {
    hide RefsLead;
    hide DataReferred;
    hide GoodPages;
    hide FdsTrack;
    hide Grown;
    hide PageCount;
    hide TopIx;
    assert loss == NoLoss;
    var x := Key(IndexId(o), 0);
    GrownReach(g, m0, Meaning(fl, dir), o, off, data, n, top);
    GrownHeader(g, m0, Meaning(fl, dir), o, off, data, n, top);
    assert x in Meaning(fl, dir) && KeyAt(fl, dir[x]) == x;
    AppendDone(g, fl, fds, fdi, dir, m0, o, off, data, n, top);
  }

  lemma GrownHeader(g: Geometry, m0: Image, m: Image, o: int, off: nat, data: seq<int>, n: nat, top: nat)
    requires g.Valid() && Grown(g, m0, m, o, off, data, n, top)
    ensures Key(IndexId(o), 0) in m && m[Key(IndexId(o), 0)].Header?
  {
  }

  /** Positions `p` from `word` up to `n` are in the page the one in front of `word` is in. */
  lemma SameLastPage(g: Geometry, word: nat, n: nat, p: nat)
    requires g.Valid() && 0 < word <= p < n && PageCount(g, word) == PageCount(g, n)
    ensures Quot(p, g.dps) == Quot(word, g.dps) && 0 < Rem(word, g.dps) <= Rem(p, g.dps) && Rem(p, g.dps) == Rem(word, g.dps) + (p - word)
  {
    hide Quot;
    hide Rem;
    QuotMonotone(word - 1, word, g.dps);
    QuotMonotone(word, p, g.dps);
    QuotMonotone(p, n - 1, g.dps);
    QuotRemNext(word - 1, g.dps);
    SamePage(g, word, p);
  }

  lemma ShorterTail(g: Geometry, m: Image, o: int, off: nat, data: seq<int>, n: nat, word: nat)
    requires g.Valid() && 0 < word <= n && off <= word && n <= off + |data| && PageCount(g, word) == PageCount(g, n)
    requires DataPages(g, m, o, PageCount(g, n)) && TailErased(g, m, o, n)
    requires forall p: nat :: off <= p < n ==> ByteAt(g, m, o, p) == data[p - off]
    ensures TailErased(g, m, o, word) <==> BlankBehind(off, data, n, word)
  {
    hide Quot;
    hide Rem;
    hide PageCount;
    hide DataPages;
    var k := Key(o, Quot(word, g.dps));
    forall i | 0 <= i < |data| && word <= off + i < n
      ensures TailErased(g, m, o, word) ==> data[i] == -1
    {
      var p := off + i;
      SameLastPage(g, word, n, p);
      InsideFile(g, m, o, n, p);
      assert ByteAt(g, m, o, p) == data[p - off];
    }
    if BlankBehind(off, data, n, word) && Rem(word, g.dps) > 0 && k in m && m[k].Data? {
      forall x | Rem(word, g.dps) <= x < |m[k].bytes|
        ensures m[k].bytes[x] == -1
      {
        TailByte(g, m, o, off, data, n, word, x);
      }
    }
  }

  lemma TailByte(g: Geometry, m: Image, o: int, off: nat, data: seq<int>, n: nat, word: nat, x: int)
    requires g.Valid() && 0 < word <= n && off <= word && n <= off + |data| && PageCount(g, word) == PageCount(g, n)
    requires DataPages(g, m, o, PageCount(g, n)) && TailErased(g, m, o, n) && BlankBehind(off, data, n, word)
    requires forall p: nat :: off <= p < n ==> ByteAt(g, m, o, p) == data[p - off]
    requires var k := Key(o, Quot(word, g.dps)); Rem(word, g.dps) > 0 && k in m && m[k].Data? && Rem(word, g.dps) <= x < |m[k].bytes|
    ensures m[Key(o, Quot(word, g.dps))].bytes[x] == -1
  {
    hide Quot;
    hide Rem;
    hide PageCount;
    var k := Key(o, Quot(word, g.dps));
    assert |m[k].bytes| == g.dps;
    var p: nat := word + (x - Rem(word, g.dps));
    InPage(g, word, p);
    if p < n {
      assert ByteAt(g, m, o, p) == data[p - off];
    } else if word < n {
      SameLastPage(g, word, n, n - 1);
      InPage(g, word, n);
    }
  }

  /** When an append leaves a well-formed file of the length its header has: exactly if it is in order. */
  lemma EndedExact(g: Geometry, fl: Flash, loss: Loss, dir: Dir, fds: seq<Fd>, fdi: nat, m0: Image, o: int, off: nat, data: seq<int>, n: nat, word: int, top: nat)
    requires g.Valid() && Ended(g, m0, fl, loss, dir, fds, fdi, o, off, data, n, word, top) && 1 <= o <= MAX_ID
    ensures
      Linked(g, fl, dir) && IsFile(g, Meaning(fl, dir), o, Length(word)) <==> InOrder(g, off, data, n, word, top)
  {
    hide Linked;
    hide FdsTrack;
    hide PageCount;
    hide TopIx;
    hide RealLoss;
    hide TailErased;
    hide BlankBehind;
    hide ByteAt;
    if loss.Unstored? {
      LossShows(g, fl, dir, loss, dir);
    } else {
      var m := Meaning(fl, dir);
      HeaderWord(g, fl, dir, o, word);
      if word != 0 && PageCount(g, word) == PageCount(g, n) {
        ShorterTail(g, m, o, off, data, n, word);
      }
      SamePages(g, m, o, n, top, word);
    }
  }

  /** When an append leaves a well-formed file, by the stage at which it stopped; for no other length
      there is a file, and with no other directory. */
  lemma StoppedExact(g: Geometry, fl: Flash, loss: Loss, dir: Dir, fds: seq<Fd>, fdi: nat, m0: Image, o: int, off: nat, data: seq<int>, stage: Stage, n: nat, word: int, top: nat)
    requires g.Valid() && |data| > 0 && Ended(g, m0, fl, loss, dir, fds, fdi, o, off, data, n, word, top) && 1 <= o <= MAX_ID
    requires AppendStopped(g, off, |data|, stage, n, word, top)
    ensures (exists d, len: nat :: Linked(g, fl, d) && IsFile(g, Meaning(fl, d), o, len)) <==> AppendOrder(g, off, data, stage)
  {
    hide Linked;
    hide IsFile;
    hide RealLoss;
    hide InOrder;
    hide AppendOrder;
    hide AppendStopped;
    hide PageCount;
    hide Grown;
    hide FdsTrack;
    EndedExact(g, fl, loss, dir, fds, fdi, m0, o, off, data, n, word, top);
    AppendExact(g, off, data, stage, n, word, top);
    if d, len: nat :| Linked(g, fl, d) && IsFile(g, Meaning(fl, d), o, len) {
      if loss.Unstored? {
        LossShows(g, fl, dir, loss, d);
      } else {
        OneDir(g, fl, dir, d);
        FileWord(g, fl, dir, o, len, word);
      }
    }
  }

  /** A consistent medium has one directory. */
  lemma OneDir(g: Geometry, fl: Flash, dir: Dir, d: Dir)
    requires Linked(g, fl, dir) && Linked(g, fl, d)
    ensures d == dir
  {
    hide Linked;
    SameLocations(g, fl, fl, dir, d);
  }

  /** A well-formed file is as long as its header says. */
  lemma FileWord(g: Geometry, fl: Flash, dir: Dir, o: int, len: nat, word: int)
    requires g.Valid() && HeaderHas(fl, dir, o, word) && IsFile(g, Meaning(fl, dir), o, len)
    ensures len == Length(word)
  {
    hide Extent;
    hide TopIx;
    FileHead(g, Meaning(fl, dir), o, len);
    HeaderWord(g, fl, dir, o, word);
  }

  lemma FileHead(g: Geometry, m: Image, o: int, n: nat)
    requires g.Valid() && IsFile(g, m, o, n)
    ensures Key(IndexId(o), 0) in m && m[Key(IndexId(o), 0)].Header? && Length(m[Key(IndexId(o), 0)].size) == n
  {
  }

  /** What was in the file before is still there after a loss: under the stored header, which has the old
      length, and the same bytes. */
  lemma LostKeeps(g: Geometry, fl: Flash, loss: Loss, dir: Dir, fds: seq<Fd>, fdi: nat, m0: Image, o: int, off: nat, data: seq<int>, n: nat, word: int, top: nat, p: nat)
    requires g.Valid() && Ended(g, m0, fl, loss, dir, fds, fdi, o, off, data, n, word, top) && 1 <= o <= MAX_ID && loss.Unstored? && p < off
    ensures HeaderHas(fl, dir, o, off)
    ensures
      var x, q := Key(IndexId(o), 0), Quot(p, g.dps);
      && x in dir && var r := RefAt(fl, dir, x, q);
         RefLeads(g, fl, x, q, r) && fl.pages[r].body.Data? && Rem(p, g.dps) < |fl.pages[r].body.bytes| && fl.pages[r].body.bytes[Rem(p, g.dps)] == ByteAt(g, m0, o, p)
  {
    hide Quot;
    hide Rem;
    hide TailErased;
    hide FdsTrack;
    hide PageCount;
    hide Linked;
    hide RealLoss;
    hide RefLeads;
    hide ByteAt;
    var v, x, q := Mended(fl, loss), Key(IndexId(o), 0), Quot(p, g.dps);
    MorePages(g, p + 1, off);
    MorePages(g, off, n);
    PagePosition(g, p, g.dps - Rem(p, g.dps));
    InFirst(g, off, p);
    UnderHeader(g, v, dir, m0, o, off, data, n, q);
    PageUnder(g, v, dir, o, p);
    assert ByteAt(g, Meaning(v, dir), o, p) == ByteAt(g, m0, o, p);
    assert RefAt(fl, dir, x, q) == RefAt(v, dir, x, q);
    LossAside(g, fl, loss, dir, x, q, RefAt(v, dir, x, q));
  }

  lemma InFirst(g: Geometry, off: nat, p: nat)
    requires g.Valid() && p < off
    ensures Quot(p, g.dps) < PageCount(g, off)
  {
    hide Quot;
    QuotMonotone(p, off - 1, g.dps);
  }

  /** A byte of a file, through the header page. */
  lemma PageUnder(g: Geometry, fl: Flash, dir: Dir, o: int, p: nat)
    requires Linked(g, fl, dir) && 1 <= o <= MAX_ID && Key(o, Quot(p, g.dps)) in dir && Quot(p, g.dps) < g.hdrLen
    ensures
      var x, q := Key(IndexId(o), 0), Quot(p, g.dps);
      && x in dir && var r := RefAt(fl, dir, x, q);
         RefLeads(g, fl, x, q, r) && fl.pages[r].body.Data? && Rem(p, g.dps) < |fl.pages[r].body.bytes| && fl.pages[r].body.bytes[Rem(p, g.dps)] == ByteAt(g, Meaning(fl, dir), o, p)
  {
    hide Quot;
    hide Rem;
    hide ErasedFree;
    hide Headed;
    var x, k := Key(IndexId(o), 0), Key(o, Quot(p, g.dps));
    assert Referred(g, fl, dir, k) && IndexKey(g, k) == x;
    assert KeyAt(fl, dir[k]) == k && GoodPage(g, fl.lu[dir[k]], fl.pages[dir[k]]);
    assert k in Meaning(fl, dir);
  }

  /** A reference to a data page leads there with or without the lost index page. */
  lemma LossAside(g: Geometry, fl: Flash, loss: Loss, dir: Dir, k: Key, i: int, r: int)
    requires g.Valid() && RealLoss(fl, loss) && loss.Unstored? && RefLeads(g, Mended(fl, loss), k, i, r) && 1 <= ObjectId(k.id)
    ensures RefLeads(g, fl, k, i, r) && fl.pages[r] == Mended(fl, loss).pages[r]
  {
    hide IxSpan;
    hide IxEntry;
  }

  lemma HeaderWord(g: Geometry, fl: Flash, dir: Dir, o: int, word: int)
    requires g.Valid() && HeaderHas(fl, dir, o, word) && Key(IndexId(o), 0) in Meaning(fl, dir) && Meaning(fl, dir)[Key(IndexId(o), 0)].Header?
    ensures Meaning(fl, dir)[Key(IndexId(o), 0)].size == word
  {
  }

  lemma SamePages(g: Geometry, m: Image, o: int, n: nat, top: nat, word: nat)
    requires g.Valid() && ExtentTop(g, m, o, n, top)
    ensures Extent(g, m, o, word) ==> top == TopIx(g, word) && PageCount(g, word) == PageCount(g, n)
  {
    hide PageCount;
    hide TopIx;
    if Extent(g, m, o, word) {
      var a, b, c := PageCount(g, word), PageCount(g, n), TopIx(g, word);
      assert Key(IndexId(o), top) in m && Key(IndexId(o), c) in m;
      assert (Key(o, a) in m <==> 0 <= a < b) && (Key(o, b) in m <==> 0 <= b < a);
    }
  }

  /** The room check found room, and then a new page could be had or not; `lu` and `free` are the
      lookup entries and the number of free blocks at that time. */
  ghost predicate Roomy(g: Geometry, lu: seq<int>, free: int) {
    free >= 2 || (free == 1 && exists b :: 0 <= b < g.blocks && AllGone(g, lu, b))
  }

  lemma RoomyNow(fs: Spiffs)
    requires fs.Valid() && !fs.cleaning && All(fs.flash.lu, Unused) > 0
    ensures fs.CanTake() <==> Roomy(fs.g, fs.flash.lu, fs.freeBlocks)
  {
    SomeUnused(fs.flash.lu, |fs.flash.lu|);
  }

  lemma SomeUnused(lu: seq<int>, n: nat)
    requires n <= |lu| && Count(lu, 0, n, Unused) > 0
    ensures exists t: nat :: t < |lu| && lu[t] == FREE
  {
    if forall t: nat :: t < |lu| ==> lu[t] != FREE {
      CountNone(lu, 0, n, Unused);
    }
  }

  /** How an append is getting on: what is `spare` is enough for the data pages up to span `last` if
      `need` was there when it began; it only stops where no page can be had (`can`); and an append to
      an empty file has written something exactly if a page could be had at first. */
  ghost predicate Pace(off: nat, ok: bool, written: nat, span: nat, last: nat, before: int, need: int, spare: int, can: bool, roomy: bool) {
    && (before >= need ==> ok && spare >= before - need + 1 + (if span <= last then 3 * (last - span + 1) else 0))
    && (!ok ==> !can)
    && (ok && written == 0 ==> (can <==> roomy))
    && (off == 0 && (!ok || written > 0) ==> (written == 0 <==> !roomy))
  }

  lemma PaceStart(g: Geometry, off: nat, len: nat, before: int, spare: int, can: bool)
    requires g.Valid() && len > 0 && (before >= AppendNeed(g, off, len) ==> spare >= before)
    requires Quot(off, g.dps) <= Quot(off + len - 1, g.dps)
    ensures Pace(off, true, 0, Quot(off, g.dps), Quot(off + len - 1, g.dps), before, AppendNeed(g, off, len), spare, can, can)
  {
    hide Quot;
  }

  lemma PaceOn(off: nat, written: nat, span: nat, last: nat, before: int, need: int, spare: int, can: bool, roomy: bool, ok': bool, written': nat, span': nat, spare': int, can': bool)
    requires Pace(off, true, written, span, last, before, need, spare, can, roomy) && span <= last
    requires ok' ==> written' > written && span' == span + 1
    requires !ok' ==> written' == written && !can'
    requires off == written == 0 ==> (ok' <==> can)
    requires spare >= 3 ==> ok' && spare' >= spare - 3
    ensures Pace(off, ok', written', span', last, before, need, spare', can', roomy)
  {
  }

  lemma PaceEnd(off: nat, ok: bool, written: nat, span: nat, last: nat, before: int, need: int, spare: int, can: bool, roomy: bool)
    requires Pace(off, ok, written, span, last, before, need, spare, can, roomy)
    ensures before >= need ==> ok && spare >= before - need + (if span <= last then 4 else 1)
    ensures !ok ==> !can
    ensures off == 0 && (!ok || written > 0) ==> (written == 0 <==> !roomy)
  {
  }

  /** Appends `data` once there is room, `off` being the length of the file: stops exactly where no
      more page can be had. */
  method AppendRest(fs: Spiffs, fdi: nat, off: nat, data: seq<int>, ghost dir0: Dir, ghost m0: Image, o: int)
    returns (res: Status, written: nat, ghost stage: Stage, ghost loss: Loss, ghost word: int, ghost top: nat, ghost dir: Dir)
    requires fs.Valid() && !fs.cleaning && fs.freeBlocks >= 1 && All(fs.flash.lu, Unused) > 0 && |data| > 0 && 1 <= o <= MAX_ID
    requires fdi < |fs.fds| && Length(fs.fds[fdi].size) == off
    requires Settled(fs.g, fs.flash, fs.fds, fdi, dir0, m0, o, off, data, off, TopIx(fs.g, off))
    modifies fs`flash, fs`log, fs`freeBlocks, fs`maxEraseCount, fs`pagesDeleted, fs`pagesAllocated
    modifies fs`freeCursorBlock, fs`freeCursorEntry, fs`fds, fs`cursorBlock, fs`cursorEntry
    ensures fs.Valid() && fs.Drift() == old(fs.Drift()) && fs.freeBlocks >= 1
    ensures old(fs.Spare()) >= AppendNeed(fs.g, off, |data|) ==> res == OK && fs.Spare() >= old(fs.Spare()) - AppendNeed(fs.g, off, |data|)
    ensures res == OK ==> written == |data| && Consistent(fs.g, fs.flash, dir, fs.fds) && word == off + |data| && top == TopIx(fs.g, off + |data|)
    ensures res != OK ==> !fs.CanTake()
    ensures written <= |data| && Ended(fs.g, m0, fs.flash, loss, dir, fs.fds, fdi, o, off, data, off + written, word, top)
    ensures Followed(dir0, old(fs.fds), dir, fs.fds, fdi, off)
    ensures word == 0 <==> off == 0 && !Roomy(fs.g, old(fs.flash).lu, old(fs.freeBlocks))
    ensures AppendStopped(fs.g, off, |data|, stage, off + written, word, top) && (res == OK <==> stage == Whole)
    ensures First(fs.g, off) <= Last(fs.g, off, |data|) && Foreseen(fs.g, off, Last(fs.g, off, |data|), old(fs.Stock({})), stage)
  {
    hide FreeSuffix;
    hide Pace;
    hide Pace;
    hide AppendNeed;
    hide OwnSlots;
    hide StoreCost;
    hide Going;
    hide Spiffs.Drift;
    hide SameOpen;
    hide Spiffs.Spare;
    hide Spiffs.CanTake;
    hide Consistent;
    hide Writer;
    hide PageCount;
    hide IxEntry;
    hide CursorOk;
    hide All;
    hide FreeBlocks;
    hide ErasedFree;
    hide DeadMarked;
    hide Linked;
    hide FdsOk;
    hide Grown;
    hide Extends;
    hide Geometry.Total;
    hide Geometry.BlockStart;
    hide IxSpan;
    hide Quot;
    hide Rem;
    hide Meaning;
    hide FdsTrack;
    hide Filling;
    hide Settled;
    hide TopIx;
    hide Followed;
    hide Backed;
    hide Ended;
    hide Roomy;
    hide Spiffs.Stock;
    hide StoreAt;
    hide BeginAt;
    hide DataAt;
    hide RunStart;
    hide AppendStopped;
    hide DataStop;
    hide AppendStop;
    hide AppendDrops;
    hide OnPlan;
    hide Foreseen;
    hide HadAt;
    hide DropsAt;
    hide Spent;
    hide Ends;
    var g := fs.g;
    ghost var spare, need := fs.Spare(), AppendNeed(g, off, |data|);
    ghost var lu, free, stock := fs.flash.lu, fs.freeBlocks, fs.Stock({});
    stage := Whole;
    written, top, dir, loss := 0, 0, dir0, NoLoss;
    res := OK;
    RoomyNow(fs);
    FollowRefl(dir0, fs.fds, fdi, off);
    var k: nat, prev: int, t: nat, work: Page := 0, -1, 0, ERASED;
    QuotMonotone(off, off + |data| - 1, g.dps);
    var span, pageOffs := Quot(off, g.dps), Rem(off, g.dps);
    word := WordOf(off);
    GoingStart(g, fs.flash, fs.fds, fdi, dir, m0, o, off, data, t, work);
    ghost var last := Quot(off + |data| - 1, g.dps);
    PlanStart(g, off, last, stock);
    PaceStart(g, off, |data|, spare, fs.Spare(), fs.CanTake());
    while res == OK && written < |data|
      invariant written <= |data| && fs.Valid() && !fs.cleaning && fs.Drift() == old(fs.Drift()) && fs.freeBlocks >= 1
      invariant Going(g, fs.flash, fs.fds, fdi, dir, m0, o, off, data, res == OK, written, k, prev, t, work, word, span, pageOffs)
      invariant Followed(dir0, old(fs.fds), dir, fs.fds, fdi, off)
      invariant Pace(off, res == OK, written, span, last, spare, need, fs.Spare(), fs.CanTake(), Roomy(g, lu, free))
      invariant span <= last + 1 && (written == |data| ==> span == last + 1)
      invariant if res == OK then OnPlan(g, off, span, last, stock, fs.Stock({}))
                else stage == AtData(span) && DataStop(g, off, |data|, span, off + written, k) && Foreseen(g, off, last, stock, stage)
      decreases res == OK, |data| - written
    {
      var turned;
      ghost var dir1, fds1, written1, span1, spare1, can1, stock1 := dir, fs.fds, written, span, fs.Spare(), fs.CanTake(), fs.Stock({});
      GoingOn(g, fs.flash, fs.fds, fdi, dir, m0, o, off, data, written, k, prev, t, work, word, span, pageOffs);
      res, turned, k, t, work, span, pageOffs, written, stage, word, loss, top, dir := Step(fs, fdi, k, prev, t, work, word, span, pageOffs, written, dir, m0, o, off, data);
      FollowOn(dir0, old(fs.fds), dir1, fds1, dir, fs.fds, fdi, off);
      if res == OK {
        PlanOn(g, off, span1, last, stock, stock1, fs.Stock({}));
      } else {
        PlanStops(g, off, span1, last, stock, stock1, stage);
      }
      if !turned {
        EndedWord(g, m0, fs.flash, loss, dir, fs.fds, fdi, o, off, data, off + written, word, top);
        PaceEnd(off, true, written, span1, last, spare, need, spare1, can1, Roomy(g, lu, free));
        return;
      }
      PaceOn(off, written1, span1, last, spare, need, spare1, can1, Roomy(g, lu, free), res == OK, written, span, fs.Spare(), fs.CanTake());
      prev := k;
    }
    PaceEnd(off, res == OK, written, span, last, spare, need, fs.Spare(), fs.CanTake(), Roomy(g, lu, free));
    GoneThrough(g, fs.flash, fs.fds, fdi, dir, m0, o, off, data, res == OK, written, k, prev, t, work, word, span, pageOffs);
    ghost var dir1, fds1, word1, stock1, failed := dir, fs.fds, word, fs.Stock({}), res != OK;
    var res2;
    res2, word, loss, dir := Finish(fs, fdi, k, t, work, word, dir, m0, o, off, data, off + written);
    top := k;
    FollowOn(dir0, old(fs.fds), dir1, fds1, dir, fs.fds, fdi, off);
    EndedWord(g, m0, fs.flash, loss, dir, fs.fds, fdi, o, off, data, off + written, word, top);
    if failed {
      DataStopped(g, off, |data|, span, off + written, k, word1, word, res2 == OK);
    } else {
      stage := if res2 == OK then Whole else AtEnd;
      EndStopped(g, off, |data|, k, word1, word, res2 == OK);
      PlanEnds(g, off, last, stock, stock1, fs.Stock({}), res2 == OK);
    }
    if res2 != OK {
      res := res2;
    }
  }

  lemma PlanStart(g: Geometry, off: nat, last: nat, start: Supply)
    requires g.Valid() && First(g, off) <= last
    ensures OnPlan(g, off, First(g, off), last, start, start)
  {
  }

  /** The last index page after a stop at a data page. */
  lemma DataStopped(g: Geometry, off: nat, len: nat, s: nat, n: nat, k: nat, word0: int, word: int, stored: bool)
    requires g.Valid() && len > 0 && DataStop(g, off, len, s, n, k) && word0 == WordOf(RunStart(g, off, k))
    requires if stored then word == n && k == 0 && off == 0 else word == word0 && StoreCost(off, k) == 1
    ensures AppendStopped(g, off, len, AtData(s), n, word, k)
  {
    hide Quot;
    hide Rem;
    hide IxSpan;
    hide RunStart;
    if StoreCost(off, k) == 1 {
      IxMonotone(g, First(g, off), s);
      RunPositive(g, off, k);
    }
  }

  /** The last index page after the last data page. */
  lemma EndStopped(g: Geometry, off: nat, len: nat, k: nat, word0: int, word: int, stored: bool)
    requires g.Valid() && len > 0 && k == TopIx(g, off + len) && word0 == WordOf(RunStart(g, off, k))
    requires if stored then word == off + len else word == word0 && StoreCost(off, k) == 1
    ensures AppendStopped(g, off, len, if stored then Whole else AtEnd, off + len, word, k) && k == IxSpan(g, Last(g, off, len))
  {
    hide Quot;
    hide Rem;
    hide RunStart;
    if !stored {
      RunAt(g, off, off + len, k);
    }
  }

  /** Makes room for a write of `len` bytes and one page more. */
  method WriteRoom(fs: Spiffs, len: nat, maxCandidates: nat, ghost dir0: Dir)
    returns (res: Status, ghost loss: Loss, ghost dir: Dir)
    requires fs.Valid() && !fs.cleaning && maxCandidates > 0 && Consistent(fs.g, fs.flash, dir0, fs.fds)
    modifies fs`flash, fs`log, fs`freeBlocks, fs`maxEraseCount, fs`pagesDeleted, fs`pagesAllocated
    modifies fs`freeCursorBlock, fs`freeCursorEntry, fs`fds, fs`cursorBlock, fs`cursorEntry, fs`cleaning
    ensures fs.Valid() && !fs.cleaning && fs.Drift() >= old(fs.Drift())
    ensures Survived(fs.g, old(fs.flash), dir0, old(fs.fds), fs.flash, loss, dir, fs.fds)
    ensures res == OK || res == ERR_FULL ==> loss == NoLoss && (res == OK <==> Reclaim.Holds(fs.g, fs.flash.lu, len + fs.g.dps))
    ensures res == OK ==> fs.freeBlocks >= 1
    ensures res == OK || res == ERR_FULL || Reclaim.Jammed(fs.g, old(fs.flash), dir0)
    ensures old(Reclaim.Ample(fs, len + fs.g.dps)) ==> res == OK
    ensures old(Reclaim.Dwindles(fs, len + fs.g.dps)) ==> res == ERR_FULL
    ensures old(Reclaim.Idles(fs, len + fs.g.dps)) ==> res == OK && fs.freeBlocks == 1 && |fs.flash.lu| == fs.g.Total() && Undeleted(fs.flash.lu)
    ensures old(fs.freeBlocks) > 3 && len + fs.g.dps < old(Reclaim.FreePages(fs)) * fs.g.dps ==> res == OK && unchanged(fs) && dir == dir0
    ensures old(fs.Spare()) >= Plenty(fs.g) && len + fs.g.dps < (old(fs.Spare()) - 1) * fs.g.dps ==> res == OK && unchanged(fs) && dir == dir0
  {
    hide Reclaim.Idles;
    hide Reclaim.Ample;
    hide Reclaim.Dwindles;
    hide Reclaim.Holds;
    hide Reclaim.FreePages;
    hide Reclaim.Jammed;
    hide Reclaim.Collects;
    hide Undeleted;
    hide Survived;
    hide Consistent;
    hide Plenty;
    hide Spiffs.Spare;
    hide Spiffs.Drift;
    ghost var rounds, first;
    res, rounds, first, loss, dir := Reclaim.Check(fs, len + fs.g.dps, maxCandidates, dir0);
  }

  /** Appends `data` to a file, unless there is no room. It stops exactly where no more page can be
      had, with the first `written` bytes of `data` in place; `Ended` tells what the header then
      says of them. `stage` says where that is, and with it whether the file is in order; as long as no
      block can come to be deleted throughout, it is known from the pages that can be had right after
      the room check (`stock`). To an empty file it writes nothing, and leaves length 0 in its header,
      exactly if none can be had then; `lu` and `free` are the lookup and the count of free blocks at
      that time. */
  method Append(fs: Spiffs, fdi: nat, offset0: nat, data: seq<int>, maxCandidates: nat, ghost dir0: Dir)
    returns (res: Status, written: nat, room: bool, ghost stage: Stage, ghost stock: Supply, ghost loss: Loss, ghost word: int, ghost top: nat, ghost lu: seq<int>, ghost free: int, ghost dir: Dir)
    requires fs.Valid() && !fs.cleaning && maxCandidates > 0
    requires Consistent(fs.g, fs.flash, dir0, fs.fds) && OpenFile(fs.g, Meaning(fs.flash, dir0), fs.fds, fdi)
    requires |data| > 0 && offset0 >= Length(fs.fds[fdi].size) && (fs.fds[fdi].size < 0 ==> offset0 == 0)
    modifies fs`flash, fs`log, fs`freeBlocks, fs`maxEraseCount, fs`pagesDeleted, fs`pagesAllocated
    modifies fs`freeCursorBlock, fs`freeCursorEntry, fs`fds, fs`cursorBlock, fs`cursorEntry, fs`cleaning
    ensures fs.Valid() && !fs.cleaning && fs.Drift() >= old(fs.Drift())
    ensures old(fs.Spare()) >= Plenty(fs.g) && old(fs.Spare()) >= AppendNeed(fs.g, Length(old(fs.fds)[fdi].size), |data|) ==> res == OK && fs.Spare() >= old(fs.Spare()) - AppendNeed(fs.g, Length(old(fs.fds)[fdi].size), |data|)
    ensures old(fs.freeBlocks) > 3 && |data| + fs.g.dps < old(Reclaim.FreePages(fs)) * fs.g.dps ==>
      room && lu == old(fs.flash).lu && free == old(fs.freeBlocks) && stock == old(fs.Stock({})) && fs.Drift() == old(fs.Drift())
    ensures old(Reclaim.Idles(fs, |data| + fs.g.dps)) ==> room && free == 1 && |lu| == fs.g.Total() && Undeleted(lu)
    ensures room ==> fs.freeBlocks >= 1
    ensures res == OK ==> room && written == |data| && Consistent(fs.g, fs.flash, dir, fs.fds)
    ensures !room ==> written == 0 && Survived(fs.g, old(fs.flash), dir0, old(fs.fds), fs.flash, loss, dir, fs.fds)
    ensures !room && res == ERR_FULL ==> loss == NoLoss && !Reclaim.Holds(fs.g, fs.flash.lu, |data| + fs.g.dps)
    ensures room ==> Reclaim.Holds(fs.g, lu, |data| + fs.g.dps)
    ensures old(Reclaim.Ample(fs, |data| + fs.g.dps)) ==> room
    ensures old(Reclaim.Dwindles(fs, |data| + fs.g.dps)) ==> !room && res == ERR_FULL
    ensures !room ==> res == ERR_FULL || Reclaim.Jammed(fs.g, old(fs.flash), dir0)
    ensures room && res != OK ==> !fs.CanTake()
    ensures
      var o, n := ObjectId(old(fs.fds)[fdi].objId), Length(old(fs.fds)[fdi].size);
      && (room ==> written <= |data| && Ended(fs.g, Meaning(old(fs.flash), dir0), fs.flash, loss, dir, fs.fds, fdi, o, n, data, n + written, word, top))
      && (room ==> Followed(dir0, old(fs.fds), dir, fs.fds, fdi, n))
      && (room ==> (word == 0 <==> n == 0 && !Roomy(fs.g, lu, free)))
      && (room ==> AppendStopped(fs.g, n, |data|, stage, n + written, word, top) && (res == OK <==> stage == Whole))
      && (room ==> First(fs.g, n) <= Last(fs.g, n, |data|) && Foreseen(fs.g, n, Last(fs.g, n, |data|), stock, stage))
      && (room ==> ((exists d, len: nat :: Linked(fs.g, fs.flash, d) && IsFile(fs.g, Meaning(fs.flash, d), o, len)) <==> AppendOrder(fs.g, n, data, stage)))
      && (res == OK ==> word == n + |data| && top == TopIx(fs.g, n + |data|))
  {
    hide FreeSuffix;
    hide Spiffs.Drift;
    hide SameOpen;
    hide Spiffs.Spare;
    hide Spiffs.CanTake;
    hide Consistent;
    hide Writer;
    hide PageCount;
    hide IxEntry;
    hide CursorOk;
    hide All;
    hide FreeBlocks;
    hide ErasedFree;
    hide DeadMarked;
    hide Linked;
    hide FdsOk;
    hide Grown;
    hide Extends;
    hide Geometry.Total;
    hide Geometry.BlockStart;
    hide IxSpan;
    hide Quot;
    hide Rem;
    hide Meaning;
    hide FdsTrack;
    hide Filling;
    hide Settled;
    hide TopIx;
    hide Followed;
    hide Backed;
    hide Ended;
    hide Roomy;
    hide Survived;
    hide Reclaim.Jammed;
    hide Reclaim.FreePages;
    hide Spiffs.Stock;
    hide AppendStopped;
    hide Foreseen;
    hide IsFile;
    hide AppendOrder;
    hide AppendStop;
    hide Reclaim.Holds;
    hide Reclaim.Ample;
    hide Reclaim.Dwindles;
    hide Reclaim.Idles;
    hide Undeleted;
    hide AppendDrops;
    var g, o, offset := fs.g, ObjectId(fs.fds[fdi].objId), offset0;
    ghost var m0 := Meaning(fs.flash, dir0);
    OpenId(g, m0, fs.fds, fdi);
    written, top, dir, room, loss, word, lu, free, stage, stock := 0, 0, dir0, false, NoLoss, NONE, [], 0, Whole, fs.Stock({});
    if fs.fds[fdi].size >= 0 && offset > fs.fds[fdi].size {
      offset := fs.fds[fdi].size;
    }
    ghost var spare, need := fs.Spare(), AppendNeed(g, offset, |data|);
    if spare >= need {
      AppendRoom(g, offset, |data|, spare);
    }
    res, loss, dir := WriteRoom(fs, |data|, maxCandidates, dir);
    if res != OK {
      return;
    }
    room, lu, free, stock := true, fs.flash.lu, fs.freeBlocks, fs.Stock({});
    assert old(fs.freeBlocks) > 3 && |data| + g.dps < old(Reclaim.FreePages(fs)) * g.dps ==> lu == old(fs.flash).lu && free == old(fs.freeBlocks);
    CheckedRoom(fs, |data| + g.dps);
    CheckedStart(g, old(fs.flash), dir0, old(fs.fds), fs.flash, dir, fs.fds, fdi, o, data);
    ghost var dir1, fds1 := dir, fs.fds;
    res, written, stage, loss, word, top, dir := AppendRest(fs, fdi, offset, data, dir, m0, o);
    FollowOn(dir0, old(fs.fds), dir1, fds1, dir, fs.fds, fdi, offset);
    StoppedExact(g, fs.flash, loss, dir, fs.fds, fdi, m0, o, offset, data, stage, offset + written, word, top);
  }

  lemma EndedWord(g: Geometry, m0: Image, fl: Flash, loss: Loss, dir: Dir, fds: seq<Fd>, fdi: nat, o: int, off: nat, data: seq<int>, n: nat, word: int, top: nat)
    requires g.Valid() && Ended(g, m0, fl, loss, dir, fds, fdi, o, off, data, n, word, top)
    ensures word == 0 <==> n == 0
  {
    hide Grounded;
    hide RealLoss;
    hide HeaderHas;
  }

  lemma CheckedRoom(fs: Spiffs, len: nat)
    requires fs.Valid() && len > 0 && Reclaim.Holds(fs.g, fs.flash.lu, len)
    ensures All(fs.flash.lu, Unused) > 0
  {
    hide All;
    NoneIsNone(All(fs.flash.lu, Unused) - 2 * fs.g.n, fs.g.dps);
  }

  lemma NoneIsNone(a: int, b: nat)
    ensures a <= 0 ==> a * b <= 0
  {
  }

  /** A medium on which room was made: an append can start. */
  lemma CheckedStart(g: Geometry, v: Flash, dir0: Dir, fds0: seq<Fd>, w: Flash, dir: Dir, fds: seq<Fd>, fdi: nat, o: int, data: seq<int>)
    requires g.Valid() && Survived(g, v, dir0, fds0, w, NoLoss, dir, fds) && OpenFile(g, Meaning(v, dir0), fds0, fdi) && o == ObjectId(fds0[fdi].objId)
    ensures fdi < |fds| && Length(fds[fdi].size) == Length(fds0[fdi].size) && Meaning(w, dir) == Meaning(v, dir0)
    ensures Consistent(g, w, dir, fds) && SameOpen(fds0, fds)
    ensures Settled(g, w, fds, fdi, dir, Meaning(v, dir0), o, Length(fds0[fdi].size), data, Length(fds0[fdi].size), TopIx(g, Length(fds0[fdi].size)))
    ensures Followed(dir0, fds0, dir, fds, fdi, Length(fds0[fdi].size))
  {
    hide Consistent;
    hide Settled;
    hide SameOpen;
    hide TopIx;
    hide Calm;
    hide Followed;
    hide RealLoss;
    hide Mapless;
    hide Meaning;
    hide OpenFile;
    AppendStart(g, w, fds0, fds, fdi, dir, o, data);
    CalmFollows(g, Meaning(v, dir0), v, dir0, fds0, dir, fds, fdi);
  }

  lemma CalmFollows(g: Geometry, m: Image, v: Flash, dir0: Dir, fds0: seq<Fd>, dir: Dir, fds: seq<Fd>, fdi: nat)
    requires g.Valid() && Calm(dir0, fds0, dir, fds) && SameOpen(fds0, fds) && m == Meaning(v, dir0) && OpenFile(g, m, fds0, fdi)
    ensures Followed(dir0, fds0, dir, fds, fdi, Length(fds0[fdi].size))
  {
    hide MapsKept;
    hide IndexPages;
    hide TailErased;
    var fd := fds0[fdi];
    assert Untouched(dir0, fd, fds[fdi]);
    if Length(fd.size) == 0 {
      forall k: Key | k in dir0
        ensures k.id != ObjectId(fd.objId)
      {
        assert k in m && (Key(ObjectId(fd.objId), k.span) in m <==> 0 <= k.span < 0);
      }
    }
  }
}
