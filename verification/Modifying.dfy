/** Changing bytes inside a file: each data page touched is written anew and replaces the old
    one, and so does each index page. */
module Modifying {
  import opened Words
  import opened Layout
  import opened Medium
  import opened Directory
  import opened Tally
  import opened Store
  import opened Collector
  import opened Files
  import opened Holding
  import opened Appending
  import opened Window
  import opened Maps
  import opened Following
  import opened Plans
  import Reclaim

  /** Index page `k` is in the buffer; the bytes up to `n` are changed. */
  ghost predicate Changing(g: Geometry, fl: Flash, fds: seq<Fd>, fdi: nat, dir: Dir, m0: Image, o: int, len: nat, off: nat, data: seq<int>, n: nat, k: nat, t: nat, work: Page) {
    && Held(g, fl, dir, o, k, t, work)
    && Altered(g, m0, Seen(fl, dir, t, work), o, len, off, data, n)
    && FdsOk(Seen(fl, dir, t, work), dir, fds)
    && Writer(fds, fdi, o)
  }

  /** Nothing is in the buffer; the bytes up to `n` are changed. */
  ghost predicate Kept(g: Geometry, fl: Flash, fds: seq<Fd>, fdi: nat, dir: Dir, m0: Image, o: int, len: nat, off: nat, data: seq<int>, n: nat) {
    && Consistent(g, fl, dir, fds)
    && Altered(g, m0, Meaning(fl, dir), o, len, off, data, n)
    && Writer(fds, fdi, o)
  }

  /** Whether the buffer still is index page `t` as loaded (`mark` is negative) or has another
      reference for data page `mark`, one in front of `span`. */
  ghost predicate Touching(g: Geometry, fl: Flash, k: nat, t: nat, work: Page, mark: int, span: nat)
    requires g.Valid()
  {
    && t < |fl.pages|
    && if mark < 0 then work == fl.pages[t]
       else IxSpan(g, mark) == k && mark < span
            && IxEntry(g, mark) < |RefsOf(work.body)| && IxEntry(g, mark) < |RefsOf(fl.pages[t].body)|
            && RefsOf(work.body)[IxEntry(g, mark)] != RefsOf(fl.pages[t].body)[IxEntry(g, mark)]
  }

  /** As `Followed`, but windows are not yet told of the pages under index page `k` of object `o`. */
  ghost predicate Halfway(g: Geometry, dir0: Dir, fds0: seq<Fd>, dir: Dir, fds: seq<Fd>, fdi: nat, len: nat, o: int, k: nat)
    requires g.Valid()
  {
    && SameOpen(fds0, fds) && (Mapless(fds0) ==> Mapless(fds)) && (MapsOk(dir0, fds0) ==> MapsBut(g, dir, fds, o, k))
    && (fdi < |fds0| && Within(fds0[fdi], len) ==> fds[fdi].position == fds0[fdi].position && fds[fdi].pending == fds0[fdi].pending)
  }

  lemma HalfwayStart(g: Geometry, dir0: Dir, fds0: seq<Fd>, dir: Dir, fds: seq<Fd>, fdi: nat, len: nat, o: int, k: nat)
    requires g.Valid() && Followed(dir0, fds0, dir, fds, fdi, len)
    ensures Halfway(g, dir0, fds0, dir, fds, fdi, len, o, k)
  {
    hide Within;
    hide MapsOk;
    if MapsOk(dir0, fds0) {
      MapsStale(g, dir, dir, fds, o, k);
    }
  }

  /** A data page under index page `k` went elsewhere. */
  lemma HalfwayOn(g: Geometry, dir0: Dir, fds0: seq<Fd>, dir: Dir, fds: seq<Fd>, fdi: nat, len: nat, o: int, k: nat, q: nat, f: int)
    requires g.Valid() && Halfway(g, dir0, fds0, dir, fds, fdi, len, o, k) && Key(o, q) in dir && IxSpan(g, q) == k
    ensures Halfway(g, dir0, fds0, dir[Key(o, q) := f], fds, fdi, len, o, k)
  {
    hide Within;
    hide MapsOk;
    hide Mapless;
    hide IxSpan;
    if MapsOk(dir0, fds0) {
      var dir' := dir[Key(o, q) := f];
      forall i | 0 <= i < |fds|
        ensures MapBut(g, dir', fds[i], o, k)
      {
        assert MapBut(g, dir, fds[i], o, k);
        if fds[i].fileNbr != 0 && fds[i].win.Some? {
          var a, w := ObjectId(fds[i].objId), fds[i].win.value;
          forall j | 0 <= j < |w.entries| && !(a == o && IxSpan(g, w.start + j) == k)
            ensures EntryOk(dir', a, w.start + j, w.entries[j])
          {
            assert EntryOk(dir, a, w.start + j, w.entries[j]);
          }
          assert Contiguous(dir', a);
        }
      }
    }
  }

  /** The index page was stored and the descriptors told. */
  lemma HalfwayDone(g: Geometry, v: Flash, dir0: Dir, fds0: seq<Fd>, dir: Dir, fds: seq<Fd>, fds': seq<Fd>, fdi: nat, len: nat, o: int, k: nat, t: nat, work: Page, f: nat, size: int)
    requires Held(g, v, dir, o, k, t, work) && |fds'| == |fds| && (k == 0 && size != 0 ==> size > 0 && size >= len)
    requires Halfway(g, dir0, fds0, dir, fds, fdi, len, o, k)
    requires forall i :: 0 <= i < |fds| ==> fds'[i] == var e := EventFd(fds[i], PageStored(g, k, work.body), IndexId(o), k, f, size); if i == fdi && k == 0 then e.(hdr := f) else e
    ensures Followed(dir0, fds0, dir[Key(IndexId(o), k) := f], fds', fdi, len)
  {
    hide Linked;
    hide EventFd;
    hide MapsOk;
    hide MapsBut;
    hide Mapless;
    hide FirstSpan;
    hide RefsOfIx;
    hide Within;
    var x, u, ev := Key(IndexId(o), k), Patch(v, t, work.body), PageStored(g, k, work.body);
    HeldPage(g, v, dir, o, k, t, work);
    LinkedRefs(g, u, dir, o, k);
    assert IxRefs(g, k, work.body) == RefsAt(u, dir, x);
    RefsSame(g, dir, x, f, o, k, IxRefs(g, k, work.body));
    forall i | 0 <= i < |fds|
      ensures fds'[i].fileNbr == fds[i].fileNbr && fds'[i].objId == fds[i].objId && fds'[i].score == fds[i].score && fds'[i].position <= fds[i].position
      ensures fds[i].pending.None? ==> fds'[i].pending.None?
    {
      EventFields(fds[i], ev, IndexId(o), k, f, size);
    }
    MapsTold(g, dir, dir[x := f], fds, fds', ev, o, IndexId(o), k, f, size);
    if fdi < |fds| {
      SameWithin(fds0[fdi], fds[fdi], len);
      StaysPut(fds[fdi], ev, IndexId(o), k, f, size, len);
    }
  }

  lemma SameWithin(a: Fd, b: Fd, len: nat)
    requires Within(a, len) ==> b.position == a.position && b.pending == a.pending
    ensures Within(a, len) ==> Within(b, len)
  {
  }

  /** Another cursor. */
  lemma HalfwayCursor(g: Geometry, dir0: Dir, fds0: seq<Fd>, dir: Dir, fds: seq<Fd>, fdi: nat, len: nat, o: int, k: nat, pix: int, span: nat)
    requires g.Valid() && Halfway(g, dir0, fds0, dir, fds, fdi, len, o, k) && fdi < |fds|
    ensures Halfway(g, dir0, fds0, dir, fds[fdi := fds[fdi].(cursorPix := pix, cursorSpan := span)], fdi, len, o, k)
  {
    hide Within;
    var fds' := fds[fdi := fds[fdi].(cursorPix := pix, cursorSpan := span)];
    if MapsBut(g, dir, fds, o, k) {
      forall i | 0 <= i < |fds|
        ensures MapBut(g, dir, fds'[i], o, k)
      {
        assert MapBut(g, dir, fds[i], o, k);
      }
    }
    if Mapless(fds) {
      assert forall i :: 0 <= i < |fds| ==> fds[i].win.None? && fds'[i].win == fds[i].win;
    }
  }

  // Replacing a data page.

  /** What is programmed into an allocated page to copy bytes `lo` to `hi` of another. */
  function CopyWrite(g: Geometry, bytes: seq<int>, lo: nat, hi: nat): Page
    requires lo <= hi <= g.dps == |bytes|
  {
    Page(-1, -1, ALL_SET, Data(Overlay(Ones(g.dps), lo, bytes[lo..hi])))
  }

  /** NOR safety of a partial page update: the bytes in front, those behind and the new ones are
      programmed one after the other into a page that is still erased. */
  lemma CopiedExact(g: Geometry, id: int, span: int, bytes: seq<int>, r: nat, chunk: seq<int>)
    requires |bytes| == g.dps && r + |chunk| <= g.dps && (r > 0 || |chunk| < g.dps)
    ensures
      var open := Flags(false, true, true, true, true);
      var a := Page(id, span, open, Blank);
      var b := if r > 0 then ProgramPage(a, CopyWrite(g, bytes, 0, r)) else a;
      var c := if r + |chunk| < g.dps then ProgramPage(b, CopyWrite(g, bytes, r + |chunk|, g.dps)) else b;
      var d := ProgramPage(c, TailWrite(g, r, chunk));
      ProgramPage(d, Page(-1, -1, DATA_FLAGS, Blank)) == Page(id, span, DATA_FLAGS, Data(Overlay(bytes, r, chunk)))
  {
    hide Overlay;
    var b := if r > 0 then Overlay(Ones(g.dps), 0, bytes[0..r]) else Ones(g.dps);
    var c := if r + |chunk| < g.dps then AndWords(b, Overlay(Ones(g.dps), r + |chunk|, bytes[r + |chunk|..g.dps])) else b;
    var d := AndWords(c, Overlay(Ones(g.dps), r, chunk));
    assert d == Overlay(bytes, r, chunk);
    assert r == 0 ==> c == Overlay(Ones(g.dps), r + |chunk|, bytes[r + |chunk|..g.dps]);
  }

  /** The new data page is in place and the old one is deleted. */
  lemma ChunkReplaced(g: Geometry, v: Flash, mid: Flash, fds: seq<Fd>, fdi: nat, dir: Dir, m0: Image, o: int, len: nat, off: nat, data: seq<int>, n: nat, k: nat, t: nat, work: Page, f: nat, w: nat)
    requires Changing(g, v, fds, fdi, dir, m0, o, len, off, data, n, k, t, work) && QuickStep(v, mid)
    requires f < |mid.lu| && mid.lu[f] == FREE
    requires k == IxSpan(g, Quot(n, g.dps)) && 0 < w <= g.dps - Rem(n, g.dps) && off <= n && n + w <= off + |data|
    ensures var i := IxEntry(g, Quot(n, g.dps)); i < |RefsOf(work.body)| && 0 <= RefsOf(work.body)[i] < |mid.pages|
    ensures
      var q, i := Quot(n, g.dps), IxEntry(g, Quot(n, g.dps));
      var s := RefsOf(work.body)[i];
      var work' := work.(body := PutRef(work.body, i, f));
      && v.lu[s] == mid.lu[s] == o && v.pages[s] == mid.pages[s] && v.pages[s].body.Data? && |v.pages[s].body.bytes| == g.dps
      && var page := Page(o, q, DATA_FLAGS, Data(Overlay(v.pages[s].body.bytes, Rem(n, g.dps), data[n - off..n - off + w])));
      Changing(g, Moved(mid, s, f, o, page), fds, fdi, dir[Key(o, q) := f], m0, o, len, off, data, n + w, k, t, work')
  {
    hide Linked;
    hide Quot;
    hide Rem;
    hide FdsOk;
    hide Overlay;
    hide IxSpan;
    hide IxEntry;
    hide Altered;
    hide Moved;
    hide GoodPage;
    var q, m, x := Quot(n, g.dps), Seen(v, dir, t, work), Key(o, Quot(n, g.dps));
    AlterPage(g, m0, m, o, len, off, data, n, w);
    HeldRef(g, v, dir, o, k, t, work, q);
    DataBytes(g, v, dir, o, k, t, work, q);
    var s := dir[x];
    var bytes := Overlay(v.pages[s].body.bytes, Rem(n, g.dps), data[n - off..n - off + w]);
    HeldQuick(g, v, mid, dir, o, k, t, work);
    HeldReplace(g, mid, dir, o, k, t, work, s, f, q, bytes);
    DataFdsOk(m, m[x := Data(bytes)], dir, dir[x := f], fds);
  }

  lemma DataBytes(g: Geometry, v: Flash, dir: Dir, o: int, k: nat, t: nat, work: Page, q: nat)
    requires Held(g, v, dir, o, k, t, work) && Key(o, q) in dir
    ensures 0 <= dir[Key(o, q)] < |v.pages| && v.lu[dir[Key(o, q)]] == o && Live(o)
    ensures var p := v.pages[dir[Key(o, q)]]; p.body.Data? && |p.body.bytes| == g.dps && Seen(v, dir, t, work)[Key(o, q)] == p.body
    ensures DataCheck(g, v, dir[Key(o, q)], o, q) == OK
  {
    hide Linked;
    HeldData(g, v, dir, o, k, t, work, q);
  }

  /** Data pages do not concern the descriptors. */
  lemma DataFdsOk(m: Image, m': Image, dir: Dir, dir': Dir, fds: seq<Fd>)
    requires FdsOk(m, dir, fds)
    requires forall k: Key :: IsIndexId(k.id) ==> (k in dir <==> k in dir') && (k in dir ==> dir'[k] == dir[k])
    requires forall k: Key :: IsIndexId(k.id) && k in m ==> k in m' && m'[k] == m[k]
    ensures FdsOk(m', dir', fds)
  {
    forall i | 0 <= i < |fds|
      ensures FdOk(m', dir', fds[i])
    {
      assert FdOk(m, dir, fds[i]);
    }
  }

  /** Writes a copy of data page `orig` with `chunk` at `r`. */
  method CopyPage(fs: Spiffs, orig: nat, o: int, span: nat, r: nat, chunk: seq<int>)
    returns (res: Status, to: nat, ghost mid: Flash)
    requires fs.Valid() && 1 <= o <= MAX_ID
    requires orig < |fs.flash.lu| && Live(fs.flash.lu[orig]) && orig < |fs.flash.pages|
    requires fs.flash.pages[orig].body.Data? && |fs.flash.pages[orig].body.bytes| == fs.g.dps
    requires r + |chunk| <= fs.g.dps && (r > 0 || |chunk| < fs.g.dps)
    modifies fs`flash, fs`log, fs`freeBlocks, fs`maxEraseCount, fs`pagesDeleted, fs`pagesAllocated
    modifies fs`freeCursorBlock, fs`freeCursorEntry
    ensures fs.Valid() && fs.Drift() == old(fs.Drift())
    ensures old(fs.Spare()) >= 1 ==> res == OK && fs.Spare() >= old(fs.Spare()) - 1
    ensures QuickStep(old(fs.flash), mid)
    ensures res != OK ==> fs.flash == mid
    ensures res == OK <==> old(fs.CanTake())
    ensures !fs.cleaning ==> forall x :: if res == OK then Spent(old(fs.Stock(x)), fs.Stock(x), 1, 0) else Ends(old(fs.Stock(x)), 0, 0)
    ensures !fs.cleaning && old(fs.freeBlocks) >= 1 ==> fs.freeBlocks >= 1 && (res != OK ==> unchanged(fs))
    ensures res == OK ==>
      && to < |mid.lu| == |mid.pages| && mid.lu[to] == FREE
      && fs.flash == Placed(mid, to, o, Page(o, span, DATA_FLAGS, Data(Overlay(old(fs.flash).pages[orig].body.bytes, r, chunk))))
  {
    hide FreeSuffix;
    hide CursorOk;
    hide All;
    hide FreeBlocks;
    hide ErasedFree;
    hide DeadMarked;
    hide Overlay;
    hide ProgramPage;
    hide TailWrite;
    hide CopyWrite;
    res, to, mid := fs.AllocateData(o, span, ALL_SET, Blank, false);
    if res == OK {
      var bytes := fs.flash.pages[orig].body.bytes;
      CopiedExact(fs.g, o, span, bytes, r, chunk);
      if r > 0 {
        fs.WritePage(to, CopyWrite(fs.g, bytes, 0, r));
      }
      if r + |chunk| < fs.g.dps {
        fs.WritePage(to, CopyWrite(fs.g, bytes, r + |chunk|, fs.g.dps));
      }
      fs.WritePage(to, TailWrite(fs.g, r, chunk));
      fs.WritePage(to, Page(-1, -1, DATA_FLAGS, Blank));
    }
  }

  /** The new reference differs from the stored one. */
  lemma MarkSet(g: Geometry, v: Flash, mid: Flash, o: int, k: nat, t: nat, work: Page, mark: int, q: nat, f: nat, page: Page)
    requires g.Valid() && Touching(g, v, k, t, work, mark, q) && QuickStep(v, mid) && IxSpan(g, q) == k && t < |v.lu| && v.lu[t] == IndexId(o) && 1 <= o <= MAX_ID
    requires IxEntry(g, q) < |RefsOf(work.body)| && (work.body.Header? || work.body.Index?)
    requires var s := RefsOf(work.body)[IxEntry(g, q)]; 0 <= s < |v.lu| == |v.pages| && v.lu[s] == o && f < |mid.lu| && mid.lu[f] == FREE
    ensures var s, work' := RefsOf(work.body)[IxEntry(g, q)], work.(body := PutRef(work.body, IxEntry(g, q), f));
      && s < |mid.lu| == |mid.pages| && Touching(g, Moved(mid, s, f, o, page), k, t, work', if mark < 0 then q else mark, q + 1)
  {
    hide IxSpan;
    hide IxEntry;
    var s := RefsOf(work.body)[IxEntry(g, q)];
    assert mid.lu[s] == o && mid.lu[t] == IndexId(o) && mid.pages[t] == v.pages[t];
    if mark >= 0 && IxEntry(g, mark) == IxEntry(g, q) {
      IxInjective(g, mark, q);
    }
  }

  /** Replaces one data page by a new one with the next bytes of `data` in it. That is refused exactly
      if no page can be had. */
  method ReplaceChunk(fs: Spiffs, fdi: nat, k: nat, t: nat, work0: Page, ghost mark0: int, span: nat, pageOffs: nat, w: nat, ghost dir0: Dir, ghost dir1: Dir, ghost fds1: seq<Fd>, ghost m0: Image, o: int, ghost len: nat, off: nat, data: seq<int>, n: nat)
    returns (res: Status, work: Page, ghost mark: int, ghost dir: Dir)
    requires fs.Valid() && Changing(fs.g, fs.flash, fs.fds, fdi, dir0, m0, o, len, off, data, n, k, t, work0)
    requires span == Quot(n, fs.g.dps) && pageOffs == Rem(n, fs.g.dps) && k == IxSpan(fs.g, span)
    requires 0 < w <= fs.g.dps - pageOffs && off <= n && n + w <= off + |data| && 1 <= o <= MAX_ID
    requires Touching(fs.g, fs.flash, k, t, work0, mark0, span) && Halfway(fs.g, dir1, fds1, dir0, fs.fds, fdi, len, o, k)
    requires Ahead(dir1, dir0, o, span, k)
    modifies fs`flash, fs`log, fs`freeBlocks, fs`maxEraseCount, fs`pagesDeleted, fs`pagesAllocated
    modifies fs`freeCursorBlock, fs`freeCursorEntry
    ensures fs.Valid() && fs.Drift() == old(fs.Drift())
    ensures old(fs.Spare()) >= 1 ==> res == OK && fs.Spare() >= old(fs.Spare()) - 1
    ensures res == OK <==> old(fs.CanTake())
    ensures !fs.cleaning ==>
      if res == OK then Spent(old(fs.Stock(OwnSlots(dir1, o))), fs.Stock(OwnSlots(dir1, o)), 1, 0) && Ahead(dir1, dir, o, span + 1, k)
      else Ends(old(fs.Stock(OwnSlots(dir1, o))), 0, 0)
    ensures !fs.cleaning && old(fs.freeBlocks) >= 1 ==> fs.freeBlocks >= 1
    ensures !fs.cleaning && old(fs.freeBlocks) >= 1 && res != OK ==> unchanged(fs) && work == work0 && dir == dir0 && mark == mark0
    ensures res == OK ==>
      && Changing(fs.g, fs.flash, fs.fds, fdi, dir, m0, o, len, off, data, n + w, k, t, work)
      && mark >= 0 && Touching(fs.g, fs.flash, k, t, work, mark, span + 1) && Halfway(fs.g, dir1, fds1, dir, fs.fds, fdi, len, o, k)
  {
    hide FreeSuffix;
    hide CursorOk;
    hide All;
    hide FreeBlocks;
    hide ErasedFree;
    hide DeadMarked;
    hide Linked;
    hide FdsOk;
    hide Altered;
    hide Geometry.Total;
    hide Geometry.BlockStart;
    hide IxSpan;
    hide IxEntry;
    hide Quot;
    hide Rem;
    hide Meaning;
    hide QuickStep;
    hide Overlay;
    hide TailWrite;
    hide CopyWrite;
    hide Changing;
    hide Touching;
    hide Halfway;
    hide Moved;
    hide Ahead;
    hide OwnSlots;
    hide Spiffs.Stock;
    work, mark, dir := work0, mark0, dir0;
    AheadOwn(dir1, dir0, o, span, k);
    var g, chunk := fs.g, data[n - off..n - off + w];
    ghost var v, mid := fs.flash, fs.flash;
    ReplaceStart(g, v, fs.fds, fdi, dir, m0, o, len, off, data, n, k, t, work, w);
    var orig := RefsOf(work.body)[IxEntry(g, span)];
    var to;
    if pageOffs == 0 && w == g.dps {
      res, to, mid := fs.AllocateData(o, span, ALL_SET, Data(chunk), true);
      FullPage(g, v.pages[orig].body, chunk);
    } else {
      res := DataCheck(g, fs.flash, orig, o, span);
      if res == OK {
        res, to, mid := CopyPage(fs, orig, o, span, pageOffs, chunk);
      }
    }
    if res == OK {
      ChunkReplaced(g, v, mid, fs.fds, fdi, dir, m0, o, len, off, data, n, k, t, work, to, w);
      MarkSet(g, v, mid, o, k, t, work, mark, span, to, fs.flash.pages[to]);
      HalfwayOn(g, dir1, fds1, dir, fs.fds, fdi, len, o, k, span, to);
      MovedAs(mid, orig, to, o, fs.flash.pages[to]);
      fs.PageDelete(orig);
      mark := if mark < 0 then span else mark;
      work := work.(body := PutRef(work.body, IxEntry(g, span), to));
      dir := dir[Key(o, span) := to];
    }
  }

  lemma MovedAs(mid: Flash, s: int, f: int, id: int, page: Page)
    requires 0 <= f < |mid.lu| == |mid.pages| && 0 <= s < |mid.lu|
    ensures Dropped(Placed(mid, f, id, page), s) == Moved(mid, s, f, id, page)
  {
  }

  lemma ReplaceStart(g: Geometry, v: Flash, fds: seq<Fd>, fdi: nat, dir: Dir, m0: Image, o: int, len: nat, off: nat, data: seq<int>, n: nat, k: nat, t: nat, work: Page, w: nat)
    requires Changing(g, v, fds, fdi, dir, m0, o, len, off, data, n, k, t, work)
    requires k == IxSpan(g, Quot(n, g.dps)) && 0 < w <= g.dps - Rem(n, g.dps) && n + w <= off + |data|
    ensures
      var i := IxEntry(g, Quot(n, g.dps));
      && i < |RefsOf(work.body)|
      && var s := RefsOf(work.body)[i];
      && 0 <= s < |v.pages| && s < |v.lu| && v.lu[s] == o && Live(o)
      && v.pages[s].body.Data? && |v.pages[s].body.bytes| == g.dps
      && DataCheck(g, v, s, o, Quot(n, g.dps)) == OK
    ensures QuickStep(v, v) && Key(o, Quot(n, g.dps)) in dir && dir[Key(o, Quot(n, g.dps))] == RefsOf(work.body)[IxEntry(g, Quot(n, g.dps))] && t < |v.lu| && v.lu[t] == IndexId(o) && (work.body.Header? || work.body.Index?)
  {
    hide Linked;
    hide Quot;
    hide Rem;
    hide FdsOk;
    hide IxSpan;
    hide IxEntry;
    hide Altered;
    AlterPage(g, m0, Seen(v, dir, t, work), o, len, off, data, n, w);
    HeldRef(g, v, dir, o, k, t, work, Quot(n, g.dps));
    DataBytes(g, v, dir, o, k, t, work, Quot(n, g.dps));
  }

  lemma FullPage(g: Geometry, was: Body, chunk: seq<int>)
    requires was.Data? && |was.bytes| == |chunk| == g.dps
    ensures Overlay(was.bytes, 0, chunk) == chunk
  {
  }

  // Storing and loading index pages.

  /** The index page was written to slot `dst` and the descriptors were told. */
  lemma ChangeStored(g: Geometry, v: Flash, mid: Flash, fds: seq<Fd>, fds': seq<Fd>, fdi: nat, dir: Dir, m0: Image, o: int, len: nat, off: nat, data: seq<int>, n: nat, k: nat, t: nat, work: Page, dst: nat, size: int)
    requires Changing(g, v, fds, fdi, dir, m0, o, len, off, data, n, k, t, work) && QuickStep(v, mid)
    requires dst < |mid.lu| && mid.lu[dst] == FREE
    requires size == (if k == 0 then HeaderSize(work) else 0)
    requires |fds'| == |fds| && forall i :: 0 <= i < |fds| ==>
      fds'[i] == var e := EventFd(fds[i], PageStored(g, k, work.body), IndexId(o), k, dst, size); if i == fdi && k == 0 then e.(hdr := dst) else e
    ensures t < |mid.lu| == |mid.pages| && mid.lu[t] == IndexId(o) && EditHeader(work, None, 0) == work
    ensures Kept(g, Moved(mid, t, dst, IndexId(o), work.(flags := AsUsed(work.flags))), fds', fdi, dir[Key(IndexId(o), k) := dst], m0, o, len, off, data, n)
  {
    hide Linked;
    hide FdsOk;
    hide Altered;
    hide EventFd;
    hide Moved;
    hide QuickStep;
    var m, x := Seen(v, dir, t, work), Key(IndexId(o), k);
    HeldPage(g, v, dir, o, k, t, work);
    HeldMove(g, v, mid, dir, o, k, t, work, dst);
    var told := EventFd(fds[fdi], PageStored(g, k, work.body), IndexId(o), k, dst, size);
    WriterTold(fds, fds[fdi := told], fdi, PageStored(g, k, work.body), o, IndexId(o), k, dst, size);
    assert k == 0 ==> told.(hdr := dst) == told;
    assert k == 0 ==> m[x].size == size;
    forall i | 0 <= i < |fds|
      ensures fds'[i] == EventFd(fds[i], PageStored(g, k, work.body), IndexId(o), k, dst, size)
    {
    }
    WriterTold(fds, fds', fdi, PageStored(g, k, work.body), o, IndexId(o), k, dst, size);
    EventKeeps(m, m, dir, fds, fds', PageStored(g, k, work.body), x, IndexId(o), dst, size);
  }

  lemma ChangingParts(g: Geometry, v: Flash, fds: seq<Fd>, fdi: nat, dir: Dir, m0: Image, o: int, len: nat, off: nat, data: seq<int>, n: nat, k: nat, t: nat, work: Page)
    requires Changing(g, v, fds, fdi, dir, m0, o, len, off, data, n, k, t, work) && g.Valid()
    ensures Held(g, v, dir, o, k, t, work) && FdsOk(Seen(v, dir, t, work), dir, fds) && Writer(fds, fdi, o)
    ensures k == 0 && |data| > 0 ==> HeaderSize(work) == len > 0
  {
    hide Linked;
    hide FdsOk;
    hide Extent;
    HeldPage(g, v, dir, o, k, t, work);
  }

  /** Writes a new version of the index page in the buffer. That is refused exactly if no page can be
      had. */
  method StoreChanged(fs: Spiffs, fdi: nat, k: nat, t: nat, work: Page, ghost dir0: Dir, ghost dir1: Dir, ghost fds1: seq<Fd>, ghost m0: Image, o: int, ghost len: nat, ghost off: nat, ghost data: seq<int>, ghost n: nat, ghost s: int)
    returns (res: Status, dst: nat, ghost dir: Dir)
    requires fs.Valid() && Changing(fs.g, fs.flash, fs.fds, fdi, dir0, m0, o, len, off, data, n, k, t, work) && 1 <= o <= MAX_ID && |data| > 0
    requires Halfway(fs.g, dir1, fds1, dir0, fs.fds, fdi, len, o, k)
    requires Ahead(dir1, dir0, o, s, k)
    modifies fs`flash, fs`log, fs`freeBlocks, fs`maxEraseCount, fs`pagesDeleted, fs`pagesAllocated
    modifies fs`freeCursorBlock, fs`freeCursorEntry, fs`fds
    ensures fs.Valid() && fs.Drift() == old(fs.Drift())
    ensures old(fs.Spare()) >= 1 ==> res == OK && fs.Spare() >= old(fs.Spare()) - 1
    ensures res == OK <==> old(fs.CanTake())
    ensures !fs.cleaning ==>
      if res == OK then Spent(old(fs.Stock(OwnSlots(dir1, o))), fs.Stock(OwnSlots(dir1, o)), 1, 0) && Ahead(dir1, dir, o, s, k + 1)
      else Ends(old(fs.Stock(OwnSlots(dir1, o))), 0, 0)
    ensures !fs.cleaning && old(fs.freeBlocks) >= 1 ==> fs.freeBlocks >= 1
    ensures !fs.cleaning && old(fs.freeBlocks) >= 1 && res != OK ==> unchanged(fs) && dir == dir0
    ensures res == OK ==> fdi < |fs.fds| && Kept(fs.g, fs.flash, fs.fds, fdi, dir, m0, o, len, off, data, n)
    ensures res == OK ==> Key(IndexId(o), k) in dir && dir[Key(IndexId(o), k)] == dst
    ensures res == OK ==> Followed(dir1, fds1, dir, fs.fds, fdi, len)
  {
    hide FreeSuffix;
    hide CursorOk;
    hide All;
    hide FreeBlocks;
    hide ErasedFree;
    hide DeadMarked;
    hide Linked;
    hide FdsOk;
    hide Altered;
    hide Changing;
    hide Geometry.Total;
    hide Geometry.BlockStart;
    hide IxSpan;
    hide Quot;
    hide Rem;
    hide Meaning;
    hide EventFd;
    hide Moved;
    hide MoveOps;
    hide PageMoveOps;
    hide Before;
    hide StartSlot;
    hide GoodPage;
    hide QuickStep;
    hide Kept;
    hide Halfway;
    hide Followed;
    hide Spiffs.Spare;
    hide Spiffs.CanTake;
    hide Ahead;
    hide OwnSlots;
    hide Spiffs.Stock;
    dir := dir0;
    AheadOwn(dir1, dir0, o, s, k);
    ghost var v, fds0, mid := fs.flash, fs.fds, fs.flash;
    ChangingParts(fs.g, v, fs.fds, fdi, dir, m0, o, len, off, data, n, k, t, work);
    var objId := fs.fds[fdi].objId;
    HeldPage(fs.g, v, dir, o, k, t, work);
    if k == 0 {
      OwnHeader(Seen(v, dir, t, work), dir, fs.fds, fdi, o);
      res, dst, mid := fs.UpdateIndexHdr(Some(fdi), objId, fs.fds[fdi].hdr, Some(work), None, 0);
    } else {
      dst := 0;
      res := IndexCheck(fs.g, fs.flash, t, objId, k);
      if res == OK {
        res, dst, mid := fs.PageMove(Some(work), objId, t);
        if res == OK {
          fs.ObjectEvent(PageStored(fs.g, k, work.body), objId, work.span, dst, 0);
        }
      }
    }
    if res == OK {
      ChangeStored(fs.g, v, mid, fds0, fs.fds, fdi, dir, m0, o, len, off, data, n, k, t, work, dst, if k == 0 then HeaderSize(work) else 0);
      HalfwayDone(fs.g, v, dir1, fds1, dir, fds0, fs.fds, fdi, len, o, k, t, work, dst, if k == 0 then HeaderSize(work) else 0);
      dir := dir[Key(IndexId(o), k) := dst];
    }
  }

  lemma OwnHeader(m: Image, dir: Dir, fds: seq<Fd>, fdi: nat, o: int)
    requires FdsOk(m, dir, fds) && Writer(fds, fdi, o)
    ensures Key(IndexId(o), 0) in dir && dir[Key(IndexId(o), 0)] == fds[fdi].hdr
    ensures forall k :: fds[fdi].cursorSpan == k && Key(IndexId(o), k) in dir ==> dir[Key(IndexId(o), k)] == fds[fdi].cursorPix
    ensures ObjectId(fds[fdi].objId) == o
  {
    assert FdOk(m, dir, fds[fdi]);
  }

  lemma ChangeLoaded(g: Geometry, v: Flash, fds: seq<Fd>, fdi: nat, dir: Dir, m0: Image, o: int, len: nat, off: nat, data: seq<int>, n: nat, k: nat)
    requires g.Valid() && Kept(g, v, fds, fdi, dir, m0, o, len, off, data, n) && k <= TopIx(g, len)
    ensures var x := Key(IndexId(o), k);
      && x in dir && 0 <= dir[x] < |v.pages| && v.lu[dir[x]] == IndexId(o)
      && ValidateObjIx(v.pages[dir[x]], IndexId(o), k) == OK
      && Changing(g, v, fds, fdi, dir, m0, o, len, off, data, n, k, dir[x], v.pages[dir[x]])
      && (fds[fdi].cursorSpan == k ==> fds[fdi].cursorPix == dir[x])
      && (k == 0 ==> fds[fdi].hdr == dir[x])
  {
    hide Linked;
    hide TopIx;
    hide PageCount;
    hide FdsOk;
    var x, m := Key(IndexId(o), k), Meaning(v, dir);
    assert x in m;
    HeldLoad(g, v, dir, o, k);
    HeldPage(g, v, dir, o, k, dir[x], v.pages[dir[x]]);
    OwnHeader(m, dir, fds, fdi, o);
  }

  /** The writer's cursor is set to a live index page. */
  lemma CursorMoved(m: Image, dir: Dir, fds: seq<Fd>, fdi: nat, o: int, k: nat, t: int)
    requires FdsOk(m, dir, fds) && Writer(fds, fdi, o)
    requires Key(IndexId(o), k) in dir && dir[Key(IndexId(o), k)] == t
    ensures FdsOk(m, dir, fds[fdi := fds[fdi].(cursorPix := t, cursorSpan := k)])
    ensures Writer(fds[fdi := fds[fdi].(cursorPix := t, cursorSpan := k)], fdi, o)
  {
    var fds' := fds[fdi := fds[fdi].(cursorPix := t, cursorSpan := k)];
    forall i | 0 <= i < |fds|
      ensures FdOk(m, dir, fds'[i])
    {
      assert FdOk(m, dir, fds[i]);
    }
  }

  lemma ChangeCursor(g: Geometry, v: Flash, fds: seq<Fd>, fdi: nat, dir: Dir, m0: Image, o: int, len: nat, off: nat, data: seq<int>, n: nat, k: nat, t: nat, work: Page)
    requires Changing(g, v, fds, fdi, dir, m0, o, len, off, data, n, k, t, work)
    ensures fdi < |fds| && Changing(g, v, fds[fdi := fds[fdi].(cursorPix := t, cursorSpan := k)], fdi, dir, m0, o, len, off, data, n, k, t, work)
  {
    hide Linked;
    hide FdsOk;
    hide Altered;
    HeldPage(g, v, dir, o, k, t, work);
    CursorMoved(Seen(v, dir, t, work), dir, fds, fdi, o, k, t);
  }

  lemma FollowCursor(dir1: Dir, fds1: seq<Fd>, dir: Dir, fds: seq<Fd>, fdi: nat, len: nat, pix: int, span: nat)
    requires Followed(dir1, fds1, dir, fds, fdi, len) && fdi < |fds|
    ensures Followed(dir1, fds1, dir, fds[fdi := fds[fdi].(cursorPix := pix, cursorSpan := span)], fdi, len)
  {
    hide Followed;
    var fd := fds[fdi].(cursorPix := pix, cursorSpan := span);
    FollowOwn(dir, fds, fdi, fd, len);
    FollowOn(dir1, fds1, dir, fds, dir, fds[fdi := fd], fdi, len);
  }

  /** Loads index page `k` and sets the descriptor's cursor to it. */
  method LoadChanged(fs: Spiffs, fdi: nat, k: nat, ghost dir: Dir, ghost dir1: Dir, ghost fds1: seq<Fd>, ghost m0: Image, o: int, ghost len: nat, ghost off: nat, ghost data: seq<int>, ghost n: nat)
    returns (res: Status, t: nat, work: Page)
    requires fs.Valid() && fdi < |fs.fds| && Kept(fs.g, fs.flash, fs.fds, fdi, dir, m0, o, len, off, data, n)
    requires 1 <= o <= MAX_ID && k <= TopIx(fs.g, len) && Followed(dir1, fds1, dir, fs.fds, fdi, len)
    modifies fs`fds, fs`cursorBlock, fs`cursorEntry
    ensures fs.Valid() && fs.Drift() == old(fs.Drift())
    ensures res == OK && fs.Spare() == old(fs.Spare()) && (fs.CanTake() <==> old(fs.CanTake()))
    ensures forall x :: fs.Stock(x) == old(fs.Stock(x))
    ensures fdi < |fs.fds| && Changing(fs.g, fs.flash, fs.fds, fdi, dir, m0, o, len, off, data, n, k, t, work)
    ensures t < |fs.flash.pages| && work == fs.flash.pages[t] && Halfway(fs.g, dir1, fds1, dir, fs.fds, fdi, len, o, k) && Followed(dir1, fds1, dir, fs.fds, fdi, len)
  {
    hide FreeSuffix;
    hide CursorOk;
    hide All;
    hide FreeBlocks;
    hide ErasedFree;
    hide DeadMarked;
    hide Linked;
    hide FdsOk;
    hide Altered;
    hide Geometry.Total;
    hide Geometry.BlockStart;
    hide IxSpan;
    hide Quot;
    hide Rem;
    hide Meaning;
    hide EventFd;
    hide Changing;
    hide TopIx;
    hide GoodPage;
    hide Followed;
    hide Halfway;
    var objId := fs.fds[fdi].objId;
    ChangeLoaded(fs.g, fs.flash, fs.fds, fdi, dir, m0, o, len, off, data, n, k);
    if k == 0 {
      res, t := OK, fs.fds[fdi].hdr;
    } else if fs.fds[fdi].cursorSpan == k {
      res, t := OK, fs.fds[fdi].cursorPix;
    } else {
      MatchIsFiled(fs.g, fs.flash, dir, objId, k);
      res, t := fs.FindIdAndSpan(objId, k);
    }
    if res == OK {
      work := fs.flash.pages[t];
      res := ValidateObjIx(work, objId, k);
      if res == OK {
        ChangeCursor(fs.g, fs.flash, fs.fds, fdi, dir, m0, o, len, off, data, n, k, t, work);
        HalfwayStart(fs.g, dir1, fds1, dir, fs.fds, fdi, len, o, k);
        HalfwayCursor(fs.g, dir1, fds1, dir, fs.fds, fdi, len, o, k, t, k);
        FollowCursor(dir1, fds1, dir, fs.fds, fdi, len, t, k);
        fs.fds := fs.fds[fdi := fs.fds[fdi].(cursorPix := t, cursorSpan := k)];
      }
    }
  }

  lemma ModifyStart(g: Geometry, fl: Flash, fds0: seq<Fd>, fds: seq<Fd>, fdi: nat, dir: Dir, o: int, off: nat, data: seq<int>)
    requires Consistent(g, fl, dir, fds) && SameOpen(fds0, fds) && g.Valid()
    requires OpenFile(g, Meaning(fl, dir), fds0, fdi) && o == ObjectId(fds0[fdi].objId) && off + |data| <= Length(fds0[fdi].size)
    ensures fdi < |fds| && Kept(g, fl, fds, fdi, dir, Meaning(fl, dir), o, Length(fds0[fdi].size), off, data, off)
  {
    hide Linked;
    hide Extent;
    AlterStart(g, Meaning(fl, dir), o, Length(fds0[fdi].size), off, data);
    assert FdOk(Meaning(fl, dir), dir, fds[fdi]);
  }

  /** Every page of a file is under one of its index pages. */
  lemma UnderTop(g: Geometry, len: nat, p: nat)
    requires g.Valid() && p < len
    ensures IxSpan(g, Quot(p, g.dps)) <= TopIx(g, len)
  {
    hide IxSpan;
    QuotMonotone(p, len - 1, g.dps);
    IxMonotone(g, Quot(p, g.dps), Quot(len - 1, g.dps));
  }

  /** The state of a modification with `written` bytes done: `prev` is the index page in the buffer,
      -1 at the start; the next byte belongs to page `span` at `pageOffs`. */
  ghost predicate Replacing(g: Geometry, fl: Flash, fds: seq<Fd>, fdi: nat, dir: Dir, dir1: Dir, fds1: seq<Fd>, m0: Image, o: int, len: nat, off: nat, data: seq<int>, ok: bool, written: nat, k: nat, prev: int, t: nat, work: Page, mark: int, span: nat, pageOffs: nat)
    requires g.Valid()
  {
    && written <= |data| && (prev == -1 || prev == k) && fdi < |fds|
    && (prev == -1 ==> written == 0 && ok && Kept(g, fl, fds, fdi, dir, m0, o, len, off, data, off) && Followed(dir1, fds1, dir, fds, fdi, len))
    && (prev != -1 ==>
         && Changing(g, fl, fds, fdi, dir, m0, o, len, off, data, off + written, k, t, work)
         && Touching(g, fl, k, t, work, mark, Quot(off + written, g.dps) + (if ok then 1 else 0))
         && Halfway(g, dir1, fds1, dir, fds, fdi, len, o, k) && (mark < 0 ==> Followed(dir1, fds1, dir, fds, fdi, len)))
    && (prev != -1 && ok ==> written > 0 && mark >= 0 && k == IxSpan(g, Quot(off + written - 1, g.dps)))
    && (prev != -1 && ok && written < |data| ==> Touching(g, fl, k, t, work, mark, Quot(off + written, g.dps)))
    && (prev != -1 && mark < 0 && written > 0 ==> k != IxSpan(g, Quot(off + written - 1, g.dps)))
    && (written == 0 ==> mark < 0) && (!ok ==> written < |data| && k == IxSpan(g, Quot(off + written, g.dps)))
    && (ok && written < |data| ==> span == Quot(off + written, g.dps) <= Quot(off + |data| - 1, g.dps) && pageOffs == Rem(off + written, g.dps))
    && (written > 0 ==> pageOffs == 0) && (prev != -1 && ok ==> written > 0)
  }

  /** Where a modification stands with `n` bytes done, and index page `prev` in the buffer. */
  lemma ModifyTurn(g: Geometry, off: nat, len: nat, n: nat, prev: int)
    requires g.Valid() && off <= n < off + len && (prev == -1 <==> n == off)
    requires n > off ==> Rem(n, g.dps) == 0 && prev == IxSpan(g, Quot(n - 1, g.dps))
    ensures
      var s := Quot(n, g.dps);
      && First(g, off) <= s <= Last(g, off, len) && (Crosses(g, off, s) <==> prev != -1 && IxSpan(g, s) != prev)
      && (n == off ==> s == First(g, off)) && (n > off ==> s > First(g, off) && n == s * g.dps && IxSpan(g, s) >= prev)
  {
    hide Quot;
    hide Rem;
    hide IxSpan;
    InReach(g, off, len, n);
    if n > off {
      PageEnd(g, n);
      QuotRem(off, g.dps);
      NextPage(g, Quot(n, g.dps));
    }
  }

  /** Turns to index page `k`, which covers the next bytes: stores the one in the buffer, unless there
      is none, and loads the other. Fails exactly when the one in the buffer cannot be stored, and then
      changes nothing. */
  method TurnTo(fs: Spiffs, fdi: nat, k: nat, k0: nat, prev: int, t0: nat, work0: Page, ghost mark0: int, ghost span: nat, ghost pageOffs: nat, written: nat, ghost dir0: Dir, ghost dir1: Dir, ghost fds1: seq<Fd>, ghost m0: Image, o: int, ghost len: nat, ghost off: nat, ghost data: seq<int>)
    returns (res: Status, t: nat, work: Page, ghost dir: Dir)
    requires fs.Valid() && !fs.cleaning && fs.freeBlocks >= 1 && 1 <= o <= MAX_ID && written < |data| && off + |data| <= len
    requires Replacing(fs.g, fs.flash, fs.fds, fdi, dir0, dir1, fds1, m0, o, len, off, data, true, written, k0, prev, t0, work0, mark0, span, pageOffs)
    requires k == IxSpan(fs.g, span) && k != prev && (prev != -1 ==> prev < k) && Ahead(dir1, dir0, o, span, if prev == -1 then 0 else prev)
    modifies fs`flash, fs`log, fs`freeBlocks, fs`maxEraseCount, fs`pagesDeleted, fs`pagesAllocated
    modifies fs`freeCursorBlock, fs`freeCursorEntry, fs`fds, fs`cursorBlock, fs`cursorEntry
    ensures fs.Valid() && fs.Drift() == old(fs.Drift()) && fs.freeBlocks >= 1
    ensures res != OK ==> prev != -1 && unchanged(fs) && dir == dir0 && t == t0 && work == work0 && !fs.CanTake()
    ensures res == OK ==>
      && fdi < |fs.fds| && Changing(fs.g, fs.flash, fs.fds, fdi, dir, m0, o, len, off, data, off + written, k, t, work)
      && Touching(fs.g, fs.flash, k, t, work, -1, span) && Halfway(fs.g, dir1, fds1, dir, fs.fds, fdi, len, o, k)
      && Followed(dir1, fds1, dir, fs.fds, fdi, len)
      && (written > 0 ==> k != IxSpan(fs.g, Quot(off + written - 1, fs.g.dps)))
    ensures old(fs.Spare()) >= 1 ==> res == OK && fs.Spare() >= old(fs.Spare()) - 1
    ensures
      if res == OK then Spent(old(fs.Stock(OwnSlots(dir1, o))), fs.Stock(OwnSlots(dir1, o)), if prev == -1 then 0 else 1, 0) && Ahead(dir1, dir, o, span, k)
      else Ends(old(fs.Stock(OwnSlots(dir1, o))), 0, 0)
  {
    hide FreeSuffix;
    hide CursorOk;
    hide All;
    hide FreeBlocks;
    hide ErasedFree;
    hide DeadMarked;
    hide Linked;
    hide FdsOk;
    hide Altered;
    hide IxSpan;
    hide IxEntry;
    hide Quot;
    hide Rem;
    hide Kept;
    hide Changing;
    hide TopIx;
    hide PageCount;
    hide Touching;
    hide Halfway;
    hide Followed;
    hide Spiffs.Spare;
    hide Spiffs.CanTake;
    hide Spiffs.Drift;
    hide SameOpen;
    hide Mapless;
    hide Writer;
    hide Meaning;
    hide Geometry.Total;
    hide Geometry.BlockStart;
    hide AllWords;
    hide Ahead;
    hide OwnSlots;
    hide Spiffs.Stock;
    res, t, work, dir := OK, t0, work0, dir0;
    if written > 0 {
      var dst;
      res, dst, dir := StoreChanged(fs, fdi, prev, t, work, dir, dir1, fds1, m0, o, len, off, data, off + written, span);
    }
    if res == OK {
      AheadOn(dir1, dir, o, span, if prev == -1 then 0 else prev + 1, span, k);
      UnderTop(fs.g, len, off + written);
      res, t, work := LoadChanged(fs, fdi, k, dir, dir1, fds1, m0, o, len, off, data, off + written);
      MarkNone(fs.g, fs.flash, k, t, work, span);
    }
  }

  /** Replaces the bytes that are in data page `span`, its index page being in the buffer. */
  method ReplacePage(fs: Spiffs, fdi: nat, k: nat, t: nat, work0: Page, ghost mark0: int, span0: nat, pageOffs0: nat, written0: nat, ghost dir0: Dir, ghost dir1: Dir, ghost fds1: seq<Fd>, ghost m0: Image, o: int, ghost len: nat, off: nat, data: seq<int>)
    returns (res: Status, work: Page, ghost mark: int, span: nat, pageOffs: nat, written: nat, ghost dir: Dir)
    requires fs.Valid() && !fs.cleaning && fs.freeBlocks >= 1 && 1 <= o <= MAX_ID && written0 < |data| && off + |data| <= len && fdi < |fs.fds|
    requires Changing(fs.g, fs.flash, fs.fds, fdi, dir0, m0, o, len, off, data, off + written0, k, t, work0)
    requires Touching(fs.g, fs.flash, k, t, work0, mark0, span0) && Halfway(fs.g, dir1, fds1, dir0, fs.fds, fdi, len, o, k) && (mark0 < 0 ==> Followed(dir1, fds1, dir0, fs.fds, fdi, len))
    requires span0 == Quot(off + written0, fs.g.dps) && pageOffs0 == Rem(off + written0, fs.g.dps) && k == IxSpan(fs.g, span0)
    requires (written0 > 0 ==> pageOffs0 == 0) && (written0 == 0 ==> mark0 < 0) && (mark0 < 0 && written0 > 0 ==> k != IxSpan(fs.g, Quot(off + written0 - 1, fs.g.dps)))
    requires Ahead(dir1, dir0, o, span0, k)
    modifies fs`flash, fs`log, fs`freeBlocks, fs`maxEraseCount, fs`pagesDeleted, fs`pagesAllocated
    modifies fs`freeCursorBlock, fs`freeCursorEntry
    ensures fs.Valid() && fs.Drift() == old(fs.Drift()) && fs.freeBlocks >= 1
    ensures Replacing(fs.g, fs.flash, fs.fds, fdi, dir, dir1, fds1, m0, o, len, off, data, res == OK, written, k, k, t, work, mark, span, pageOffs)
    ensures if res == OK then written0 < written <= |data| && span == span0 + 1 else written == written0 && span == span0 && mark == mark0 && !fs.CanTake()
    ensures old(fs.Spare()) >= 1 ==> res == OK && fs.Spare() >= old(fs.Spare()) - 1
    ensures res == OK ==> span <= Last(fs.g, off, |data|) + 1 && (written == |data| ==> span == Last(fs.g, off, |data|) + 1)
    ensures Ahead(dir1, dir, o, span, k)
    ensures if res == OK then Spent(old(fs.Stock(OwnSlots(dir1, o))), fs.Stock(OwnSlots(dir1, o)), 1, 0) else Ends(old(fs.Stock(OwnSlots(dir1, o))), 0, 0)
  {
    hide SameOpen;
    hide Mapless;
    hide Writer;
    hide Meaning;
    hide Geometry.Total;
    hide Geometry.BlockStart;
    hide Spiffs.Drift;
    hide AllWords;
    hide FreeSuffix;
    hide CursorOk;
    hide All;
    hide FreeBlocks;
    hide ErasedFree;
    hide DeadMarked;
    hide Linked;
    hide FdsOk;
    hide Altered;
    hide IxSpan;
    hide IxEntry;
    hide Quot;
    hide Rem;
    hide Kept;
    hide Changing;
    hide TopIx;
    hide PageCount;
    hide Touching;
    hide Halfway;
    hide Followed;
    hide Spiffs.Spare;
    hide Spiffs.CanTake;
    hide Ahead;
    hide OwnSlots;
    hide Spiffs.Stock;
    var g := fs.g;
    span, pageOffs, written := span0, pageOffs0, written0;
    InReach(g, off, |data|, off + written);
    var w := if |data| - written < g.dps - pageOffs then |data| - written else g.dps - pageOffs;
    res, work, mark, dir := ReplaceChunk(fs, fdi, k, t, work0, mark0, span, pageOffs, w, dir0, dir1, fds1, m0, o, len, off, data, off + written);
    if res == OK {
      PagePosition(g, off + written, w);
      InPage(g, off + written, off + written + w - 1);
      MarkOn(g, fs.flash, k, t, work, mark, span, off + written + w);
      if written + w == |data| {
        InPage(g, off + written, off + |data| - 1);
      }
      pageOffs := 0;
      span := span + 1;
      written := written + w;
      if written < |data| {
        QuotMonotone(off + written, off + |data| - 1, g.dps);
      }
    } else {
      MarkStays(g, fs.flash, k, t, work, mark, span);
    }
  }

  lemma MarkStays(g: Geometry, fl: Flash, k: nat, t: nat, work: Page, mark: int, span: nat)
    requires g.Valid() && Touching(g, fl, k, t, work, mark, span)
    ensures Touching(g, fl, k, t, work, mark, span + 1)
  {
  }

  /** One step of a modification: turns to the index page of the next bytes, if that is another one,
      and replaces a chunk. `turned` tells whether that index page is in the buffer. A step fails
      exactly when no page can be had, and then it changes nothing since the last page was written. */
  method Step(fs: Spiffs, fdi: nat, k0: nat, prev: int, t0: nat, work0: Page, ghost mark0: int, span0: nat, pageOffs0: nat, written0: nat, ghost dir0: Dir, ghost dir1: Dir, ghost fds1: seq<Fd>, ghost m0: Image, o: int, ghost len: nat, off: nat, data: seq<int>)
    returns (res: Status, turned: bool, k: nat, t: nat, work: Page, ghost mark: int, span: nat, pageOffs: nat, written: nat, ghost stage: Stage, ghost dir: Dir)
    requires fs.Valid() && !fs.cleaning && fs.freeBlocks >= 1 && 1 <= o <= MAX_ID && written0 < |data| && off + |data| <= len
    requires Replacing(fs.g, fs.flash, fs.fds, fdi, dir0, dir1, fds1, m0, o, len, off, data, true, written0, k0, prev, t0, work0, mark0, span0, pageOffs0)
    requires Ahead(dir1, dir0, o, span0, if prev == -1 then 0 else prev)
    modifies fs`flash, fs`log, fs`freeBlocks, fs`maxEraseCount, fs`pagesDeleted, fs`pagesAllocated
    modifies fs`freeCursorBlock, fs`freeCursorEntry, fs`fds, fs`cursorBlock, fs`cursorEntry
    ensures fs.Valid() && fs.Drift() == old(fs.Drift()) && fs.freeBlocks >= 1
    ensures !turned ==> res != OK && prev != -1 && unchanged(fs) && dir == dir0 && t == t0 && work == work0 && written == written0
    ensures turned ==> Replacing(fs.g, fs.flash, fs.fds, fdi, dir, dir1, fds1, m0, o, len, off, data, res == OK, written, k, k, t, work, mark, span, pageOffs)
    ensures res == OK ==> written > written0 && span == span0 + 1
    ensures res != OK ==> written == written0 && !fs.CanTake()
    ensures turned ==> written <= |data|
    ensures old(fs.Spare()) >= 2 ==> res == OK && fs.Spare() >= old(fs.Spare()) - 2
    ensures res == OK ==> span <= Last(fs.g, off, |data|) + 1 && (written == |data| ==> span == Last(fs.g, off, |data|) + 1)
    ensures turned ==> Ahead(dir1, dir, o, span, k)
    ensures
      var g, s, x := fs.g, span0, OwnSlots(dir1, o);
      if res == OK then Spent(old(fs.Stock(x)), fs.Stock(x), TurnAt(g, off, s) + 1, 0)
      else
        && (if stage == AtStore(s) then TurnAt(g, off, s) == 1 && Ends(old(fs.Stock(x)), 0, 0) else stage == AtData(s) && Ends(old(fs.Stock(x)), TurnAt(g, off, s), 0))
        && ModifyStopped(g, off, |data|, stage, off + written, !turned || mark >= 0) && (turned <==> stage == AtData(s)) && (turned ==> span == span0)
  {
    hide SameOpen;
    hide Mapless;
    hide Writer;
    hide Meaning;
    hide Geometry.Total;
    hide Geometry.BlockStart;
    hide Spiffs.Drift;
    hide AllWords;
    hide FreeSuffix;
    hide CursorOk;
    hide All;
    hide FreeBlocks;
    hide ErasedFree;
    hide DeadMarked;
    hide Linked;
    hide FdsOk;
    hide Altered;
    hide IxSpan;
    hide IxEntry;
    hide Quot;
    hide Rem;
    hide Kept;
    hide Changing;
    hide TopIx;
    hide PageCount;
    hide Touching;
    hide Halfway;
    hide Followed;
    hide Spiffs.Spare;
    hide Spiffs.CanTake;
    hide Ahead;
    hide OwnSlots;
    hide Spiffs.Stock;
    var g := fs.g;
    dir, res, t, work, turned, written, span, pageOffs := dir0, OK, t0, work0, true, written0, span0, pageOffs0;
    mark, stage := mark0, AtData(span0);
    k := IxSpan(g, span);
    ModifyTurn(g, off, |data|, off + written, prev);
    if k != prev {
      res, t, work, dir := TurnTo(fs, fdi, k, k0, prev, t0, work0, mark0, span, pageOffs, written, dir0, dir1, fds1, m0, o, len, off, data);
      if res == OK {
        mark := -1;
      }
      turned := res == OK;
      if !turned {
        stage := AtStore(span0);
      }
    }
    if turned {
      res, work, mark, span, pageOffs, written, dir := ReplacePage(fs, fdi, k, t, work, mark, span, pageOffs, written, dir, dir1, fds1, m0, o, len, off, data);
    }
  }

  lemma MarkNone(g: Geometry, fl: Flash, k: nat, t: nat, work: Page, span: nat)
    requires g.Valid() && t < |fl.pages| && work == fl.pages[t]
    ensures Touching(g, fl, k, t, work, -1, span)
  {
  }

  lemma MarkOn(g: Geometry, fl: Flash, k: nat, t: nat, work: Page, mark: int, span: nat, n: nat)
    requires g.Valid() && Touching(g, fl, k, t, work, mark, span + 1) && Quot(n, g.dps) >= span
    ensures Touching(g, fl, k, t, work, mark, Quot(n, g.dps) + 1)
    ensures Quot(n, g.dps) > span ==> Touching(g, fl, k, t, work, mark, Quot(n, g.dps))
  {
  }

  lemma ReplacingStart(g: Geometry, fl: Flash, fds: seq<Fd>, fdi: nat, dir: Dir, dir1: Dir, fds1: seq<Fd>, m0: Image, o: int, len: nat, off: nat, data: seq<int>, t: nat, work: Page)
    requires g.Valid() && fdi < |fds| && Kept(g, fl, fds, fdi, dir, m0, o, len, off, data, off) && Followed(dir1, fds1, dir, fds, fdi, len)
    ensures Replacing(g, fl, fds, fdi, dir, dir1, fds1, m0, o, len, off, data, true, 0, 0, -1, t, work, -1, Quot(off, g.dps), Rem(off, g.dps))
  {
    hide Kept;
    hide Followed;
    if |data| > 0 {
      QuotMonotone(off, off + |data| - 1, g.dps);
    }
  }

  lemma ReplacingOn(g: Geometry, fl: Flash, fds: seq<Fd>, fdi: nat, dir: Dir, dir1: Dir, fds1: seq<Fd>, m0: Image, o: int, len: nat, off: nat, data: seq<int>, ok: bool, written: nat, k: nat, prev: int, t: nat, work: Page, mark: int, span: nat, pageOffs: nat)
    requires g.Valid() && Replacing(g, fl, fds, fdi, dir, dir1, fds1, m0, o, len, off, data, ok, written, k, prev, t, work, mark, span, pageOffs) && |data| > 0
    ensures fdi < |fds| && (ok && written < |data| ==> span == Quot(off + written, g.dps) <= Quot(off + |data| - 1, g.dps))
    ensures prev != -1 || !ok || written == |data| ==>
      && Changing(g, fl, fds, fdi, dir, m0, o, len, off, data, off + written, k, t, work)
      && Touching(g, fl, k, t, work, mark, Quot(off + written, g.dps) + 1) && Halfway(g, dir1, fds1, dir, fds, fdi, len, o, k)
      && (mark < 0 ==> Followed(dir1, fds1, dir, fds, fdi, len))
      && (ok ==> mark >= 0) && (written == 0 ==> mark < 0)
      && (mark < 0 && written > 0 ==> written < |data| && IxSpan(g, Quot(off + written, g.dps)) != IxSpan(g, Quot(off + written - 1, g.dps)))
  {
    hide Kept;
    hide Changing;
    hide IxSpan;
    hide IxEntry;
    hide Quot;
    hide Halfway;
    hide Followed;
  }

  /** Allocations that a modification may need: for each page it touches the new page and a new copy
      of an index page; and a copy of the last one. One more makes the estimate of room suffice. */
  function ModifyNeed(g: Geometry, off: nat, len: nat): int
    requires g.Valid() && len > 0
  {
    2 * Touched(g, off, len) + 2
  }

  lemma ModifyRoom(g: Geometry, off: nat, len: nat, spare: int)
    requires g.Valid() && len > 0 && spare >= ModifyNeed(g, off, len)
    ensures len + g.dps < (spare - 1) * g.dps && spare >= 4
  {
    hide Touched;
    TouchedHolds(g, off, len);
    NeedFits(g, len, Touched(g, off, len), spare);
  }

  /** How a modification leaves the medium: the bytes up to `n` are changed, though the references to
      some of them may be lost. The cursor of the writer should be at page `pix`. */
  ghost predicate Modified(g: Geometry, m0: Image, fl: Flash, loss: Loss, dir: Dir, fds: seq<Fd>, fdi: nat, pix: int, o: int, len: nat, off: nat, data: seq<int>, n: nat)
    requires g.Valid()
  {
    && RealLoss(fl, loss) && fdi < |fds| && Writer(fds, fdi, o)
    && Consistent(g, Mended(fl, loss), dir, fds[fdi := fds[fdi].(cursorPix := pix)])
    && Altered(g, m0, Meaning(Mended(fl, loss), dir), o, len, off, data, n)
    && (loss.Unstored? ==> Loser(fl, loss) == o)
  }

  /** The index page in the buffer could not be stored. */
  lemma UnstoredHere(g: Geometry, fl: Flash, fds: seq<Fd>, fdi: nat, dir: Dir, dir1: Dir, fds1: seq<Fd>, m0: Image, o: int, len: nat, off: nat, data: seq<int>, n: nat, k: nat, t: nat, work: Page, mark: int, span: nat, junk: int)
    requires Changing(g, fl, fds, fdi, dir, m0, o, len, off, data, n, k, t, work) && g.Valid() && Touching(g, fl, k, t, work, mark, span)
    requires Halfway(g, dir1, fds1, dir, fds, fdi, len, o, k)
    ensures fdi < |fds|
    ensures var loss, fds' := if mark >= 0 then Unstored(t, work.body) else NoLoss, fds[fdi := fds[fdi].(cursorPix := junk)];
      && Modified(g, m0, fl, loss, dir, fds', fdi, fds[fdi].cursorPix, o, len, off, data, n)
      && SameOpen(fds1, fds') && (Mapless(fds1) ==> Mapless(fds'))
  {
    hide Linked;
    hide FdsOk;
    hide Altered;
    hide IxSpan;
    hide IxEntry;
    hide Within;
    hide MapsBut;
    hide MapsOk;
    HeldPage(g, fl, dir, o, k, t, work);
    var fds' := fds[fdi := fds[fdi].(cursorPix := junk)];
    assert fds'[fdi := fds'[fdi].(cursorPix := fds[fdi].cursorPix)] == fds;
    if mark < 0 {
      assert Patch(fl, t, work.body) == fl;
    }
    if Mapless(fds) {
      assert forall i :: 0 <= i < |fds| ==> fds[i].win.None? && fds'[i].win == fds[i].win;
    }
  }

  lemma SameCursor(fds: seq<Fd>, fdi: nat)
    requires fdi < |fds|
    ensures fds[fdi := fds[fdi].(cursorPix := fds[fdi].cursorPix)] == fds
  {
  }

  /** A medium on which room was made: a modification can start. */
  lemma CheckedChange(g: Geometry, v: Flash, dir0: Dir, fds0: seq<Fd>, w: Flash, dir: Dir, fds: seq<Fd>, fdi: nat, o: int, off: nat, data: seq<int>)
    requires g.Valid() && Survived(g, v, dir0, fds0, w, NoLoss, dir, fds) && OpenFile(g, Meaning(v, dir0), fds0, fdi)
    requires o == ObjectId(fds0[fdi].objId) && off + |data| <= Length(fds0[fdi].size)
    ensures fdi < |fds| && Kept(g, w, fds, fdi, dir, Meaning(v, dir0), o, Length(fds0[fdi].size), off, data, off)
    ensures Followed(dir0, fds0, dir, fds, fdi, Length(fds0[fdi].size))
    ensures 1 <= o <= MAX_ID
  {
    hide Consistent;
    hide SameOpen;
    hide Calm;
    hide Followed;
    hide RealLoss;
    hide Mapless;
    hide Meaning;
    hide Kept;
    hide IsFile;
    ModifyStart(g, w, fds0, fds, fdi, dir, o, off, data);
    CalmFollows(g, Meaning(v, dir0), v, dir0, fds0, dir, fds, fdi);
  }

  /** The last index page was stored; the cursor is set to it unless it is the header. */
  lemma ModifyStored(g: Geometry, fl: Flash, fds: seq<Fd>, fdi: nat, dir: Dir, dir1: Dir, fds1: seq<Fd>, m0: Image, o: int, len: nat, off: nat, data: seq<int>, n: nat, k: nat, dst: nat)
    requires g.Valid() && fdi < |fds| && Kept(g, fl, fds, fdi, dir, m0, o, len, off, data, n) && Followed(dir1, fds1, dir, fds, fdi, len)
    requires Key(IndexId(o), k) in dir && dir[Key(IndexId(o), k)] == dst
    ensures var fds' := if k != 0 then fds[fdi := fds[fdi].(cursorPix := dst, cursorSpan := k)] else fds;
      && Consistent(g, fl, dir, fds') && Modified(g, m0, fl, NoLoss, dir, fds', fdi, fds'[fdi].cursorPix, o, len, off, data, n)
      && Followed(dir1, fds1, dir, fds', fdi, len) && SameOpen(fds1, fds') && (Mapless(fds1) ==> Mapless(fds'))
  {
    hide Linked;
    hide FdsOk;
    hide Altered;
    hide Mapless;
    hide MapsOk;
    hide Within;
    hide Writer;
    hide SameOpen;
    var fds' := if k != 0 then fds[fdi := fds[fdi].(cursorPix := dst, cursorSpan := k)] else fds;
    SameCursor(fds', fdi);
    if k != 0 {
      CursorMoved(Meaning(fl, dir), dir, fds, fdi, o, k, dst);
      FollowOwn(dir, fds, fdi, fds'[fdi], len);
      FollowOn(dir1, fds1, dir, fds, dir, fds', fdi, len);
    }
  }

  /** Ends a modification: stores the index page in the buffer. */
  method Conclude(fs: Spiffs, fdi: nat, k: nat, t: nat, work: Page, ghost mark: int, junk: int, ghost span: nat, ghost dir0: Dir, ghost dir1: Dir, ghost fds1: seq<Fd>, ghost m0: Image, o: int, ghost len: nat, ghost off: nat, ghost data: seq<int>, ghost n: nat)
    returns (res: Status, ghost loss: Loss, ghost pix: int, ghost dir: Dir)
    requires fs.Valid() && !fs.cleaning && fs.freeBlocks >= 1 && 1 <= o <= MAX_ID && |data| > 0 && fdi < |fs.fds|
    requires Changing(fs.g, fs.flash, fs.fds, fdi, dir0, m0, o, len, off, data, n, k, t, work)
    requires Touching(fs.g, fs.flash, k, t, work, mark, span) && Halfway(fs.g, dir1, fds1, dir0, fs.fds, fdi, len, o, k)
    requires mark < 0 ==> Followed(dir1, fds1, dir0, fs.fds, fdi, len)
    requires Ahead(dir1, dir0, o, span, k)
    modifies fs`flash, fs`log, fs`freeBlocks, fs`maxEraseCount, fs`pagesDeleted, fs`pagesAllocated
    modifies fs`freeCursorBlock, fs`freeCursorEntry, fs`fds
    ensures fs.Valid() && fs.Drift() == old(fs.Drift()) && fs.freeBlocks >= 1
    ensures old(fs.Spare()) >= 1 ==> res == OK && fs.Spare() >= old(fs.Spare()) - 1
    ensures res == OK <==> old(fs.CanTake())
    ensures res != OK ==> !fs.CanTake()
    ensures Modified(fs.g, m0, fs.flash, loss, dir, fs.fds, fdi, pix, o, len, off, data, n)
    ensures SameOpen(fds1, fs.fds) && (Mapless(fds1) ==> Mapless(fs.fds))
    ensures loss.Unstored? <==> res != OK && mark >= 0
    ensures if res == OK then Spent(old(fs.Stock(OwnSlots(dir1, o))), fs.Stock(OwnSlots(dir1, o)), 1, 0) else Ends(old(fs.Stock(OwnSlots(dir1, o))), 0, 0)
    ensures res == OK ==> Consistent(fs.g, fs.flash, dir, fs.fds)
    ensures loss == NoLoss ==> Followed(dir1, fds1, dir, fs.fds, fdi, len)
  {
    hide FreeSuffix;
    hide CursorOk;
    hide All;
    hide FreeBlocks;
    hide ErasedFree;
    hide DeadMarked;
    hide Linked;
    hide FdsOk;
    hide Altered;
    hide IxSpan;
    hide IxEntry;
    hide Quot;
    hide Rem;
    hide Kept;
    hide Changing;
    hide TopIx;
    hide PageCount;
    hide Touching;
    hide Halfway;
    hide Followed;
    hide Spiffs.Spare;
    hide Spiffs.CanTake;
    hide SameOpen;
    hide Geometry.Total;
    hide Geometry.BlockStart;
    hide Meaning;
    hide Modified;
    hide Mapless;
    hide Consistent;
    hide Ahead;
    hide OwnSlots;
    hide Spiffs.Stock;
    hide Spent;
    hide Ends;
    ChangeCursor(fs.g, fs.flash, fs.fds, fdi, dir0, m0, o, len, off, data, n, k, t, work);
    HalfwayCursor(fs.g, dir1, fds1, dir0, fs.fds, fdi, len, o, k, t, k);
    if mark < 0 {
      FollowCursor(dir1, fds1, dir0, fs.fds, fdi, len, t, k);
    }
    fs.fds := fs.fds[fdi := fs.fds[fdi].(cursorPix := t, cursorSpan := k)];
    var dst;
    res, dst, dir := StoreChanged(fs, fdi, k, t, work, dir0, dir1, fds1, m0, o, len, off, data, n, span);
    if res == OK {
      loss := NoLoss;
      ModifyStored(fs.g, fs.flash, fs.fds, fdi, dir, dir1, fds1, m0, o, len, off, data, n, k, dst);
      if k != 0 {
        fs.fds := fs.fds[fdi := fs.fds[fdi].(cursorPix := dst, cursorSpan := k)];
      }
      pix := fs.fds[fdi].cursorPix;
    } else {
      UnstoredHere(fs.g, fs.flash, fs.fds, fdi, dir, dir1, fds1, m0, o, len, off, data, n, k, t, work, mark, span, if k != 0 then junk else fs.fds[fdi].cursorPix);
      SameCursor(fs.fds, fdi);
      loss, pix := if mark >= 0 then Unstored(t, work.body) else NoLoss, fs.fds[fdi].cursorPix;
      if k != 0 {
        if mark < 0 {
          FollowCursor(dir1, fds1, dir, fs.fds, fdi, len, junk, k);
        }
        fs.fds := fs.fds[fdi := fs.fds[fdi].(cursorPix := junk, cursorSpan := k)];
      }
    }
  }

  /** How a modification is getting on: what is `spare` is enough for the data pages up to span `last` if
      `need` was there when it began. */
  ghost predicate ModifyPace(ok: bool, span: nat, last: nat, before: int, need: int, spare: int) {
    before >= need ==> ok && spare >= before - need + 2 + (if span <= last then 2 * (last - span + 1) else 0)
  }

  lemma ModifyPaceStart(g: Geometry, off: nat, len: nat, before: int)
    requires g.Valid() && len > 0
    ensures Quot(off, g.dps) <= Quot(off + len - 1, g.dps)
    ensures ModifyPace(true, Quot(off, g.dps), Quot(off + len - 1, g.dps), before, ModifyNeed(g, off, len), before)
  {
    hide Quot;
    QuotMonotone(off, off + len - 1, g.dps);
  }

  lemma ModifyPaceOn(span: nat, last: nat, before: int, need: int, spare: int, ok': bool, span': nat, spare': int)
    requires ModifyPace(true, span, last, before, need, spare) && span <= last && (ok' ==> span' == span + 1)
    requires spare >= 2 ==> ok' && spare' >= spare - 2
    ensures ModifyPace(ok', span', last, before, need, spare')
  {
  }

  /** Replaces the bytes once there is room. It stops exactly where no more page can be had, with the first
      `written` bytes replaced. `junk` is what an uninitialized variable holds that the cursor is then set
      to. */
  method ModifyRest(fs: Spiffs, fdi: nat, offset: nat, data: seq<int>, junk: int, ghost dir0: Dir, ghost m0: Image, o: int, ghost len: nat)
    returns (res: Status, written: nat, ghost stage: Stage, ghost loss: Loss, ghost pix: int, ghost dir: Dir)
    requires fs.Valid() && !fs.cleaning && fs.freeBlocks >= 1 && 1 <= o <= MAX_ID && |data| > 0 && offset + |data| <= len && fdi < |fs.fds|
    requires Kept(fs.g, fs.flash, fs.fds, fdi, dir0, m0, o, len, offset, data, offset)
    modifies fs`flash, fs`log, fs`freeBlocks, fs`maxEraseCount, fs`pagesDeleted, fs`pagesAllocated
    modifies fs`freeCursorBlock, fs`freeCursorEntry, fs`fds, fs`cursorBlock, fs`cursorEntry
    ensures fs.Valid() && fs.Drift() == old(fs.Drift()) && fs.freeBlocks >= 1
    ensures old(fs.Spare()) >= ModifyNeed(fs.g, offset, |data|) ==> res == OK && fs.Spare() >= old(fs.Spare()) - ModifyNeed(fs.g, offset, |data|)
    ensures res == OK ==> loss == NoLoss && written == |data| && Consistent(fs.g, fs.flash, dir, fs.fds)
    ensures res != OK ==> !fs.CanTake()
    ensures written <= |data| && Modified(fs.g, m0, fs.flash, loss, dir, fs.fds, fdi, pix, o, len, offset, data, offset + written)
    ensures loss == NoLoss ==> Followed(dir0, old(fs.fds), dir, fs.fds, fdi, len)
    ensures SameOpen(old(fs.fds), fs.fds) && (Mapless(old(fs.fds)) ==> Mapless(fs.fds))
    ensures ModifyStopped(fs.g, offset, |data|, stage, offset + written, loss.Unstored?) && (res == OK <==> stage == Whole)
    ensures First(fs.g, offset) <= Last(fs.g, offset, |data|) && ModifyForeseen(fs.g, offset, Last(fs.g, offset, |data|), old(fs.Stock(OwnSlots(dir0, o))), stage)
  {
    hide FreeSuffix;
    hide CursorOk;
    hide All;
    hide FreeBlocks;
    hide ErasedFree;
    hide DeadMarked;
    hide Linked;
    hide FdsOk;
    hide Altered;
    hide IxSpan;
    hide IxEntry;
    hide Quot;
    hide Rem;
    hide Kept;
    hide Changing;
    hide TopIx;
    hide PageCount;
    hide Touching;
    hide Halfway;
    hide Followed;
    hide Spiffs.Spare;
    hide Spiffs.CanTake;
    hide Spiffs.Drift;
    hide Spiffs.Stock;
    hide Replacing;
    hide SameOpen;
    hide Geometry.Total;
    hide Geometry.BlockStart;
    hide Meaning;
    hide Modified;
    hide Mapless;
    hide Consistent;
    hide Ahead;
    hide OwnSlots;
    hide ModifyStop;
    hide ModifyOnPlan;
    hide ModifyForeseen;
    hide ModifyStopped;
    hide Crosses;
    hide ModifyNeed;
    hide Writer;
    hide AllWords;
    hide TurnAt;
    hide Spent;
    hide Ends;
    var g := fs.g;
    ghost var x := OwnSlots(dir0, o);
    ghost var spare, need, stock := fs.Spare(), ModifyNeed(g, offset, |data|), fs.Stock(x);
    written, dir, loss, pix, stage, res := 0, dir0, NoLoss, 0, Whole, OK;
    var k: nat, prev: int, t: nat, work: Page := 0, -1, 0, ERASED;
    ghost var mark := -1;
    var span, pageOffs := Quot(offset, g.dps), Rem(offset, g.dps);
    FollowRefl(dir0, fs.fds, fdi, len);
    ReplacingStart(g, fs.flash, fs.fds, fdi, dir, dir0, fs.fds, m0, o, len, offset, data, t, work);
    QuotMonotone(offset, offset + |data| - 1, g.dps);
    ghost var last := Quot(offset + |data| - 1, g.dps);
    ModifyPlanStart(g, offset, last, stock, dir0, o);
    ModifyPaceStart(g, offset, |data|, spare);
    while res == OK && written < |data|
      invariant written <= |data| && fs.Valid() && !fs.cleaning && fs.Drift() == old(fs.Drift()) && fs.freeBlocks >= 1
      invariant Replacing(g, fs.flash, fs.fds, fdi, dir, dir0, old(fs.fds), m0, o, len, offset, data, res == OK, written, k, prev, t, work, mark, span, pageOffs)
      invariant ModifyPace(res == OK, span, last, spare, need, fs.Spare())
      invariant if prev == -1 then res == OK && written == 0 else prev == k
      invariant res != OK ==> written < |data| && span == Quot(offset + written, g.dps)
      invariant res != OK ==> !fs.CanTake()
      invariant span <= last + 1 && (written == |data| ==> span == last + 1) && Ahead(dir0, dir, o, span, if prev == -1 then 0 else prev)
      invariant if res == OK then ModifyOnPlan(g, offset, span, last, stock, fs.Stock(x))
                else stage.AtData? && ModifyStopped(g, offset, |data|, stage, offset + written, mark >= 0) && ModifyForeseen(g, offset, last, stock, stage)
      decreases res == OK, |data| - written
    {
      var turned, k', t', work', span', pageOffs', written';
      ghost var mark', dir', stock1, spare1 := mark, dir, fs.Stock(x), fs.Spare();
      ReplacingOn(g, fs.flash, fs.fds, fdi, dir, dir0, old(fs.fds), m0, o, len, offset, data, true, written, k, prev, t, work, mark, span, pageOffs);
      res, turned, k', t', work', mark', span', pageOffs', written', stage, dir' := Step(fs, fdi, k, prev, t, work, mark, span, pageOffs, written, dir, dir0, old(fs.fds), m0, o, len, offset, data);
      ModifyPaceOn(span, last, spare, need, spare1, res == OK, span', fs.Spare());
      if res == OK {
        ModifyPlanOn(g, offset, span, last, stock, stock1, fs.Stock(x));
      } else {
        ModifyPlanStops(g, offset, span, last, stock, stock1, stage);
      }
      if !turned {
        // the cursor stays where it is
        UnstoredHere(g, fs.flash, fs.fds, fdi, dir, dir0, old(fs.fds), m0, o, len, offset, data, offset + written, k, t, work, mark, Quot(offset + written, g.dps) + 1, fs.fds[fdi].cursorPix);
        SameCursor(fs.fds, fdi);
        loss, pix := Unstored(t, work.body), fs.fds[fdi].cursorPix;
        return;
      }
      k, t, work, mark, span, pageOffs, written, dir := k', t', work', mark', span', pageOffs', written', dir';
      prev := k;
    }
    ReplacingOn(g, fs.flash, fs.fds, fdi, dir, dir0, old(fs.fds), m0, o, len, offset, data, res == OK, written, k, prev, t, work, mark, span, pageOffs);
    ghost var stock1 := fs.Stock(x);
    LastAhead(g, offset, |data|, written, span, dir0, dir, o, k);
    var res2;
    res2, loss, pix, dir := Conclude(fs, fdi, k, t, work, mark, junk, Quot(offset + written, g.dps) + 1, dir, dir0, old(fs.fds), m0, o, len, offset, data, offset + written);
    if res == OK {
      stage := if res2 == OK then Whole else AtEnd;
      ModifyEnd(g, offset, |data|, res2 == OK);
      ModifyPlanEnds(g, offset, last, stock, stock1, fs.Stock(x), res2 == OK);
    }
    if res2 != OK {
      res := res2;
    }
  }

  /** Replaces the bytes of a file from `offset` on by `data`, inside the file, unless there is no
      room. It stops exactly where no more page can be had, with the first `written` bytes replaced;
      `stage` says where that is, and with it whether references to pages replaced are lost. As long as
      there is, in every block, an entry that is neither deleted nor a page of the file, `stage` is
      known from the pages that can be had right after the room check (`stock`). `junk` is what an
      uninitialized variable holds that the cursor is then set to. */
  method Modify(fs: Spiffs, fdi: nat, offset: nat, data: seq<int>, maxCandidates: nat, junk: int, ghost dir0: Dir)
    returns (res: Status, written: nat, room: bool, ghost stage: Stage, ghost stock: Supply, ghost loss: Loss, ghost pix: int, ghost dir: Dir)
    requires fs.Valid() && !fs.cleaning && maxCandidates > 0
    requires Consistent(fs.g, fs.flash, dir0, fs.fds) && OpenFile(fs.g, Meaning(fs.flash, dir0), fs.fds, fdi)
    requires |data| > 0 && offset + |data| <= Length(fs.fds[fdi].size)
    modifies fs`flash, fs`log, fs`freeBlocks, fs`maxEraseCount, fs`pagesDeleted, fs`pagesAllocated
    modifies fs`freeCursorBlock, fs`freeCursorEntry, fs`fds, fs`cursorBlock, fs`cursorEntry, fs`cleaning
    ensures fs.Valid() && !fs.cleaning && fs.Drift() >= old(fs.Drift())
    ensures old(fs.Spare()) >= Plenty(fs.g) && old(fs.Spare()) >= ModifyNeed(fs.g, offset, |data|) ==> res == OK && fs.Spare() >= old(fs.Spare()) - ModifyNeed(fs.g, offset, |data|)
    ensures old(fs.freeBlocks) > 3 && |data| + fs.g.dps < old(Reclaim.FreePages(fs)) * fs.g.dps ==>
      room && stock == old(fs.Stock(OwnSlots(dir0, ObjectId(fs.fds[fdi].objId))))
    ensures res == OK ==> room && loss == NoLoss && written == |data| && Consistent(fs.g, fs.flash, dir, fs.fds)
    ensures !room ==> written == 0 && Survived(fs.g, old(fs.flash), dir0, old(fs.fds), fs.flash, loss, dir, fs.fds)
    ensures !room && res == ERR_FULL ==> loss == NoLoss && !Reclaim.Holds(fs.g, fs.flash.lu, |data| + fs.g.dps)
    ensures old(Reclaim.Ample(fs, |data| + fs.g.dps)) ==> room
    ensures !room ==> res == ERR_FULL || Reclaim.Jammed(fs.g, old(fs.flash), dir0)
    ensures room && res != OK ==> !fs.CanTake()
    ensures
      var o, n := ObjectId(old(fs.fds)[fdi].objId), Length(old(fs.fds)[fdi].size);
      && (room ==> written <= |data| && Modified(fs.g, Meaning(old(fs.flash), dir0), fs.flash, loss, dir, fs.fds, fdi, pix, o, n, offset, data, offset + written))
      && (room && loss == NoLoss ==> Followed(dir0, old(fs.fds), dir, fs.fds, fdi, n))
      && (room ==> SameOpen(old(fs.fds), fs.fds) && (Mapless(old(fs.fds)) ==> Mapless(fs.fds)))
    ensures room ==> ModifyStopped(fs.g, offset, |data|, stage, offset + written, loss.Unstored?) && (res == OK <==> stage == Whole)
    ensures room ==> First(fs.g, offset) <= Last(fs.g, offset, |data|) && ModifyForeseen(fs.g, offset, Last(fs.g, offset, |data|), stock, stage)
    ensures room ==> ((exists d :: Linked(fs.g, fs.flash, d)) <==> ModifyOrder(fs.g, offset, stage))
  {
    hide FreeSuffix;
    hide CursorOk;
    hide All;
    hide FreeBlocks;
    hide ErasedFree;
    hide DeadMarked;
    hide Linked;
    hide FdsOk;
    hide Altered;
    hide IxSpan;
    hide Quot;
    hide Rem;
    hide Kept;
    hide TopIx;
    hide PageCount;
    hide Followed;
    hide Spiffs.Spare;
    hide Spiffs.CanTake;
    hide Spiffs.Drift;
    hide Spiffs.Stock;
    hide SameOpen;
    hide Geometry.Total;
    hide Geometry.BlockStart;
    hide Meaning;
    hide Extent;
    hide Survived;
    hide Reclaim.Jammed;
    hide Reclaim.FreePages;
    hide Modified;
    hide Mapless;
    hide Consistent;
    hide OwnSlots;
    hide ModifyStop;
    hide ModifyStopped;
    hide ModifyOrder;
    hide ModifyForeseen;
    var g, o := fs.g, ObjectId(fs.fds[fdi].objId);
    ghost var m0, len := Meaning(fs.flash, dir0), Length(fs.fds[fdi].size);
    written, dir, room, loss, pix, stage, stock := 0, dir0, false, NoLoss, 0, Whole, fs.Stock({});
    ghost var spare, need := fs.Spare(), ModifyNeed(g, offset, |data|);
    if spare >= need {
      ModifyRoom(g, offset, |data|, spare);
    }
    res, loss, dir := WriteRoom(fs, |data|, maxCandidates, dir);
    if res != OK {
      return;
    }
    room, stock := true, fs.Stock(OwnSlots(dir, o));
    CheckedChange(g, old(fs.flash), dir0, old(fs.fds), fs.flash, dir, fs.fds, fdi, o, offset, data);
    ghost var dir1, fds1 := dir, fs.fds;
    FollowedOpen(dir0, old(fs.fds), dir1, fds1, fdi, len);
    res, written, stage, loss, pix, dir := ModifyRest(fs, fdi, offset, data, junk, dir, m0, o, len);
    OpenOn(old(fs.fds), fds1, fs.fds);
    if loss == NoLoss {
      FollowOn(dir0, old(fs.fds), dir1, fds1, dir, fs.fds, fdi, len);
    }
    ModifiedExact(g, m0, fs.flash, loss, dir, fs.fds, fdi, pix, o, len, offset, data, offset + written);
    ModifyExact(g, offset, |data|, stage, offset + written, loss.Unstored?);
  }

  lemma FollowedOpen(dir0: Dir, fds0: seq<Fd>, dir: Dir, fds: seq<Fd>, fdi: nat, len: nat)
    requires Followed(dir0, fds0, dir, fds, fdi, len)
    ensures SameOpen(fds0, fds) && (Mapless(fds0) ==> Mapless(fds)) && (MapsOk(dir0, fds0) ==> MapsOk(dir, fds))
  {
  }

  lemma OpenOn(a: seq<Fd>, b: seq<Fd>, c: seq<Fd>)
    requires SameOpen(a, b) && SameOpen(b, c)
    ensures SameOpen(a, c)
  {
  }

  lemma ModifyPlanStart(g: Geometry, off: nat, last: nat, start: Supply, dir: Dir, o: int)
    requires g.Valid() && First(g, off) <= last
    ensures ModifyOnPlan(g, off, First(g, off), last, start, start) && Ahead(dir, dir, o, First(g, off), 0)
  {
  }

  lemma LastAhead(g: Geometry, off: nat, len: nat, written: nat, span: nat, base: Dir, dir: Dir, o: int, k: int)
    requires g.Valid() && len > 0 && written <= len && Ahead(base, dir, o, span, k)
    requires if written < len then span <= Quot(off + written, g.dps) + 1 else span == Last(g, off, len) + 1
    ensures Ahead(base, dir, o, Quot(off + written, g.dps) + 1, k)
  {
    hide Quot;
    QuotMonotone(off + len - 1, off + len, g.dps);
    AheadOn(base, dir, o, span, k, Quot(off + written, g.dps) + 1, k);
  }

  /** When a modification leaves the medium consistent, with any directory: exactly if no index page
      was left unstored. The file then has the bytes up to `n` changed. */
  lemma ModifiedExact(g: Geometry, m0: Image, fl: Flash, loss: Loss, dir: Dir, fds: seq<Fd>, fdi: nat, pix: int, o: int, len: nat, off: nat, data: seq<int>, n: nat)
    requires g.Valid() && Modified(g, m0, fl, loss, dir, fds, fdi, pix, o, len, off, data, n)
    ensures (exists d :: Linked(g, fl, d)) <==> loss == NoLoss
    ensures loss == NoLoss ==> Linked(g, fl, dir) && Altered(g, m0, Meaning(fl, dir), o, len, off, data, n)
  {
    hide Linked;
    hide FdsOk;
    hide Altered;
    hide RealLoss;
    if loss.Unstored? {
      forall d
        ensures !Linked(g, fl, d)
      {
        LossShows(g, fl, dir, loss, d);
      }
    } else {
      assert Linked(g, fl, dir);
    }
  }
}
