/** Truncating a file to nothing, and removing it: data pages are deleted from the end, and each
    index page once nothing is under it. */
module Removal {
  import opened Words
  import opened Layout
  import opened Medium
  import opened Directory
  import opened Tally
  import opened Store
  import opened Collector
  import opened Circling
  import opened Files
  import opened Holding
  import opened Appending
  import opened Window
  import opened Maps
  import FileIO
  import Reclaim

  /** The medium without the mark that header page `hdr` is being removed. */
  function Unmarked(fl: Flash, hdr: int): Flash {
    if 0 <= hdr < |fl.pages| then fl.(pages := fl.pages[hdr := fl.pages[hdr].(flags := fl.pages[hdr].flags.(ixdele := true))]) else fl
  }

  /** The pages left of object `o`: `count` data pages and the index pages up to `top`. */
  ghost predicate Shrunk(g: Geometry, m0: Image, m: Image, o: int, count: nat, top: nat) {
    && SameOthers(m0, m, o)
    && DataPages(g, m, o, count) && IndexPages(m, o, top)
    && Key(IndexId(o), 0) in m0 && m0[Key(IndexId(o), 0)].Header? && Named(m, o, m0[Key(IndexId(o), 0)].name)
  }

  lemma ShrunkData(g: Geometry, m0: Image, m: Image, o: int, count: nat, top: nat)
    requires Shrunk(g, m0, m, o, count, top) && count > 0 && 1 <= o <= MAX_ID
    ensures Key(o, count - 1) in m
    ensures Shrunk(g, m0, m - {Key(o, count - 1)}, o, count - 1, top)
  {
    var m' := m - {Key(o, count - 1)};
    assert forall k :: k in m' <==> k in m && k != Key(o, count - 1);
    assert DataPages(g, m', o, count - 1);
  }

  lemma ShrunkIndex(g: Geometry, m0: Image, m: Image, o: int, count: nat, top: nat)
    requires Shrunk(g, m0, m, o, count, top) && top > 0 && 1 <= o <= MAX_ID
    ensures Key(IndexId(o), top) in m
    ensures Shrunk(g, m0, m - {Key(IndexId(o), top)}, o, count, top - 1)
  {
    var m' := m - {Key(IndexId(o), top)};
    assert forall k :: k in m' <==> k in m && k != Key(IndexId(o), top);
    assert DataPages(g, m', o, count);
    assert IndexPages(m', o, top - 1);
  }

  /** A data page and its reference go. */
  lemma HeldDrop(g: Geometry, fl: Flash, dir: Dir, o: int, k: nat, t: nat, work: Page, q: nat)
    requires Held(g, fl, dir, o, k, t, work) && IxSpan(g, q) == k && Key(o, q) in dir
    ensures 0 <= dir[Key(o, q)] < |fl.lu| == |fl.pages|
    ensures
      var w, d := Dropped(fl, dir[Key(o, q)]), Without(dir, Key(o, q));
      var work' := work.(body := PutRef(work.body, IxEntry(g, q), NONE));
      && Held(g, w, d, o, k, t, work') && Seen(w, d, t, work') == Seen(fl, dir, t, work) - {Key(o, q)}
  {
    hide Linked;
    var x, i := Key(o, q), IxEntry(g, q);
    HeldPage(g, fl, dir, o, k, t, work);
    HeldRef(g, fl, dir, o, k, t, work, q);
    var s := dir[x];
    var v, w := Patch(fl, t, work.body), Patch(Dropped(fl, s), t, PutRef(work.body, i, NONE));
    assert Shed(v, w, s, t, i);
    DropData(g, v, w, dir, s, t, i);
  }

  /** An index page no data page is under goes. */
  lemma HeldGone(g: Geometry, fl: Flash, dir: Dir, o: int, k: nat, t: nat, work: Page, w: Flash)
    requires Held(g, fl, dir, o, k, t, work)
    requires forall q: nat {:trigger Key(o, q)} :: IxSpan(g, q) == k ==> Key(o, q) !in dir
    requires k == 0 ==> forall x :: x in dir && x.id == IndexId(o) ==> x.span == 0
    requires w == Dropped(fl, t) || (k == 0 && w.lu == Dropped(fl, t).lu && w.counts == fl.counts && |w.pages| == |fl.pages| && forall s :: 0 <= s < |fl.pages| && s != t ==> w.pages[s] == fl.pages[s])
    ensures Linked(g, w, Without(dir, Key(IndexId(o), k)))
    ensures Meaning(w, Without(dir, Key(IndexId(o), k))) == Seen(fl, dir, t, work) - {Key(IndexId(o), k)}
  {
    hide Linked;
    var v := Patch(fl, t, work.body);
    HeldPage(g, fl, dir, o, k, t, work);
    forall j | 0 <= j < |RefsOf(work.body)|
      ensures RefsOf(work.body)[j] == NONE
    {
      IxRoundTrip(g, k, j);
      HeldRef(g, fl, dir, o, k, t, work, FirstSpan(g, k) + j);
    }
    assert KeyAt(v, t) == Key(IndexId(o), k);
    assert Shed(v, w, t, NONE, 0);
    DropIndex(g, v, w, dir, t);
  }

  // The descriptors.

  /** The descriptor is open for object `o` and knows its header page, whether or not it is one
      that events reach. */
  ghost predicate Owner(dir: Dir, fds: seq<Fd>, fdi: nat, o: int) {
    && fdi < |fds| && fds[fdi].fileNbr != 0 && fds[fdi].objId == IndexId(o) && 1 <= o <= MAX_ID
    && Key(IndexId(o), 0) in dir && dir[Key(IndexId(o), 0)] == fds[fdi].hdr
  }

  lemma OwnerSet(m: Image, dir: Dir, fds: seq<Fd>, fdi: nat, o: int, k: nat, t: int, size: int)
    requires FdsTrack(m, dir, fds, o) && Owner(dir, fds, fdi, o)
    ensures FdsTrack(m, dir, fds[fdi := fds[fdi].(size := size)], o) && Owner(dir, fds[fdi := fds[fdi].(size := size)], fdi, o)
    ensures Key(IndexId(o), k) in dir && dir[Key(IndexId(o), k)] == t ==>
      && FdsTrack(m, dir, fds[fdi := fds[fdi].(cursorPix := t, cursorSpan := k)], o)
      && Owner(dir, fds[fdi := fds[fdi].(cursorPix := t, cursorSpan := k)], fdi, o)
  {
    var fds', fds'' := fds[fdi := fds[fdi].(size := size)], fds[fdi := fds[fdi].(cursorPix := t, cursorSpan := k)];
    forall i | 0 <= i < |fds|
      ensures FdPlaced(dir, fds'[i]) && (ObjectId(fds'[i].objId) != o ==> FdOk(m, dir, fds'[i]))
      ensures Key(IndexId(o), k) in dir && dir[Key(IndexId(o), k)] == t ==>
        FdPlaced(dir, fds''[i]) && (ObjectId(fds''[i].objId) != o ==> FdOk(m, dir, fds''[i]))
    {
      assert FdPlaced(dir, fds[i]) && (ObjectId(fds[i].objId) != o ==> FdOk(m, dir, fds[i]));
    }
  }

  /** The header went to slot `dst`, and the descriptors were told it and the length. */
  lemma TrackHeader(m: Image, m': Image, dir: Dir, fds: seq<Fd>, fds': seq<Fd>, fdi: nat, ev: IxEvent, o: int, dst: int, size: int)
    requires FdsTrack(m, dir, fds, o) && SameOthers(m, m', o) && Owner(dir, fds, fdi, o) && ev != IxDeleted && size != 0
    requires |fds'| == |fds| && forall i :: 0 <= i < |fds| ==>
      fds'[i] == var e := EventFd(fds[i], ev, IndexId(o), 0, dst, size); if i == fdi then e.(hdr := dst) else e
    ensures FdsTrack(m', dir[Key(IndexId(o), 0) := dst], fds', o) && Owner(dir[Key(IndexId(o), 0) := dst], fds', fdi, o)
    ensures var x := Key(IndexId(o), 0);
      x in m' && m'[x].Header? && Length(m'[x].size) == Length(size) ==> FdsOk(m', dir[x := dst], fds')
  {
    var x := Key(IndexId(o), 0);
    forall i | 0 <= i < |fds|
      ensures FdPlaced(dir[x := dst], fds'[i])
      ensures ObjectId(fds'[i].objId) != o ==> FdOk(m', dir[x := dst], fds'[i])
      ensures x in m' && m'[x].Header? && Length(m'[x].size) == Length(size) ==> FdOk(m', dir[x := dst], fds'[i])
    {
      assert FdPlaced(dir, fds[i]) && (ObjectId(fds[i].objId) != o ==> FdOk(m, dir, fds[i]));
    }
  }

  /** An index page is gone and the descriptors were told; with the header page the descriptors
      of the object are closed. */
  lemma TrackDeleted(m: Image, m': Image, dir: Dir, fds: seq<Fd>, fds': seq<Fd>, o: int, k: nat, f: int)
    requires FdsTrack(m, dir, fds, o) && SameOthers(m, m', o) && |fds'| == |fds| && 1 <= o <= MAX_ID
    requires forall i :: 0 <= i < |fds| ==> fds'[i] == EventFd(fds[i], IxDeleted, IndexId(o), k, f, 0)
    ensures k > 0 ==> FdsTrack(m', Without(dir, Key(IndexId(o), k)), fds', o)
    ensures k == 0 ==> FdsOk(m', Without(dir, Key(IndexId(o), 0)), fds')
    ensures k == 0 ==> forall i :: 0 <= i < |fds| && ObjectId(fds[i].objId) == o ==> fds'[i].fileNbr == 0
    ensures k > 0 ==> forall fdi :: Owner(dir, fds, fdi, o) ==> Owner(Without(dir, Key(IndexId(o), k)), fds', fdi, o)
  {
    forall i | 0 <= i < |fds|
      ensures k > 0 ==> FdPlaced(Without(dir, Key(IndexId(o), k)), fds'[i])
      ensures k > 0 && ObjectId(fds'[i].objId) != o ==> FdOk(m', Without(dir, Key(IndexId(o), k)), fds'[i])
      ensures k == 0 ==> FdOk(m', Without(dir, Key(IndexId(o), 0)), fds'[i])
    {
      assert FdPlaced(dir, fds[i]) && (ObjectId(fds[i].objId) != o ==> FdOk(m, dir, fds[i]));
    }
  }

  // What a truncation leaves alone.

  /** Pages of other objects are where they were. */
  ghost predicate DirElse(dir: Dir, dir': Dir, o: int) {
    forall k: Key {:trigger k in dir} {:trigger k in dir'} :: ObjectId(k.id) != o ==> (k in dir <==> k in dir') && (k in dir ==> dir'[k] == dir[k])
  }

  /** Descriptors of other objects are as they were, and every window is. */
  ghost predicate FdsElse(fds: seq<Fd>, fds': seq<Fd>, o: int) {
    |fds'| == |fds| && forall i :: 0 <= i < |fds| ==> fds'[i].win == fds[i].win && fds'[i].score == fds[i].score && (ObjectId(fds[i].objId) != o ==> fds'[i] == fds[i])
  }

  ghost predicate Apart(dir: Dir, fds: seq<Fd>, dir': Dir, fds': seq<Fd>, o: int) {
    DirElse(dir, dir', o) && FdsElse(fds, fds', o)
  }

  lemma ApartRefl(dir: Dir, fds: seq<Fd>, o: int)
    ensures Apart(dir, fds, dir, fds, o)
  {
  }

  lemma ApartOn(dir: Dir, fds: seq<Fd>, dir1: Dir, fds1: seq<Fd>, dir': Dir, fds': seq<Fd>, o: int)
    requires Apart(dir, fds, dir1, fds1, o) && Apart(dir1, fds1, dir', fds', o)
    ensures Apart(dir, fds, dir', fds', o)
  {
  }

  /** The owner gets another length or cursor, and a page of the object may go or move. */
  lemma ApartOwn(dir: Dir, dir': Dir, fds: seq<Fd>, fdi: nat, fd: Fd, o: int, x: Key, f: int)
    requires fdi < |fds| && ObjectId(fds[fdi].objId) == o && fd == fds[fdi].(size := fd.size, hdr := fd.hdr, cursorPix := fd.cursorPix, cursorSpan := fd.cursorSpan)
    requires ObjectId(x.id) == o && (dir' == dir || dir' == Without(dir, x) || dir' == dir[x := f])
    ensures Apart(dir, fds, dir', fds[fdi := fd], o)
  {
  }

  lemma ApartEvent(dir: Dir, dir': Dir, fds: seq<Fd>, fds': seq<Fd>, fdi: nat, ev: IxEvent, o: int, k: nat, f: int, size: int)
    requires 1 <= o <= MAX_ID && (dir' == Without(dir, Key(IndexId(o), k)) || dir' == dir[Key(IndexId(o), k) := f])
    requires ev.IxUpdated? || ev.IxNew? ==> forall j :: 0 <= j < |ev.refs| ==> ev.refs[j] == NONE
    requires |fds'| == |fds| && (fdi < |fds| ==> ObjectId(fds[fdi].objId) == o) && forall i :: 0 <= i < |fds| ==>
      fds'[i] == var e := EventFd(fds[i], ev, IndexId(o), k, f, size); if i == fdi && ev != IxDeleted then e.(hdr := f) else e
    ensures Apart(dir, fds, dir', fds', o)
  {
    hide EventFd;
    hide TakeOver;
    forall i | 0 <= i < |fds|
      ensures fds'[i].win == fds[i].win && fds'[i].score == fds[i].score && (ObjectId(fds[i].objId) != o ==> fds'[i] == fds[i])
    {
      WindowEvent(fds[i], ev, IndexId(o), k, f, size);
      if (ev.IxUpdated? || ev.IxNew?) && fds[i].win.Some? {
        NothingTaken(fds[i].win.value, ev.first, ev.refs);
      }
      WindowOther(fds[i], ev, IndexId(o), k, f, size);
    }
  }

  lemma WindowOther(fd: Fd, ev: IxEvent, id: int, k: nat, f: int, size: int)
    ensures EventFd(fd, ev, id, k, f, size).score == fd.score
    ensures fd.fileNbr == 0 || ObjectId(fd.objId) != ObjectId(id) ==> EventFd(fd, ev, id, k, f, size).win == fd.win
  {
  }

  /** Empty references leave a window as it is, whatever it says. */
  lemma NothingTaken(w: Window, first: nat, refs: seq<int>)
    requires forall j :: 0 <= j < |refs| ==> refs[j] == NONE
    ensures TakeOver(w, first, refs) == w
  {
    var r := TakeOver(w, first, refs);
    forall i | 0 <= i < |w.entries|
      ensures r.entries[i] == w.entries[i]
    {
      if first <= w.start + i < first + |refs| {
        NoneUnbroken(refs, (if w.start < first then first else w.start) - first, w.start + i - first);
      }
    }
    assert r.entries == w.entries;
  }

  lemma NoneUnbroken(refs: seq<int>, a: nat, b: int)
    requires a <= b && a < |refs| && refs[a] == NONE
    ensures !Unbroken(refs, a, b)
  {
  }

  /** The header page of object `o` on flash and in the directory stays what it was. */
  ghost predicate HeadKept(v: Flash, dir: Dir, w: Flash, dir': Dir, o: int) {
    forall word :: HeaderHas(v, dir, o, word) ==> HeaderHas(w, dir', o, word)
  }

  lemma HeadDropped(fl: Flash, s: int, dir: Dir, dir': Dir, o: int)
    requires 0 <= s < |fl.lu| == |fl.pages| && HeaderKept(dir, dir', o)
    ensures HeadKept(fl, dir, Dropped(fl, s), dir', o)
  {
  }

  /** The references of the buffer in front of entry `e` are still those of the stored page. */
  ghost predicate Low(fl: Flash, t: nat, work: Page, e: nat) {
    && t < |fl.pages| && |RefsOf(work.body)| == |RefsOf(fl.pages[t].body)|
    && forall j :: 0 <= j < e && j < |RefsOf(work.body)| ==> RefsOf(work.body)[j] == RefsOf(fl.pages[t].body)[j]
  }

  /** The stored header page still refers to a first data page. */
  ghost predicate FirstStored(fl: Flash, t: nat) {
    t < |fl.pages| && |RefsOf(fl.pages[t].body)| > 0 && RefsOf(fl.pages[t].body)[0] != NONE
  }

  lemma LowData(fl: Flash, t: nat, work: Page, i: nat, s: int)
    requires 0 <= s < |fl.lu| == |fl.pages| && i < |RefsOf(work.body)| && RefsOf(work.body)[i] == s
    ensures var w, work' := Dropped(fl, s), work.(body := PutRef(work.body, i, NONE));
      Low(fl, t, work, i + 1) ==> Low(w, t, work', i) && (i == 0 ==> FirstStored(w, t))
  {
  }

  /** A file whose header counts more pages than there are. */
  lemma ShortHarms(g: Geometry, fl: Flash, fds: seq<Fd>, fdi: nat, dir: Dir, m0: Image, o: int, count: nat, top: nat, word: nat)
    requires g.Valid() && Trimmed(g, fl, fds, fdi, dir, m0, o, false, count, top) && HeaderHas(fl, dir, o, word) && PageCount(g, word) > count
    ensures FileIO.Harmed(g, m0, fl, NoLoss, dir, fds, o)
  {
    hide Linked;
    hide FdsTrack;
    hide PageCount;
    hide TopIx;
    hide IndexPages;
    hide HeaderHas;
    var m := Meaning(fl, dir);
    TrackBut(m, dir, fds, o);
    forall n: nat
      ensures !IsFile(g, m, o, n)
    {
      if IsFile(g, m, o, n) {
        FileWord(g, fl, dir, o, n, word);
        MorePagesNot(g, m, o, count, PageCount(g, word));
        FilePages(g, m, o, n);
      }
    }
    FileIO.UnfitHarms(g, m0, fl, dir, fds, o);
  }

  lemma MorePagesNot(g: Geometry, m: Image, o: int, a: nat, b: nat)
    requires DataPages(g, m, o, a) && a < b
    ensures !DataPages(g, m, o, b)
  {
    assert Key(o, a) in m <==> 0 <= a < a;
  }

  lemma FilePages(g: Geometry, m: Image, o: int, n: nat)
    requires g.Valid() && IsFile(g, m, o, n)
    ensures DataPages(g, m, o, PageCount(g, n))
  {
  }

  lemma TrackBut(m: Image, dir: Dir, fds: seq<Fd>, o: int)
    requires FdsTrack(m, dir, fds, o)
    ensures FileIO.FdsBut(m, dir, fds, o)
  {
  }

  /** The header without references was not stored: the pages it referred to are gone. */
  lemma LastHarms(g: Geometry, fl: Flash, fds: seq<Fd>, fdi: nat, dir: Dir, m0: Image, o: int, t: nat, work: Page)
    requires g.Valid() && Trimming(g, fl, fds, fdi, dir, m0, o, false, 0, 0, t, work) && FirstStored(fl, t)
    ensures Loser(fl, Unstored(t, work.body)) == o && FileIO.Harmed(g, m0, fl, Unstored(t, work.body), dir, fds, o)
  {
    hide Linked;
    hide FdsTrack;
    hide FileIO.Harmed;
    TrimPage(g, fl, fds, fdi, dir, m0, o, 0, 0, t, work);
    TrimHeld(g, fl, fds, fdi, dir, m0, o, false, 0, 0, t, work);
    ShrunkParts(g, m0, Seen(fl, dir, t, work), o, 0, 0);
    EmptyRefs(g, fl, dir, o, t, work, Seen(fl, dir, t, work));
    assert RefsOf(work.body)[0] == NONE;
    TrackBut(Seen(fl, dir, t, work), dir, fds, o);
    FileIO.LostHarms(g, m0, fl, Unstored(t, work.body), dir, fds);
  }

  // The states of a truncation.

  /** What of the medium counts while header `hdr` may be marked. */
  function Base(fl: Flash, hdr: int, mark: bool): Flash {
    if mark then Unmarked(fl, hdr) else fl
  }

  /** Index page `k`, the last one left, is in the buffer; `count` data pages are left. */
  ghost predicate Trimming(g: Geometry, fl: Flash, fds: seq<Fd>, fdi: nat, dir: Dir, m0: Image, o: int, mark: bool, count: nat, k: nat, t: nat, work: Page) {
    var hdr, page := if fdi < |fds| then fds[fdi].hdr else NONE, work.(flags := INDEX_FLAGS);
    && Held(g, Base(fl, hdr, mark), dir, o, k, t, page)
    && (t < |fl.pages| ==> work.flags == fl.pages[t].flags)
    && Shrunk(g, m0, Seen(Base(fl, hdr, mark), dir, t, page), o, count, k)
    && FdsTrack(Seen(Base(fl, hdr, mark), dir, t, page), dir, fds, o)
    && Owner(dir, fds, fdi, o)
  }

  /** Nothing is in the buffer; `count` data pages and the index pages up to `top` are left. */
  ghost predicate Trimmed(g: Geometry, fl: Flash, fds: seq<Fd>, fdi: nat, dir: Dir, m0: Image, o: int, mark: bool, count: nat, top: nat) {
    var hdr := if fdi < |fds| then fds[fdi].hdr else NONE;
    && Linked(g, Base(fl, hdr, mark), dir)
    && Shrunk(g, m0, Meaning(Base(fl, hdr, mark), dir), o, count, top)
    && FdsTrack(Meaning(Base(fl, hdr, mark), dir), dir, fds, o)
    && Owner(dir, fds, fdi, o)
  }

  /** Pages of object `o` may have been deleted, and its header marked; nothing else changed. */
  ghost predicate OnlyDrops(v: Flash, w: Flash, o: int, hdr: int) {
    && SameSize(v, w)
    && forall x :: 0 <= x < |v.lu| ==>
      || ((v.lu[x] == o || v.lu[x] == IndexId(o)) && w.lu[x] == DELETED)
      || (w.lu[x] == v.lu[x] && (x == hdr || w.pages[x] == v.pages[x]))
  }

  lemma DropCommutes(fl: Flash, hdr: int, mark: bool, s: int)
    requires 0 <= s < |fl.lu| == |fl.pages| && s != hdr
    ensures Base(Dropped(fl, s), hdr, mark) == Dropped(Base(fl, hdr, mark), s)
  {
    if mark && 0 <= hdr < |fl.pages| {
      assert Unmarked(Dropped(fl, s), hdr) == Dropped(Unmarked(fl, hdr), s);
    }
  }

  /** What the last entry in use of the buffer leads to. */
  lemma TrimStart(g: Geometry, fl: Flash, fds: seq<Fd>, fdi: nat, dir: Dir, m0: Image, o: int, mark: bool, count: nat, k: nat, t: nat, work: Page)
    requires Trimming(g, fl, fds, fdi, dir, m0, o, mark, count, k, t, work) && count > 0 && k == IxSpan(g, count - 1)
    ensures fdi < |fds|
    ensures
      var i := IxEntry(g, count - 1);
      && i < |RefsOf(work.body)|
      && var s := RefsOf(work.body)[i];
      && 0 <= s < |fl.lu| == |fl.pages| && fl.lu[s] == o && Live(o) && s != fds[fdi].hdr && Key(o, count - 1) in dir && dir[Key(o, count - 1)] == s
      && DataCheck(g, fl, s, o, count - 1) == OK
  {
    hide Linked;
    hide IxSpan;
    hide IxEntry;
    hide FdsTrack;
    var hdr, page := fds[fdi].hdr, work.(flags := INDEX_FLAGS);
    var b := Base(fl, hdr, mark);
    ShrunkData(g, m0, Seen(b, dir, t, page), o, count, k);
    HeldRef(g, b, dir, o, k, t, page, count - 1);
    HeldData(g, b, dir, o, k, t, page, count - 1);
    HeaderEntry(g, b, dir, o, k, t, page);
  }

  lemma HeaderEntry(g: Geometry, fl: Flash, dir: Dir, o: int, k: nat, t: nat, work: Page)
    requires Held(g, fl, dir, o, k, t, work) && Key(IndexId(o), 0) in dir
    ensures 0 <= dir[Key(IndexId(o), 0)] < |fl.lu| && fl.lu[dir[Key(IndexId(o), 0)]] == IndexId(o)
    ensures fl.pages[dir[Key(IndexId(o), 0)]].span == 0
  {
    hide RefsLead;
    hide DataReferred;
    assert KeyAt(Patch(fl, t, work.body), dir[Key(IndexId(o), 0)]) == Key(IndexId(o), 0);
  }

  /** The last data page was deleted. */
  lemma TrimData(g: Geometry, fl: Flash, fds: seq<Fd>, fds': seq<Fd>, fdi: nat, dir: Dir, m0: Image, o: int, mark: bool, count: nat, k: nat, t: nat, work: Page, s: int, size: int)
    requires Trimming(g, fl, fds, fdi, dir, m0, o, mark, count, k, t, work) && count > 0 && k == IxSpan(g, count - 1)
    requires fdi < |fds| && 0 <= s < |fl.lu| == |fl.pages| && Key(o, count - 1) in dir && s == dir[Key(o, count - 1)] && s != fds[fdi].hdr
    requires fds' == fds[fdi := fds[fdi].(size := size)]
    ensures Trimming(g, Dropped(fl, s), fds', fdi, Without(dir, Key(o, count - 1)), m0, o, mark, count - 1, k, t,
                     work.(body := PutRef(work.body, IxEntry(g, count - 1), NONE)))
  {
    hide Linked;
    hide IxSpan;
    hide IxEntry;
    hide FdsTrack;
    hide Shrunk;
    var hdr, page := fds[fdi].hdr, work.(flags := INDEX_FLAGS);
    var b, x := Base(fl, hdr, mark), Key(o, count - 1);
    var m := Seen(b, dir, t, page);
    ShrunkData(g, m0, m, o, count, k);
    HeldDrop(g, b, dir, o, k, t, page, count - 1);
    DropCommutes(fl, hdr, mark, s);
    TrackSame(m, m - {x}, dir, Without(dir, x), fds, o);
    HeldPage(g, b, dir, o, k, t, page);
    OwnerSet(m - {x}, Without(dir, x), fds, fdi, o, k, t, size);
    HeldRef(g, b, dir, o, k, t, page, count - 1);
    assert Dropped(fl, s).pages[t] == fl.pages[t];
  }

  /** Nothing is under index page `k` once the data pages from its first one on are gone. */
  lemma NothingUnder(g: Geometry, m: Image, dir: Dir, o: int, count: nat, k: nat)
    requires g.Valid() && DataPages(g, m, o, count) && m.Keys == dir.Keys && (count > 0 ==> IxSpan(g, count - 1) < k) 
    ensures forall q: nat {:trigger Key(o, q)} :: IxSpan(g, q) == k ==> Key(o, q) !in dir
  {
    hide IxSpan;
    forall q: nat {:trigger Key(o, q)} | IxSpan(g, q) == k
      ensures Key(o, q) !in m
    {
      if q < count {
        IxMonotone(g, q, count - 1);
      }
    }
  }

  lemma DropOverBase(fl: Flash, hdr: int, mark: bool, t: nat)
    requires t < |fl.lu| == |fl.pages|
    ensures var w, b := Dropped(fl, t), Base(fl, hdr, mark);
      && |b.pages| == |fl.pages| && b.lu == fl.lu
      && (t == hdr ==> w.lu == Dropped(b, t).lu && w.counts == b.counts && |w.pages| == |b.pages| && forall s :: 0 <= s < |b.pages| && s != t ==> w.pages[s] == b.pages[s])
  {
  }

  /** The last index page was deleted and the descriptors were told. */
  lemma TrimIndex(g: Geometry, fl: Flash, fds: seq<Fd>, fds': seq<Fd>, fdi: nat, dir: Dir, m0: Image, o: int, mark: bool, count: nat, k: nat, t: nat, work: Page)
    requires g.Valid() && Trimming(g, fl, fds, fdi, dir, m0, o, mark, count, k, t, work) && k > 0 && (count > 0 ==> IxSpan(g, count - 1) < k)
    requires |fds'| == |fds| && forall i :: 0 <= i < |fds| ==> fds'[i] == EventFd(fds[i], IxDeleted, IndexId(o), k, t, 0)
    ensures t < |fl.lu| == |fl.pages| && Trimmed(g, Dropped(fl, t), fds', fdi, Without(dir, Key(IndexId(o), k)), m0, o, mark, count, k - 1)
    ensures SameOpen(fds, fds')
  {
    hide Linked;
    hide IxSpan;
    hide FdsTrack;
    hide Shrunk;
    hide EventFd;
    hide Dropped;
    var hdr, page := fds[fdi].hdr, work.(flags := INDEX_FLAGS);
    var b := Base(fl, hdr, mark);
    var m := Seen(b, dir, t, page);
    assert DataPages(g, m, o, count) && |b.lu| == |fl.lu| && |b.pages| == |fl.pages| by {
      DropOverBaseSize(fl, hdr, mark);
      ShrunkParts(g, m0, m, o, count, k);
    }
    NothingUnder(g, m, dir, o, count, k);
    HeldPage(g, b, dir, o, k, t, page);
    HeaderEntry(g, b, dir, o, k, t, page);
    assert t != hdr;
    DropCommutes(fl, hdr, mark, t);
    HeldGone(g, b, dir, o, k, t, page, Dropped(b, t));
    ShrunkIndex(g, m0, m, o, count, k);
    TrackDeleted(m, m - {Key(IndexId(o), k)}, dir, fds, fds', o, k, t);
    ToldOpen(fds, fds', IndexId(o), k, t);
    ShrunkParts(g, m0, m - {Key(IndexId(o), k)}, o, count, k - 1);
  }

  lemma ToldOpen(fds: seq<Fd>, fds': seq<Fd>, id: int, k: nat, f: int)
    requires k > 0 && |fds'| == |fds| && forall i :: 0 <= i < |fds| ==> fds'[i] == EventFd(fds[i], IxDeleted, id, k, f, 0)
    ensures SameOpen(fds, fds')
  {
  }

  lemma HeaderOpen(fds: seq<Fd>, fds': seq<Fd>, fdi: nat, ev: IxEvent, id: int, dst: nat, size: int)
    requires ev != IxDeleted && |fds'| == |fds| && forall i :: 0 <= i < |fds| ==>
      fds'[i] == var e := EventFd(fds[i], ev, id, 0, dst, size); if i == fdi then e.(hdr := dst) else e
    ensures SameOpen(fds, fds')
  {
    hide EventFd;
    forall i | 0 <= i < |fds|
      ensures fds'[i].fileNbr == fds[i].fileNbr && fds'[i].objId == fds[i].objId && fds'[i].score == fds[i].score && fds'[i].position <= fds[i].position
      ensures fds[i].pending.None? ==> fds'[i].pending.None?
    {
      EventFields(fds[i], ev, id, 0, dst, size);
    }
  }

  lemma DropOverBaseSize(fl: Flash, hdr: int, mark: bool)
    ensures Base(fl, hdr, mark).lu == fl.lu && |Base(fl, hdr, mark).pages| == |fl.pages|
  {
  }

  lemma ShrunkParts(g: Geometry, m0: Image, m: Image, o: int, count: nat, top: nat)
    requires Shrunk(g, m0, m, o, count, top)
    ensures SameOthers(m0, m, o) && DataPages(g, m, o, count) && IndexPages(m, o, top)
  {
  }

  /** The last index page was loaded. */
  lemma TrimLoad(g: Geometry, fl: Flash, fds: seq<Fd>, fdi: nat, dir: Dir, m0: Image, o: int, mark: bool, count: nat, k: nat)
    requires g.Valid() && Trimmed(g, fl, fds, fdi, dir, m0, o, mark, count, k)
    ensures var x := Key(IndexId(o), k);
      && x in dir && 0 <= dir[x] < |fl.pages| == |fl.lu| && fl.lu[dir[x]] == IndexId(o)
      && ValidateObjIx(fl.pages[dir[x]], IndexId(o), k) == OK
      && Trimming(g, fl, fds, fdi, dir, m0, o, mark, count, k, dir[x], fl.pages[dir[x]])
      && (k == 0 ==> fds[fdi].hdr == dir[x])
      && (k > 0 ==> Matches(fl, IndexId(o), k, dir[x]) && forall s: nat :: Matches(fl, IndexId(o), k, s) ==> s == dir[x])
  {
    hide Linked;
    hide FdsTrack;
    var hdr := fds[fdi].hdr;
    var b := Base(fl, hdr, mark);
    var x, m := Key(IndexId(o), k), Meaning(b, dir);
    assert x in m;
    HeldLoad(g, b, dir, o, k);
    HeldPage(g, b, dir, o, k, dir[x], b.pages[dir[x]]);
    MatchIsFiled(g, b, dir, IndexId(o), k);
    assert b.pages[dir[x]] == fl.pages[dir[x]].(flags := INDEX_FLAGS);
    forall s: nat | k > 0
      ensures Matches(fl, IndexId(o), k, s) <==> Matches(b, IndexId(o), k, s)
    {
    }
  }

  /** The header page, the last page of the object, was deleted. */
  lemma TrimGone(g: Geometry, fl: Flash, fds: seq<Fd>, fds': seq<Fd>, fdi: nat, dir: Dir, m0: Image, o: int, mark: bool, t: nat, work: Page)
    requires g.Valid() && Trimming(g, fl, fds, fdi, dir, m0, o, mark, 0, 0, t, work)
    requires |fds'| == |fds| && forall i :: 0 <= i < |fds| ==> fds'[i] == EventFd(fds[i], IxDeleted, IndexId(o), 0, t, 0)
    ensures t < |fl.lu| == |fl.pages|
    ensures
      var w, d := Dropped(fl, t), Without(dir, Key(IndexId(o), 0));
      && Consistent(g, w, d, fds') && SameOthers(m0, Meaning(w, d), o)
      && (forall k :: k in d ==> k.id != o && k.id != IndexId(o))
      && (forall i :: 0 <= i < |fds| && ObjectId(fds[i].objId) == o ==> fds'[i].fileNbr == 0)
  {
    hide Linked;
    hide FdsTrack;
    hide EventFd;
    hide Dropped;
    hide FdsOk;
    var hdr, page := fds[fdi].hdr, work.(flags := INDEX_FLAGS);
    var b := Base(fl, hdr, mark);
    var m := Seen(b, dir, t, page);
    DropOverBaseSize(fl, hdr, mark);
    ObjectKeys(g, b, dir, o, t, page, m);
    HeldPage(g, b, dir, o, 0, t, page);
    DropOverBase(fl, hdr, mark, t);
    HeldGone(g, b, dir, o, 0, t, page, Dropped(fl, t));
    TrackDeleted(m, m - {Key(IndexId(o), 0)}, dir, fds, fds', o, 0, t);
  }

  lemma ObjectKeys(g: Geometry, b: Flash, dir: Dir, o: int, t: nat, page: Page, m: Image)
    requires Held(g, b, dir, o, 0, t, page) && m == Seen(b, dir, t, page) && DataPages(g, m, o, 0) && IndexPages(m, o, 0)
    ensures forall k: Key :: k in dir && k.id == IndexId(o) ==> k.span == 0
    ensures forall k: Key :: k in dir ==> k.id != o
    ensures forall q: nat {:trigger Key(o, q)} :: Key(o, q) !in dir
  {
    hide Linked;
    forall k: Key | k in dir
      ensures k.id == IndexId(o) ==> k.span == 0
      ensures k.id != o
    {
      assert k == Key(k.id, k.span);
      assert k in m;
    }
  }

  // The steps.

  /** Deletes the data page the last used entry of the buffer refers to, and clears the entry in
      the buffer. */
  method DeleteData(fs: Spiffs, fdi: nat, span: nat, size: nat, k: nat, t: nat, work0: Page, ghost dir0: Dir, ghost m0: Image, o: int, ghost mark: bool, ghost base: Dir)
    returns (res: Status, work: Page, ghost dir: Dir)
    requires fs.Valid() && Trimming(fs.g, fs.flash, fs.fds, fdi, dir0, m0, o, mark, span + 1, k, t, work0) && k == IxSpan(fs.g, span) && 1 <= o <= MAX_ID && Ahead(base, dir0, o, 0, 1)
    modifies fs`flash, fs`log, fs`pagesDeleted, fs`pagesAllocated, fs`fds
    ensures Lower(res)
    ensures fs.Valid() && fs.Drift() == old(fs.Drift())
    ensures fs.Spare() == old(fs.Spare())
    ensures res == OK && fdi < |fs.fds| && SameOpen(old(fs.fds), fs.fds) && fs.fds[fdi].hdr == old(fs.fds)[fdi].hdr
    ensures OnlyDrops(old(fs.flash), fs.flash, o, old(fs.fds)[fdi].hdr)
    ensures Trimming(fs.g, fs.flash, fs.fds, fdi, dir, m0, o, mark, span, k, t, work)
    ensures Apart(dir0, old(fs.fds), dir, fs.fds, o) && HeadKept(old(fs.flash), dir0, fs.flash, dir, o)
    ensures Low(old(fs.flash), t, work0, IxEntry(fs.g, span) + 1) ==> Low(fs.flash, t, work, IxEntry(fs.g, span)) && (IxEntry(fs.g, span) == 0 ==> FirstStored(fs.flash, t))
    ensures fs.freeBlocks == old(fs.freeBlocks)
    ensures Spent(old(fs.Stock(OwnSlots(base, o))), fs.Stock(OwnSlots(base, o)), 0, 0) && Ahead(base, dir, o, 0, 1)
  {
    hide FreeSuffix;
    hide CursorOk;
    hide All;
    hide FreeBlocks;
    hide ErasedFree;
    hide DeadMarked;
    hide Linked;
    hide FdsOk;
    hide FdsTrack;
    hide Geometry.Total;
    hide Geometry.BlockStart;
    hide IxSpan;
    hide IxEntry;
    hide Quot;
    hide Rem;
    hide Meaning;
    hide EventFd;
    hide Trimming;
    hide ProgramPage;
    hide HeadKept;
    hide Low;
    hide FirstStored;
    hide Apart;
    hide Ahead;
    hide OwnSlots;
    hide Spiffs.Stock;
    dir := dir0;
    AheadAt(base, dir, o, 0, 1, Key(o, span));
    TrimHeld(fs.g, fs.flash, fs.fds, fdi, dir, m0, o, mark, span + 1, k, t, work0);
    TrimStart(fs.g, fs.flash, fs.fds, fdi, dir, m0, o, mark, span + 1, k, t, work0);
    var pix := RefsOf(work0.body)[IxEntry(fs.g, span)];
    work := work0.(body := PutRef(work0.body, IxEntry(fs.g, span), NONE));
    res := DataCheck(fs.g, fs.flash, pix, o, span);
    if res == OK || res == ERR_DELETED || res == ERR_INDEX_REF_FREE {
      TrimData(fs.g, fs.flash, fs.fds, fs.fds[fdi := fs.fds[fdi].(size := size)], fdi, dir, m0, o, mark, span + 1, k, t, work0, pix, size);
      LowData(fs.flash, t, work0, IxEntry(fs.g, span), pix);
      HeadDropped(fs.flash, pix, dir, Without(dir, Key(o, span)), o);
      ApartOwn(dir, Without(dir, Key(o, span)), fs.fds, fdi, fs.fds[fdi].(size := size), o, Key(o, span), 0);
      if res == OK {
        fs.PageDelete(pix);
      }
      res := OK;
      fs.fds := fs.fds[fdi := fs.fds[fdi].(size := size)];
      dir := Without(dir, Key(o, span));
    }
  }

  lemma MovedHeader(mid: Flash, hdr: int, dst: nat, o: int, page: Page, dir: Dir, size: int)
    requires 0 <= hdr < |mid.lu| == |mid.pages| && dst < |mid.lu| && hdr != dst && HeaderSize(page) == size
    ensures HeaderHas(Moved(mid, hdr, dst, IndexId(o), page.(flags := AsUsed(page.flags))), dir[Key(IndexId(o), 0) := dst], o, size)
  {
  }

  /** The header got a new length while the file shrinks. */
  lemma TrimLength(g: Geometry, v: Flash, mid: Flash, fds: seq<Fd>, fds': seq<Fd>, fdi: nat, dir: Dir, m0: Image, o: int, count: nat, top: nat, dst: nat, size: int)
    requires g.Valid() && Trimmed(g, v, fds, fdi, dir, m0, o, false, count, top) && QuickStep(v, mid) && size != 0
    requires dst < |mid.lu| && mid.lu[dst] == FREE
    requires |fds'| == |fds| && forall i :: 0 <= i < |fds| ==>
      fds'[i] == var e := EventFd(fds[i], IxHeaderUpdated, IndexId(o), 0, dst, size); if i == fdi then e.(hdr := dst) else e
    ensures fdi < |fds| && 0 <= fds[fdi].hdr < |v.pages| && fds[fdi].hdr < |mid.lu| == |mid.pages|
    ensures
      var page := EditHeader(v.pages[fds[fdi].hdr], None, size);
      && HeaderSize(page) == size && page.span == 0
      && Trimmed(g, Moved(mid, fds[fdi].hdr, dst, IndexId(o), page.(flags := AsUsed(page.flags))), fds', fdi, dir[Key(IndexId(o), 0) := dst], m0, o, false, count, top)
      && HeaderHas(Moved(mid, fds[fdi].hdr, dst, IndexId(o), page.(flags := AsUsed(page.flags))), dir[Key(IndexId(o), 0) := dst], o, size)
  {
    hide Linked;
    hide FdsTrack;
    hide EventFd;
    hide QuickStep;
    hide Moved;
    hide HeaderHas;
    var m, x, hdr := Meaning(v, dir), Key(IndexId(o), 0), fds[fdi].hdr;
    HeldLoad(g, v, dir, o, 0);
    HeldHeader(g, v, mid, dir, o, hdr, v.pages[hdr], dst, None, size);
    var m' := m[x := Header(size, m[x].name, [])];
    assert Shrunk(g, m0, m', o, count, top) by {
      assert DataPages(g, m', o, count);
    }
    MovedHeader(mid, hdr, dst, o, EditHeader(v.pages[hdr], None, size), dir, size);
    TrackHeader(m, m', dir, fds, fds', fdi, IxHeaderUpdated, o, dst, size);
  }

  /** The shorter length goes into the header. */
  method ShortenHeader(fs: Spiffs, fdi: nat, size: nat, ghost dir0: Dir, ghost m0: Image, o: int, ghost count: nat, ghost top: nat, ghost base: Dir)
    returns (res: Status, ghost dir: Dir)
    requires fs.Valid() && Trimmed(fs.g, fs.flash, fs.fds, fdi, dir0, m0, o, false, count, top) && 1 <= o <= MAX_ID && size > 0 && Ahead(base, dir0, o, 0, 1)
    modifies fs`flash, fs`log, fs`freeBlocks, fs`maxEraseCount, fs`pagesDeleted, fs`pagesAllocated
    modifies fs`freeCursorBlock, fs`freeCursorEntry, fs`fds
    ensures Lower(res)
    ensures fs.Valid() && fs.Drift() == old(fs.Drift())
    ensures old(fs.Spare()) >= 1 ==> res == OK && fs.Spare() >= old(fs.Spare()) - 1
    ensures res != OK ==> fs.fds == old(fs.fds)
    ensures !fs.cleaning ==> if res == OK then Spent(old(fs.Stock(OwnSlots(base, o))), fs.Stock(OwnSlots(base, o)), 1, 1) else Ends(old(fs.Stock(OwnSlots(base, o))), 0, 0)
    ensures Ahead(base, dir, o, 0, 1)
    ensures res == OK ==> SameOpen(old(fs.fds), fs.fds) && fdi < |fs.fds| && Trimmed(fs.g, fs.flash, fs.fds, fdi, dir, m0, o, false, count, top)
    ensures res == OK ==> Apart(dir0, old(fs.fds), dir, fs.fds, o) && HeaderHas(fs.flash, dir, o, size)
    ensures !fs.cleaning && old(fs.freeBlocks) >= 1 ==> fs.freeBlocks >= 1 && (res != OK ==> unchanged(fs) && dir == dir0 && !fs.CanTake())
  {
    hide FreeSuffix;
    hide CursorOk;
    hide All;
    hide FreeBlocks;
    hide ErasedFree;
    hide DeadMarked;
    hide Geometry.Total;
    hide Geometry.BlockStart;
    hide EventFd;
    hide ProgramPage;
    hide Trimmed;
    hide FdsOk;
    hide Meaning;
    hide QuickStep;
    hide SameOpen;
    hide Spiffs.Spare;
    hide Moved;
    hide MoveOps;
    hide Apart;
    hide HeaderHas;
    hide Spiffs.Stock;
    hide Ahead;
    hide OwnSlots;
    hide AllWords;
    hide Spent;
    hide Ends;
    hide Spiffs.CanTake;
    dir := dir0;
    ghost var v, fds0 := fs.flash, fs.fds;
    TrimLoad(fs.g, v, fds0, fdi, dir, m0, o, false, count, top);
    HeaderKnown(fs.g, v, fds0, fdi, dir, m0, o, false, count, top);
    var dst;
    ghost var mid, x, stock, hdr := v, OwnSlots(base, o), fs.Stock(OwnSlots(base, o)), fs.fds[fdi].hdr;
    res, dst, mid := fs.UpdateIndexHdr(Some(fdi), fs.fds[fdi].objId, fs.fds[fdi].hdr, None, None, size);
    if res == OK {
      if !fs.cleaning {
        SpentAtMost(stock, fs.Stock(x), 1, if hdr in x then 0 else 1, 1);
      }
      TrimLength(fs.g, v, mid, fds0, fs.fds, fdi, dir, m0, o, count, top, dst, size);
      HeaderOpen(fds0, fs.fds, fdi, IxHeaderUpdated, IndexId(o), dst, size);
      ApartEvent(dir, dir[Key(IndexId(o), 0) := dst], fds0, fs.fds, fdi, IxHeaderUpdated, o, 0, dst, size);
      AheadHeader(base, dir, o, dst);
      dir := dir[Key(IndexId(o), 0) := dst];
    }
  }

  lemma OpenRefl(a: seq<Fd>)
    ensures SameOpen(a, a)
  {
  }

  lemma OpenJoin(a: seq<Fd>, b: seq<Fd>, c: seq<Fd>)
    ensures SameOpen(a, b) && SameOpen(b, c) ==> SameOpen(a, c)
  {
  }

  /** Deletes index page `k`, which nothing is under any more, and tells the descriptors. */
  method DeleteEmpty(fs: Spiffs, fdi: nat, k: nat, t: nat, work: Page, ghost removeFull: bool, ghost dir0: Dir, ghost m0: Image, o: int, ghost count: nat, ghost base: Dir)
    returns (ghost dir: Dir)
    requires fs.Valid() && Trimming(fs.g, fs.flash, fs.fds, fdi, dir0, m0, o, removeFull, count, k, t, work) && 1 <= o <= MAX_ID
    requires Ahead(base, dir0, o, 0, 1) && k > 0 && (count > 0 ==> IxSpan(fs.g, count - 1) < k)
    modifies fs`flash, fs`log, fs`pagesDeleted, fs`pagesAllocated, fs`fds
    ensures fs.Valid() && fs.Drift() == old(fs.Drift()) && fs.Spare() == old(fs.Spare())
    ensures removeFull ==> fdi < |fs.fds| && fs.fds[fdi].hdr == old(fs.fds)[fdi].hdr && OnlyDrops(old(fs.flash), fs.flash, o, old(fs.fds)[fdi].hdr)
    ensures SameOpen(old(fs.fds), fs.fds) && Ahead(base, dir, o, 0, 1) && Spent(old(fs.Stock(OwnSlots(base, o))), fs.Stock(OwnSlots(base, o)), 0, 0)
    ensures HeadKept(old(fs.flash), dir0, fs.flash, dir, o) && Apart(dir0, old(fs.fds), dir, fs.fds, o)
    ensures Trimmed(fs.g, fs.flash, fs.fds, fdi, dir, m0, o, removeFull, count, k - 1)
  {
    hide FreeSuffix;
    hide CursorOk;
    hide All;
    hide FreeBlocks;
    hide ErasedFree;
    hide DeadMarked;
    hide Linked;
    hide FdsOk;
    hide FdsTrack;
    hide Geometry.Total;
    hide Geometry.BlockStart;
    hide IxSpan;
    hide IxEntry;
    hide Quot;
    hide Rem;
    hide Meaning;
    hide EventFd;
    hide ProgramPage;
    hide Shrunk;
    hide Moved;
    hide MoveOps;
    hide Seen;
    hide GoodPage;
    hide Apart;
    hide HeadKept;
    hide HeaderHas;
    hide Spiffs.CanTake;
    hide Trimmed;
    hide Trimming;
    hide Ahead;
    hide OwnSlots;
    hide Spiffs.Stock;
    hide Spent;
    hide Ends;
    hide AllWords;
    hide DeadMarked;
    dir := dir0;
    AheadAt(base, dir, o, 0, 1, Key(IndexId(o), k));
    ghost var v, fds0 := fs.flash, fs.fds;
    TrimHeld(fs.g, v, fds0, fdi, dir, m0, o, removeFull, count, k, t, work);
    var objId := fs.fds[fdi].objId;
    fs.PageDelete(t);
    ghost var stock := fs.Stock(OwnSlots(base, o));
    fs.ObjectEvent(IxDeleted, objId, work.span, t, 0);
    TrimIndex(fs.g, v, fds0, fs.fds, fdi, dir, m0, o, removeFull, count, k, t, work);
    HeadDropped(v, t, dir, Without(dir, Key(IndexId(o), k)), o);
    ApartEvent(dir, Without(dir, Key(IndexId(o), k)), fds0, fs.fds, fdi, IxDeleted, o, k, t, 0);
    dir := Without(dir, Key(IndexId(o), k));
    TrimmedOwner(fs.g, fs.flash, fs.fds, fdi, dir, m0, o, removeFull, count, k - 1);
  }

  /** Deletes index page `k`, which nothing is under any more. A file that stays gets its shorter
      length into the header. */
  method DeleteIndex(fs: Spiffs, fdi: nat, k: nat, t: nat, work: Page, size: nat, removeFull: bool, ghost dir0: Dir, ghost m0: Image, o: int, ghost count: nat, ghost base: Dir)
    returns (res: Status, ghost dir: Dir)
    requires fs.Valid() && Trimming(fs.g, fs.flash, fs.fds, fdi, dir0, m0, o, removeFull, count, k, t, work) && 1 <= o <= MAX_ID
    requires Ahead(base, dir0, o, 0, 1)
    requires k > 0 && size > 0 && (count > 0 ==> IxSpan(fs.g, count - 1) < k)
    modifies fs`flash, fs`log, fs`freeBlocks, fs`maxEraseCount, fs`pagesDeleted, fs`pagesAllocated
    modifies fs`freeCursorBlock, fs`freeCursorEntry, fs`fds
    ensures Lower(res)
    ensures fs.Valid() && fs.Drift() == old(fs.Drift())
    ensures old(fs.Spare()) >= 1 ==> res == OK && fs.Spare() >= old(fs.Spare()) - 1
    ensures removeFull ==>
      && res == OK && unchanged(fs`freeBlocks, fs`maxEraseCount, fs`freeCursorBlock, fs`freeCursorEntry)
      && fdi < |fs.fds| && fs.fds[fdi].hdr == old(fs.fds)[fdi].hdr
      && OnlyDrops(old(fs.flash), fs.flash, o, old(fs.fds)[fdi].hdr)
    ensures SameOpen(old(fs.fds), fs.fds)
    ensures res == OK ==> Ahead(base, dir, o, 0, 1)
    ensures !removeFull && !fs.cleaning ==> if res == OK then Spent(old(fs.Stock(OwnSlots(base, o))), fs.Stock(OwnSlots(base, o)), 1, 1) else Ends(old(fs.Stock(OwnSlots(base, o))), 0, 0)
    ensures res == OK ==> Apart(dir0, old(fs.fds), dir, fs.fds, o) && (!removeFull ==> HeaderHas(fs.flash, dir, o, size))
    ensures !removeFull && !fs.cleaning && old(fs.freeBlocks) >= 1 ==> fs.freeBlocks >= 1
    ensures !removeFull && !fs.cleaning && old(fs.freeBlocks) >= 1 && res != OK ==>
      && !fs.CanTake() && Trimmed(fs.g, fs.flash, fs.fds, fdi, dir, m0, o, false, count, k - 1)
      && HeadKept(old(fs.flash), dir0, fs.flash, dir, o) && Apart(dir0, old(fs.fds), dir, fs.fds, o)
    ensures res == OK ==> fdi < |fs.fds| && Trimmed(fs.g, fs.flash, fs.fds, fdi, dir, m0, o, removeFull, count, k - 1)
  {
    hide FreeSuffix;
    hide CursorOk;
    hide All;
    hide FreeBlocks;
    hide ErasedFree;
    hide DeadMarked;
    hide Linked;
    hide FdsOk;
    hide FdsTrack;
    hide Geometry.Total;
    hide Geometry.BlockStart;
    hide IxSpan;
    hide IxEntry;
    hide Quot;
    hide Rem;
    hide Meaning;
    hide EventFd;
    hide ProgramPage;
    hide Shrunk;
    hide Moved;
    hide MoveOps;
    hide Seen;
    hide GoodPage;
    hide Apart;
    hide HeadKept;
    hide HeaderHas;
    hide Spiffs.CanTake;
    hide Trimmed;
    hide Trimming;
    hide Ahead;
    hide OwnSlots;
    hide Spiffs.Stock;
    hide Spent;
    hide Ends;
    hide AllWords;
    hide DeadMarked;
    dir := dir0;
    ghost var fds0, stock0 := fs.fds, fs.Stock(OwnSlots(base, o));
    TrimHeld(fs.g, fs.flash, fds0, fdi, dir, m0, o, removeFull, count, k, t, work);
    res := IndexCheck(fs.g, fs.flash, t, fs.fds[fdi].objId, k);
    if res == OK {
      dir := DeleteEmpty(fs, fdi, k, t, work, removeFull, dir, m0, o, count, base);
      ghost var dir1, fds1, stock := dir, fs.fds, fs.Stock(OwnSlots(base, o));
      if !removeFull {
        res, dir := ShortenHeader(fs, fdi, size, dir, m0, o, count, k - 1, base);
        SpentJoin(stock0, stock, fs.Stock(OwnSlots(base, o)), 0, 0, 1, 1);
        SpentJoin(stock0, stock, stock, 0, 0, 0, 0);
        if res == OK {
          OpenJoin(fds0, fds1, fs.fds);
          ApartOn(dir0, fds0, dir1, fds1, dir, fs.fds, o);
        }
      }
      if res == OK {
        SizeKept(fs.g, fs.flash, fs.fds, fdi, dir, m0, o, removeFull, count, k - 1, size);
        ghost var fds2 := fs.fds;
        TrimmedOwner(fs.g, fs.flash, fs.fds, fdi, dir, m0, o, removeFull, count, k - 1);
        ApartOwn(dir, dir, fs.fds, fdi, fs.fds[fdi].(size := size), o, Key(o, 0), 0);
        fs.fds := fs.fds[fdi := fs.fds[fdi].(size := size)];
        ApartOn(dir0, fds0, dir, fds2, dir, fs.fds, o);
      }
    }
  }

  lemma TrimmedOwner(g: Geometry, fl: Flash, fds: seq<Fd>, fdi: nat, dir: Dir, m0: Image, o: int, mark: bool, count: nat, top: nat)
    requires Trimmed(g, fl, fds, fdi, dir, m0, o, mark, count, top)
    ensures fdi < |fds| && ObjectId(fds[fdi].objId) == o && Key(IndexId(o), 0) in dir && dir[Key(IndexId(o), 0)] == fds[fdi].hdr
  {
    hide Linked;
    hide FdsTrack;
    hide Shrunk;
  }

  lemma TrimHeld(g: Geometry, fl: Flash, fds: seq<Fd>, fdi: nat, dir: Dir, m0: Image, o: int, mark: bool, count: nat, k: nat, t: nat, work: Page)
    requires Trimming(g, fl, fds, fdi, dir, m0, o, mark, count, k, t, work)
    ensures fdi < |fds| && fds[fdi].objId == IndexId(o) && t < |fl.lu| == |fl.pages| && fl.lu[t] == IndexId(o) && work.span == k
    ensures Key(IndexId(o), 0) in dir && dir[Key(IndexId(o), 0)] == fds[fdi].hdr
    ensures IndexCheck(g, fl, t, IndexId(o), k) == OK && (k == 0 ==> t == fds[fdi].hdr) && Key(IndexId(o), k) in dir && dir[Key(IndexId(o), k)] == t
  {
    hide Linked;
    hide FdsTrack;
    hide Shrunk;
    var b := Base(fl, fds[fdi].hdr, mark);
    DropOverBaseSize(fl, fds[fdi].hdr, mark);
    HeldPage(g, b, dir, o, k, t, work.(flags := INDEX_FLAGS));
    assert b.pages[t].flags == fl.pages[t].flags || b.pages[t].flags == fl.pages[t].flags.(ixdele := true);
  }

  lemma HeaderKnown(g: Geometry, fl: Flash, fds: seq<Fd>, fdi: nat, dir: Dir, m0: Image, o: int, mark: bool, count: nat, top: nat)
    requires g.Valid() && Trimmed(g, fl, fds, fdi, dir, m0, o, mark, count, top)
    ensures fdi < |fds| && 0 <= fds[fdi].hdr < |fl.pages| == |fl.lu| && fl.lu[fds[fdi].hdr] == IndexId(o) && fds[fdi].objId == IndexId(o)
    ensures fl.pages[fds[fdi].hdr].span == 0 && fl.pages[fds[fdi].hdr].body.Header?
  {
    hide Linked;
    hide FdsTrack;
    var b := Base(fl, fds[fdi].hdr, mark);
    HeldLoad(g, b, dir, o, 0);
    HeldPage(g, b, dir, o, 0, fds[fdi].hdr, b.pages[fds[fdi].hdr]);
  }

  lemma SizeKept(g: Geometry, fl: Flash, fds: seq<Fd>, fdi: nat, dir: Dir, m0: Image, o: int, mark: bool, count: nat, top: nat, size: int)
    requires Trimmed(g, fl, fds, fdi, dir, m0, o, mark, count, top)
    ensures fdi < |fds| && Trimmed(g, fl, fds[fdi := fds[fdi].(size := size)], fdi, dir, m0, o, mark, count, top)
  {
    hide Linked;
    hide FdsTrack;
    hide Shrunk;
    OwnerSet(Meaning(Base(fl, fds[fdi].hdr, mark), dir), dir, fds, fdi, o, 0, fds[fdi].hdr, size);
  }

  /** Loads the last index page. */
  method LoadLast(fs: Spiffs, fdi: nat, k: nat, ghost dir: Dir, ghost m0: Image, o: int, ghost mark: bool, ghost count: nat)
    returns (res: Status, t: nat, work: Page)
    requires fs.Valid() && Trimmed(fs.g, fs.flash, fs.fds, fdi, dir, m0, o, mark, count, k) && 1 <= o <= MAX_ID
    modifies fs`fds, fs`cursorBlock, fs`cursorEntry
    ensures Lower(res)
    ensures fs.Valid() && fs.Drift() == old(fs.Drift())
    ensures fs.Spare() == old(fs.Spare()) && forall x :: fs.Stock(x) == old(fs.Stock(x))
    ensures res == OK && fdi < |fs.fds| && SameOpen(old(fs.fds), fs.fds) && fs.fds[fdi].hdr == old(fs.fds)[fdi].hdr
    ensures Trimming(fs.g, fs.flash, fs.fds, fdi, dir, m0, o, mark, count, k, t, work)
    ensures t < |fs.flash.pages| && work == fs.flash.pages[t] && Apart(dir, old(fs.fds), dir, fs.fds, o)
    ensures fs.CanTake() <==> old(fs.CanTake())
  {
    hide FreeSuffix;
    hide CursorOk;
    hide All;
    hide FreeBlocks;
    hide ErasedFree;
    hide DeadMarked;
    hide Linked;
    hide FdsOk;
    hide FdsTrack;
    hide Geometry.Total;
    hide Geometry.BlockStart;
    hide IxSpan;
    hide IxEntry;
    hide Quot;
    hide Rem;
    hide Meaning;
    hide EventFd;
    hide Shrunk;
    hide Seen;
    hide Matches;
    hide Apart;
    var objId := fs.fds[fdi].objId;
    TrimLoad(fs.g, fs.flash, fs.fds, fdi, dir, m0, o, mark, count, k);
    if k == 0 {
      res, t := OK, fs.fds[fdi].hdr;
    } else {
      res, t := fs.FindIdAndSpan(objId, k);
    }
    if res == OK {
      work := fs.flash.pages[t];
      res := ValidateObjIx(work, objId, k);
      if res == OK {
        CursorKept(fs.g, fs.flash, fs.fds, fdi, dir, m0, o, mark, count, k, t, work);
        ApartOwn(dir, dir, fs.fds, fdi, fs.fds[fdi].(cursorPix := t, cursorSpan := k), o, Key(o, 0), 0);
        fs.fds := fs.fds[fdi := fs.fds[fdi].(cursorPix := t, cursorSpan := k)];
      }
    }
  }

  lemma CursorKept(g: Geometry, fl: Flash, fds: seq<Fd>, fdi: nat, dir: Dir, m0: Image, o: int, mark: bool, count: nat, k: nat, t: nat, work: Page)
    requires Trimming(g, fl, fds, fdi, dir, m0, o, mark, count, k, t, work)
    ensures fdi < |fds| && Trimming(g, fl, fds[fdi := fds[fdi].(cursorPix := t, cursorSpan := k)], fdi, dir, m0, o, mark, count, k, t, work)
  {
    hide Linked;
    hide FdsTrack;
    hide Shrunk;
    var b, page := Base(fl, fds[fdi].hdr, mark), work.(flags := INDEX_FLAGS);
    HeldPage(g, b, dir, o, k, t, page);
    OwnerSet(Seen(b, dir, t, page), dir, fds, fdi, o, k, t, 0);
  }

  /** Deletes the header page, the last one of the object; its descriptors are closed. */
  method FinishRemoval(fs: Spiffs, fdi: nat, t: nat, ghost work: Page, ghost dir0: Dir, ghost m0: Image, o: int)
    returns (res: Status, ghost dir: Dir)
    requires fs.Valid() && Trimming(fs.g, fs.flash, fs.fds, fdi, dir0, m0, o, true, 0, 0, t, work) && 1 <= o <= MAX_ID
    modifies fs`flash, fs`log, fs`pagesDeleted, fs`pagesAllocated, fs`fds
    ensures Lower(res)
    ensures fs.Valid() && fs.Drift() == old(fs.Drift())
    ensures res == OK && Consistent(fs.g, fs.flash, dir, fs.fds) && SameOthers(m0, Meaning(fs.flash, dir), o)
    ensures forall k :: k in dir ==> k.id != o && k.id != IndexId(o)
    ensures |fs.fds| == |old(fs.fds)| && forall i :: 0 <= i < |fs.fds| && ObjectId(old(fs.fds)[i].objId) == o ==> fs.fds[i].fileNbr == 0
    ensures OnlyDrops(old(fs.flash), fs.flash, o, t) && Apart(dir0, old(fs.fds), dir, fs.fds, o)
  {
    hide FreeSuffix;
    hide CursorOk;
    hide All;
    hide FreeBlocks;
    hide ErasedFree;
    hide DeadMarked;
    hide Linked;
    hide FdsOk;
    hide FdsTrack;
    hide Geometry.Total;
    hide Geometry.BlockStart;
    hide IxSpan;
    hide IxEntry;
    hide Quot;
    hide Rem;
    hide Meaning;
    hide EventFd;
    hide Shrunk;
    hide Seen;
    hide GoodPage;
    hide ProgramPage;
    hide Apart;
    ghost var v, fds0 := fs.flash, fs.fds;
    TrimHeld(fs.g, v, fds0, fdi, dir0, m0, o, true, 0, 0, t, work);
    var objId := fs.fds[fdi].objId;
    dir := Without(dir0, Key(IndexId(o), 0));
    res := IndexCheck(fs.g, fs.flash, t, objId, 0);
    if res == OK {
      fs.PageDelete(t);
      fs.ObjectEvent(IxDeleted, objId, 0, t, 0);
      TrimGone(fs.g, v, fds0, fs.fds, fdi, dir0, m0, o, true, t, work);
      ApartEvent(dir0, dir, fds0, fs.fds, fdi, IxDeleted, o, 0, t, 0);
    }
  }

  lemma EmptyRefs(g: Geometry, fl: Flash, dir: Dir, o: int, t: nat, work: Page, m: Image)
    requires Held(g, fl, dir, o, 0, t, work) && m == Seen(fl, dir, t, work) && DataPages(g, m, o, 0) && IndexPages(m, o, 0)
    ensures work.body.Header? && work.body.refs == Ones(g.hdrLen)
  {
    hide Linked;
    ObjectKeys(g, fl, dir, o, t, work, m);
    HeldPage(g, fl, dir, o, 0, t, work);
    forall j | 0 <= j < |work.body.refs|
      ensures work.body.refs[j] == NONE
    {
      IxRoundTrip(g, 0, j);
      HeldRef(g, fl, dir, o, 0, t, work, j);
    }
  }

  /** The file is left without data: its header has no reference and no length. */
  lemma TrimEmpty(g: Geometry, v: Flash, mid: Flash, fds: seq<Fd>, fds': seq<Fd>, fdi: nat, dir: Dir, m0: Image, o: int, t: nat, work: Page, dst: nat)
    requires g.Valid() && Trimming(g, v, fds, fdi, dir, m0, o, false, 0, 0, t, work) && QuickStep(v, mid)
    requires dst < |mid.lu| && mid.lu[dst] == FREE
    requires |fds'| == |fds| && forall i :: 0 <= i < |fds| ==>
      fds'[i] == var e := EventFd(fds[i], PageStored(g, 0, work.body), IndexId(o), 0, dst, NONE); if i == fdi then e.(hdr := dst) else e
    ensures t < |mid.lu| == |mid.pages|
    ensures work.body.Header? && work.body.refs == Ones(g.hdrLen)
    ensures
      var page := EditHeader(work, None, NONE);
      var w, d := Moved(mid, t, dst, IndexId(o), page.(flags := AsUsed(page.flags))), dir[Key(IndexId(o), 0) := dst];
      && HeaderSize(page) == NONE && page.span == 0
      && Consistent(g, w, d, fds') && Owner(d, fds', fdi, o)
      && SameOthers(m0, Meaning(w, d), o) && IsFile(g, Meaning(w, d), o, 0)
      && Key(IndexId(o), 0) in m0 && m0[Key(IndexId(o), 0)].Header? && Named(Meaning(w, d), o, m0[Key(IndexId(o), 0)].name)
  {
    hide Linked;
    hide FdsTrack;
    hide FdsOk;
    hide EventFd;
    hide QuickStep;
    hide Moved;
    var m, x := Seen(v, dir, t, work), Key(IndexId(o), 0);
    TrimPage(g, v, fds, fdi, dir, m0, o, 0, 0, t, work);
    ShrunkParts(g, m0, m, o, 0, 0);
    EmptyRefs(g, v, dir, o, t, work, m);
    HeldHeader(g, v, mid, dir, o, t, work, dst, None, NONE);
    var m' := m[x := Header(NONE, m[x].name, [])];
    EmptyFile(g, m0, m, o);
    TrackHeader(m, m', dir, fds, fds', fdi, PageStored(g, 0, work.body), o, dst, NONE);
  }

  lemma TrimPage(g: Geometry, v: Flash, fds: seq<Fd>, fdi: nat, dir: Dir, m0: Image, o: int, count: nat, k: nat, t: nat, work: Page)
    requires Trimming(g, v, fds, fdi, dir, m0, o, false, count, k, t, work)
    ensures work.(flags := INDEX_FLAGS) == work
  {
    hide Linked;
    hide FdsTrack;
    hide Shrunk;
    HeldPage(g, v, dir, o, k, t, work.(flags := INDEX_FLAGS));
  }

  lemma EmptyFile(g: Geometry, m0: Image, m: Image, o: int)
    requires g.Valid() && Shrunk(g, m0, m, o, 0, 0) && 1 <= o <= MAX_ID
    ensures var x := Key(IndexId(o), 0);
      var m' := m[x := Header(NONE, m[x].name, [])];
      IsFile(g, m', o, 0) && SameOthers(m0, m', o) && Named(m', o, m0[x].name)
  {
    var x := Key(IndexId(o), 0);
    var m' := m[x := Header(NONE, m[x].name, [])];
    assert DataPages(g, m', o, 0);
    assert IndexPages(m', o, 0);
  }

  /** Stores the header of a file that has no data any more. */
  method FinishTruncation(fs: Spiffs, fdi: nat, t: nat, work0: Page, ghost dir0: Dir, ghost m0: Image, o: int)
    returns (res: Status, ghost dir: Dir)
    requires fs.Valid() && Trimming(fs.g, fs.flash, fs.fds, fdi, dir0, m0, o, false, 0, 0, t, work0) && 1 <= o <= MAX_ID
    modifies fs`flash, fs`log, fs`freeBlocks, fs`maxEraseCount, fs`pagesDeleted, fs`pagesAllocated
    modifies fs`freeCursorBlock, fs`freeCursorEntry, fs`fds
    ensures Lower(res)
    ensures fs.Valid() && fs.Drift() == old(fs.Drift())
    ensures old(fs.Spare()) >= 1 ==> res == OK && fs.Spare() >= old(fs.Spare()) - 1
    ensures !fs.cleaning && old(fs.freeBlocks) >= 1 ==> fs.freeBlocks >= 1 && (res != OK ==> unchanged(fs) && dir == dir0 && !fs.CanTake())
    ensures res == OK ==> Apart(dir0, old(fs.fds), dir, fs.fds, o)
    ensures !fs.cleaning ==> forall x :: if res == OK then Spent(old(fs.Stock(x)), fs.Stock(x), 1, 1) else Ends(old(fs.Stock(x)), 0, 0)
    ensures res == OK ==>
      && SameOpen(old(fs.fds), fs.fds) && Consistent(fs.g, fs.flash, dir, fs.fds) && Owner(dir, fs.fds, fdi, o)
      && SameOthers(m0, Meaning(fs.flash, dir), o) && IsFile(fs.g, Meaning(fs.flash, dir), o, 0)
      && Key(IndexId(o), 0) in m0 && m0[Key(IndexId(o), 0)].Header? && Named(Meaning(fs.flash, dir), o, m0[Key(IndexId(o), 0)].name)
  {
    hide FreeSuffix;
    hide CursorOk;
    hide All;
    hide FreeBlocks;
    hide ErasedFree;
    hide DeadMarked;
    hide Linked;
    hide FdsOk;
    hide FdsTrack;
    hide Geometry.Total;
    hide Geometry.BlockStart;
    hide IxSpan;
    hide IxEntry;
    hide Quot;
    hide Rem;
    hide Meaning;
    hide EventFd;
    hide Shrunk;
    hide Seen;
    hide Moved;
    hide MoveOps;
    hide QuickStep;
    hide GoodPage;
    hide Apart;
    hide Spiffs.Stock;
    dir := dir0;
    ghost var v, fds0 := fs.flash, fs.fds;
    TrimHeld(fs.g, v, fds0, fdi, dir, m0, o, false, 0, 0, t, work0);
    HeaderRefs(fs.g, v, fds0, fdi, dir, m0, o, t, work0);
    var work := work0.(body := work0.body.(refs := Ones(fs.g.hdrLen)));
    var dst;
    ghost var mid;
    res, dst, mid := fs.UpdateIndexHdr(Some(fdi), fs.fds[fdi].objId, t, Some(work), None, NONE);
    if res == OK {
      TrimEmpty(fs.g, v, mid, fds0, fs.fds, fdi, dir, m0, o, t, work0, dst);
      HeaderOpen(fds0, fs.fds, fdi, PageStored(fs.g, 0, work.body), IndexId(o), dst, NONE);
      ApartEvent(dir, dir[Key(IndexId(o), 0) := dst], fds0, fs.fds, fdi, PageStored(fs.g, 0, work.body), o, 0, dst, NONE);
      dir := dir[Key(IndexId(o), 0) := dst];
    }
  }

  lemma HeaderRefs(g: Geometry, v: Flash, fds: seq<Fd>, fdi: nat, dir: Dir, m0: Image, o: int, t: nat, work: Page)
    requires Trimming(g, v, fds, fdi, dir, m0, o, false, 0, 0, t, work)
    ensures work.body.Header? && work.body.refs == Ones(g.hdrLen)
  {
    hide Linked;
    hide FdsTrack;
    TrimPage(g, v, fds, fdi, dir, m0, o, 0, 0, t, work);
    ShrunkParts(g, m0, Seen(v, dir, t, work), o, 0, 0);
    EmptyRefs(g, v, dir, o, t, work, Seen(v, dir, t, work));
  }

  /** No length and length zero are the same to a descriptor. */
  lemma LengthZero(m: Image, dir: Dir, fds: seq<Fd>, fdi: nat, o: int)
    requires FdsOk(m, dir, fds) && Owner(dir, fds, fdi, o) && Key(IndexId(o), 0) in m && m[Key(IndexId(o), 0)].Header? && m[Key(IndexId(o), 0)].size == NONE
    ensures FdsOk(m, dir, fds[fdi := fds[fdi].(size := 0)])
    ensures SameOpen(fds, fds[fdi := fds[fdi].(size := 0)])
  {
    var fds' := fds[fdi := fds[fdi].(size := 0)];
    forall i | 0 <= i < |fds|
      ensures FdOk(m, dir, fds'[i])
    {
      assert FdOk(m, dir, fds[i]);
    }
  }

  const REMOVE_FLAGS := Flags(false, false, false, true, false)

  /** Marking the header: taken without the mark the medium is as it was. */
  lemma MarkHeader(g: Geometry, fl: Flash, fds: seq<Fd>, fdi: nat, dir: Dir, o: int, len: nat, mark: bool)
    requires g.Valid() && Linked(g, fl, dir) && FdsTrack(Meaning(fl, dir), dir, fds, o) && Owner(dir, fds, fdi, o)
    requires IsFile(g, Meaning(fl, dir), o, len)
    ensures fdi < |fds| && 0 <= fds[fdi].hdr < |fl.lu| == |fl.pages| && fl.lu[fds[fdi].hdr] == IndexId(o) && Live(IndexId(o))
    ensures
      var hdr := fds[fdi].hdr;
      var w := if mark then Apply(g, fl, PageWrite(hdr, Page(-1, -1, REMOVE_FLAGS, Blank))) else fl;
      && OnlyDrops(fl, w, o, hdr)
      && Trimmed(g, w, fds, fdi, dir, Meaning(fl, dir), o, mark, PageCount(g, len), TopIx(g, len))
  {
    hide Linked;
    hide FdsTrack;
    hide PageCount;
    hide TopIx;
    var hdr := fds[fdi].hdr;
    HeldLoad(g, fl, dir, o, 0);
    HeldPage(g, fl, dir, o, 0, hdr, fl.pages[hdr]);
    ProgramFlags(fl.pages[hdr], REMOVE_FLAGS);
    var w := Apply(g, fl, PageWrite(hdr, Page(-1, -1, REMOVE_FLAGS, Blank)));
    assert Unmarked(w, hdr) == fl;
  }

  /** The length without its last page, or the part of it there is. */
  lemma LastPageOff(g: Geometry, n: nat)
    requires g.Valid() && n > 0
    ensures var n' := if Rem(n, g.dps) == 0 then n - g.dps else n - Rem(n, g.dps);
      n' >= 0 && PageCount(g, n') == PageCount(g, n) - 1
  {
    hide Quot;
    hide Rem;
    hide PageCount;
    var q, r := Quot(n, g.dps), Rem(n, g.dps);
    QuotRem(n, g.dps);
    PagesOf(g, n);
    if r == 0 {
      assert n == q * g.dps && q > 0;
      assert n - g.dps == (q - 1) * g.dps;
      PageOfMultiple(g, q - 1);
    } else {
      PageOfMultiple(g, q);
    }
  }

  lemma PagesOf(g: Geometry, n: nat)
    requires g.Valid()
    ensures PageCount(g, n) == Quot(n, g.dps) + (if Rem(n, g.dps) == 0 then 0 else 1)
  {
    hide Quot;
    hide Rem;
    hide PageCount;
    PagePosition(g, n, g.dps - Rem(n, g.dps));
  }

  lemma PageOfMultiple(g: Geometry, q: nat)
    requires g.Valid()
    ensures q * g.dps >= 0 && PageCount(g, q * g.dps) == q
  {
    QuotRemOf(q, 0, g.dps);
    if q > 0 {
      QuotRemOf(q - 1, g.dps - 1, g.dps);
      assert q * g.dps - 1 == (q - 1) * g.dps + (g.dps - 1);
    }
  }

  /** Object `o` is gone: its entries are deleted, every other entry and page is untouched, and
      its descriptors are closed. */
  ghost predicate Removed(g: Geometry, v: Flash, dir0: Dir, fds0: seq<Fd>, w: Flash, dir: Dir, fds: seq<Fd>, o: int) {
    && Consistent(g, w, dir, fds) && SameOthers(Meaning(v, dir0), Meaning(w, dir), o)
    && (forall k :: k in dir ==> k.id != o && k.id != IndexId(o))
    && SameSize(v, w)
    && (forall x :: 0 <= x < |v.lu| ==>
         && (v.lu[x] == o || v.lu[x] == IndexId(o) ==> w.lu[x] == DELETED)
         && (v.lu[x] != o && v.lu[x] != IndexId(o) ==> w.lu[x] == v.lu[x] && w.pages[x] == v.pages[x]))
    && |fds| == |fds0| && forall i :: 0 <= i < |fds| && ObjectId(fds0[i].objId) == o ==> fds[i].fileNbr == 0
  }

  /** Object `o` is a file without data; nothing else changed. */
  ghost predicate Emptied(g: Geometry, v: Flash, dir0: Dir, w: Flash, dir: Dir, fds: seq<Fd>, o: int)
    requires g.Valid()
  {
    && Consistent(g, w, dir, fds) && SameOthers(Meaning(v, dir0), Meaning(w, dir), o)
    && IsFile(g, Meaning(w, dir), o, 0)
    && Key(IndexId(o), 0) in Meaning(v, dir0) && Meaning(v, dir0)[Key(IndexId(o), 0)].Header?
    && Named(Meaning(w, dir), o, Meaning(v, dir0)[Key(IndexId(o), 0)].name)
  }

  lemma AllGoneOf(g: Geometry, v: Flash, w: Flash, dir: Dir, o: int, hdr: int)
    requires Linked(g, w, dir) && OnlyDrops(v, w, o, hdr) && 1 <= o <= MAX_ID
    requires forall k :: k in dir ==> k.id != o && k.id != IndexId(o)
    requires 0 <= hdr < |v.lu| && v.lu[hdr] == IndexId(o)
    ensures SameSize(v, w)
    ensures forall x :: 0 <= x < |v.lu| ==>
      && (v.lu[x] == o || v.lu[x] == IndexId(o) ==> w.lu[x] == DELETED)
      && (v.lu[x] != o && v.lu[x] != IndexId(o) ==> w.lu[x] == v.lu[x] && w.pages[x] == v.pages[x])
  {
    hide RefsLead;
    hide DataReferred;
    hide GoodPages;
    forall x | 0 <= x < |v.lu|
      ensures v.lu[x] == o || v.lu[x] == IndexId(o) ==> w.lu[x] == DELETED
    {
      assert Live(w.lu[x]) ==> KeyAt(w, x) in dir;
    }
  }

  lemma RemovedAll(g: Geometry, v: Flash, dir0: Dir, fds0: seq<Fd>, fds1: seq<Fd>, w: Flash, dir: Dir, fds: seq<Fd>, o: int, hdr: int)
    requires Consistent(g, w, dir, fds) && SameOthers(Meaning(v, dir0), Meaning(w, dir), o) && OnlyDrops(v, w, o, hdr) && 1 <= o <= MAX_ID
    requires forall k :: k in dir ==> k.id != o && k.id != IndexId(o)
    requires 0 <= hdr < |v.lu| && v.lu[hdr] == IndexId(o)
    requires SameOpen(fds0, fds1) && |fds| == |fds1| && forall i :: 0 <= i < |fds| && ObjectId(fds1[i].objId) == o ==> fds[i].fileNbr == 0
    ensures Removed(g, v, dir0, fds0, w, dir, fds, o)
  {
    hide Linked;
    hide FdsOk;
    hide Meaning;
    AllGoneOf(g, v, w, dir, o, hdr);
  }

  lemma DropsJoin(u: Flash, v: Flash, w: Flash, o: int, hdr: int)
    requires OnlyDrops(u, v, o, hdr) && OnlyDrops(v, w, o, hdr)
    ensures OnlyDrops(u, w, o, hdr)
  {
  }

  lemma DropsRefl(v: Flash, o: int, hdr: int)
    requires |v.lu| == |v.pages|
    ensures OnlyDrops(v, v, o, hdr)
  {
  }

  lemma AlreadyEmpty(g: Geometry, fl: Flash, dir: Dir, fds: seq<Fd>, o: int)
    requires g.Valid() && Consistent(g, fl, dir, fds) && IsFile(g, Meaning(fl, dir), o, 0)
    ensures Emptied(g, fl, dir, fl, dir, fds, o)
  {
    hide Linked;
    hide FdsOk;
  }

  /** A descriptor that events reach still owns the file after a collection. */
  lemma OwnerKept(g: Geometry, v: Flash, dir0: Dir, w: Flash, dir: Dir, fds0: seq<Fd>, fds: seq<Fd>, fdi: nat, o: int)
    requires g.Valid() && Consistent(g, w, dir, fds) && Owner(dir0, fds0, fdi, o) && Meaning(w, dir) == Meaning(v, dir0) && SameOpen(fds0, fds)
    requires IsFile(g, Meaning(v, dir0), o, Length(fds0[fdi].size))
    requires fds0[fdi].score != 0 || (dir == dir0 && fds == fds0)
    ensures FdsTrack(Meaning(w, dir), dir, fds, o) && Owner(dir, fds, fdi, o)
    ensures IsFile(g, Meaning(w, dir), o, Length(fds[fdi].size))
  {
    hide Linked;
    hide Extent;
    TrackStart(Meaning(w, dir), dir, fds, o);
    assert FdOk(Meaning(w, dir), dir, fds[fdi]);
  }

  lemma FirstPages(g: Geometry, n: nat)
    requires g.Valid()
    ensures n == 0 <==> PageCount(g, n) == 0
    ensures n == 0 ==> TopIx(g, n) == 0
    ensures n > 0 ==> TopIx(g, n) == IxSpan(g, PageCount(g, n) - 1)
  {
  }

  /** The span before lies under the same index page or the one before. */
  lemma NextDown(g: Geometry, span: nat)
    requires g.Valid()
    ensures span == 0 ==> IxSpan(g, span) == 0
    ensures span > 0 ==> (IxSpan(g, span - 1) == IxSpan(g, span) && IxEntry(g, span) == IxEntry(g, span - 1) + 1) || (IxSpan(g, span - 1) + 1 == IxSpan(g, span) && IxEntry(g, span) == 0)
    ensures span == 0 ==> IxEntry(g, span) == 0
  {
    hide IxSpan;
    hide IxEntry;
    if span > 0 {
      IxNext(g, span - 1);
    } else {
      IxCover(g, 0);
    }
  }

  /** Goes on to index page `k`, which is the last one then: the one before, if there was one in the
      buffer, is deleted. */
  method EnterLast(fs: Spiffs, fdi: nat, prev: int, k: nat, t0: nat, work0: Page, size: nat, removeFull: bool, ghost word0: nat, ghost dir0: Dir, ghost m0: Image, o: int, ghost count: nat, ghost base: Dir)
    returns (res: Status, t: nat, work: Page, ghost word: nat, ghost dir: Dir)
    requires fs.Valid() && 1 <= o <= MAX_ID && fdi < |fs.fds| && size > 0 && (prev == -1 || prev == k + 1) && count > 0 && IxSpan(fs.g, count - 1) == k
    requires prev == -1 ==> Trimmed(fs.g, fs.flash, fs.fds, fdi, dir0, m0, o, removeFull, count, k)
    requires prev != -1 ==> Trimming(fs.g, fs.flash, fs.fds, fdi, dir0, m0, o, removeFull, count, prev, t0, work0)
    requires !removeFull ==> !fs.cleaning && fs.freeBlocks >= 1 && HeaderHas(fs.flash, dir0, o, word0) && PageCount(fs.g, size) == count
    requires !removeFull ==> if prev == -1 then PageCount(fs.g, word0) >= count else PageCount(fs.g, word0) > count
    requires Ahead(base, dir0, o, 0, 1)
    modifies fs`flash, fs`log, fs`freeBlocks, fs`maxEraseCount, fs`pagesDeleted, fs`pagesAllocated
    modifies fs`freeCursorBlock, fs`freeCursorEntry, fs`fds, fs`cursorBlock, fs`cursorEntry
    ensures Lower(res)
    ensures fs.Valid() && fs.Drift() == old(fs.Drift())
    ensures var cost := if prev == -1 then 0 else 1;
      old(fs.Spare()) >= cost ==> res == OK && fs.Spare() >= old(fs.Spare()) - cost
    ensures removeFull ==>
      && res == OK && unchanged(fs`freeBlocks, fs`maxEraseCount, fs`freeCursorBlock, fs`freeCursorEntry)
      && fdi < |fs.fds| && fs.fds[fdi].hdr == old(fs.fds)[fdi].hdr
      && OnlyDrops(old(fs.flash), fs.flash, o, old(fs.fds)[fdi].hdr)
    ensures res == OK ==> fdi < |fs.fds| && Trimming(fs.g, fs.flash, fs.fds, fdi, dir, m0, o, removeFull, count, k, t, work)
    ensures SameOpen(old(fs.fds), fs.fds) && (res == OK ==> t < |fs.flash.pages| && work == fs.flash.pages[t])
    ensures res == OK || !removeFull ==> Apart(dir0, old(fs.fds), dir, fs.fds, o)
    ensures !removeFull ==> fs.freeBlocks >= 1
    ensures res == OK ==> Ahead(base, dir, o, 0, 1)
    ensures !removeFull ==>
      var cost := if prev == -1 then 0 else 1;
      if res == OK then Spent(old(fs.Stock(OwnSlots(base, o))), fs.Stock(OwnSlots(base, o)), cost, cost) else cost == 1 && Ends(old(fs.Stock(OwnSlots(base, o))), 0, 0)
    ensures !removeFull ==> if res == OK then HeaderHas(fs.flash, dir, o, word) && PageCount(fs.g, word) >= count
      else !fs.CanTake() && FileIO.Harmed(fs.g, m0, fs.flash, NoLoss, dir, fs.fds, o)
  {
    hide FreeSuffix;
    hide SameOpen;
    hide CursorOk;
    hide All;
    hide FreeBlocks;
    hide ErasedFree;
    hide DeadMarked;
    hide Linked;
    hide FdsOk;
    hide FdsTrack;
    hide Geometry.Total;
    hide Geometry.BlockStart;
    hide IxSpan;
    hide IxEntry;
    hide Quot;
    hide Rem;
    hide Meaning;
    hide EventFd;
    hide Shrunk;
    hide Seen;
    hide PageCount;
    hide TopIx;
    hide OnlyDrops;
    hide Trimming;
    hide Trimmed;
    hide Extent;
    hide ProgramPage;
    hide Apart;
    hide HeadKept;
    hide HeaderHas;
    hide FileIO.Harmed;
    hide Spiffs.CanTake;
    hide Ahead;
    hide OwnSlots;
    hide Spiffs.Stock;
    res, dir, t, work, word := OK, dir0, t0, work0, word0;
    ghost var before, fds0 := fs.flash, fs.fds;
    OpenRefl(fds0);
    ApartRefl(dir0, fds0, o);
    if prev != -1 {
      res, dir := DeleteIndex(fs, fdi, prev, t, work, size, removeFull, dir, m0, o, count, base);
      if !removeFull {
        if res == OK {
          word := size;
        } else {
          HeadSaid(before, dir0, fs.flash, dir, o, word0);
          ShortHarms(fs.g, fs.flash, fs.fds, fdi, dir, m0, o, count, prev - 1, word0);
        }
      }
    }
    ghost var middle, dir1, fds1 := fs.flash, dir, fs.fds;
    if removeFull {
      DropsRefl(before, o, fds0[fdi].hdr);
    }
    if res == OK {
      res, t, work := LoadLast(fs, fdi, k, dir, m0, o, removeFull, count);
      OpenJoin(fds0, fds1, fs.fds);
      ApartOn(dir0, fds0, dir1, fds1, dir, fs.fds, o);
    }
  }

  lemma HeadSaid(v: Flash, dir: Dir, w: Flash, dir': Dir, o: int, word: int)
    requires HeadKept(v, dir, w, dir', o) && HeaderHas(v, dir, o, word)
    ensures HeaderHas(w, dir', o, word)
  {
  }

  lemma LowAll(fl: Flash, t: nat, e: nat)
    requires t < |fl.pages|
    ensures Low(fl, t, fl.pages[t], e)
  {
  }

  /** A truncation that has `size` bytes to go, the last of them in data page `span`: `prev` is the index
      page in the buffer, -1 at the start; the stored header says `word`. */
  ghost predicate Shrinking(g: Geometry, fl: Flash, fds: seq<Fd>, fdi: nat, dir: Dir, m0: Image, o: int, removeFull: bool, size0: nat, top: nat, size: nat, span: int, prev: int, k: nat, t: nat, work: Page, word: nat)
    requires g.Valid()
  {
    && fdi < |fds| && span + 1 == PageCount(g, size) && (size == 0 <==> span == -1) && (prev == -1 || prev == k)
    && (prev == -1 ==>
         && Trimmed(g, fl, fds, fdi, dir, m0, o, removeFull, span + 1, top)
         && (if size > 0 then top == IxSpan(g, span) else top == 0 && t == fds[fdi].hdr && size0 == 0))
    && (prev != -1 ==>
         && Trimming(g, fl, fds, fdi, dir, m0, o, removeFull, span + 1, k, t, work)
         && (if size > 0 then IxSpan(g, span) == k || IxSpan(g, span) + 1 == k else k == 0 && FirstStored(fl, t))
         && (size > 0 && IxSpan(g, span) == k ==> Low(fl, t, work, IxEntry(g, span) + 1)))
    && (!removeFull && size > 0 ==> HeaderHas(fl, dir, o, word) && (if prev == -1 then PageCount(g, word) >= span + 1 else PageCount(g, word) > span + 1))
  }

  /** A truncation with a data page to go. */
  lemma ShrinkAny(g: Geometry, fl: Flash, fds: seq<Fd>, fdi: nat, dir: Dir, m0: Image, o: int, removeFull: bool, size0: nat, top: nat, size: nat, span: nat, prev: int, k: nat, t: nat, work: Page, word: nat)
    requires g.Valid() && size > 0 && Shrinking(g, fl, fds, fdi, dir, m0, o, removeFull, size0, top, size, span, prev, k, t, work, word)
    ensures fdi < |fds| && span + 1 == PageCount(g, size) && (prev == -1 || prev == k)
    ensures prev == -1 ==> Trimmed(g, fl, fds, fdi, dir, m0, o, removeFull, span + 1, top) && top == IxSpan(g, span)
    ensures prev != -1 ==> Trimming(g, fl, fds, fdi, dir, m0, o, removeFull, span + 1, k, t, work) && (IxSpan(g, span) == k || IxSpan(g, span) + 1 == k)
    ensures prev != -1 && IxSpan(g, span) == k ==> Low(fl, t, work, IxEntry(g, span) + 1)
    ensures !removeFull ==> HeaderHas(fl, dir, o, word) && (if prev == -1 then PageCount(g, word) >= span + 1 else PageCount(g, word) > span + 1)
  {
    hide Trimmed;
    hide Trimming;
    hide HeaderHas;
    hide Low;
  }

  /** The last data page was dropped. */
  lemma ShrinkOn(g: Geometry, fl: Flash, fds: seq<Fd>, fdi: nat, dir: Dir, m0: Image, o: int, removeFull: bool, size0: nat, top: nat, size: nat, span: nat, k: nat, t: nat, work: Page, word: nat)
    requires g.Valid() && fdi < |fds| && k == IxSpan(g, span) && span == PageCount(g, size) && Trimming(g, fl, fds, fdi, dir, m0, o, removeFull, span, k, t, work)
    requires Low(fl, t, work, IxEntry(g, span)) && (IxEntry(g, span) == 0 ==> FirstStored(fl, t))
    requires !removeFull ==> HeaderHas(fl, dir, o, word) && PageCount(g, word) >= span + 1
    ensures Shrinking(g, fl, fds, fdi, dir, m0, o, removeFull, size0, top, size, span - 1, k, k, t, work, word)
  {
    hide Trimming;
    hide Trimmed;
    hide FirstStored;
    hide HeaderHas;
    hide Low;
    hide PageCount;
    hide IxSpan;
    hide IxEntry;
    hide TopIx;
    NextDown(g, span);
    FirstPages(g, size);
  }

  /** `cost` pages were had, or the one needed could not be had. */
  ghost predicate Charged(a: Supply, b: Supply, cost: nat, ok: bool) {
    if ok then Spent(a, b, cost, cost) else cost == 1 && Ends(a, 0, 0)
  }

  /** Deletes the last data page, its index page being loaded first, and the index page behind that
      deleted. */
  method DropLast(fs: Spiffs, fdi: nat, removeFull: bool, prev0: int, k0: nat, t0: nat, work0: Page, size1: nat, span: nat, ghost size0: nat, ghost top: nat, ghost word0: nat, ghost dir0: Dir, ghost m0: Image, o: int, ghost base: Dir)
    returns (res: Status, t: nat, work: Page, k: nat, size: nat, ghost word: nat, ghost dir: Dir)
    requires fs.Valid() && !fs.cleaning && 1 <= o <= MAX_ID && size1 > 0 && Ahead(base, dir0, o, 0, 1) && (!removeFull ==> fs.freeBlocks >= 1)
    requires Shrinking(fs.g, fs.flash, fs.fds, fdi, dir0, m0, o, removeFull, size0, top, size1, span, prev0, k0, t0, work0, word0)
    modifies fs`flash, fs`log, fs`freeBlocks, fs`maxEraseCount, fs`pagesDeleted, fs`pagesAllocated
    modifies fs`freeCursorBlock, fs`freeCursorEntry, fs`fds, fs`cursorBlock, fs`cursorEntry
    ensures Lower(res)
    ensures fs.Valid() && fs.Drift() == old(fs.Drift())
    ensures removeFull ==>
      && res == OK && unchanged(fs`freeBlocks, fs`maxEraseCount, fs`freeCursorBlock, fs`freeCursorEntry)
      && OnlyDrops(old(fs.flash), fs.flash, o, old(fs.fds)[fdi].hdr)
      && fdi < |fs.fds| && fs.fds[fdi].hdr == old(fs.fds)[fdi].hdr
    ensures k == IxSpan(fs.g, span) && (prev0 == -1 ==> k == top) && (prev0 != -1 ==> prev0 == k || prev0 == k + 1)
    ensures res == OK ==> size < size1 && Ahead(base, dir, o, 0, 1) && Shrinking(fs.g, fs.flash, fs.fds, fdi, dir, m0, o, removeFull, size0, top, size, span - 1, k, k, t, work, word)
    ensures SameOpen(old(fs.fds), fs.fds) && Apart(dir0, old(fs.fds), dir, fs.fds, o) && (!removeFull ==> fs.freeBlocks >= 1)
    ensures !removeFull && res != OK ==> !fs.CanTake() && FileIO.Harmed(fs.g, m0, fs.flash, NoLoss, dir, fs.fds, o)
    ensures
      var cost := if prev0 == -1 || prev0 == k then 0 else 1;
      && (old(fs.Spare()) >= cost ==> res == OK && fs.Spare() >= old(fs.Spare()) - cost)
      && (!removeFull ==> Charged(old(fs.Stock(OwnSlots(base, o))), fs.Stock(OwnSlots(base, o)), cost, res == OK))
  {
    hide Lower;
    hide Spiffs.Valid;
    hide FreeSuffix;
    hide SameOpen;
    hide CursorOk;
    hide All;
    hide FreeBlocks;
    hide ErasedFree;
    hide DeadMarked;
    hide Linked;
    hide FdsOk;
    hide FdsTrack;
    hide Geometry.Total;
    hide Geometry.BlockStart;
    hide IxSpan;
    hide IxEntry;
    hide Quot;
    hide Rem;
    hide Meaning;
    hide EventFd;
    hide Shrunk;
    hide Seen;
    hide PageCount;
    hide TopIx;
    hide OnlyDrops;
    hide Trimming;
    hide Trimmed;
    hide Extent;
    hide ProgramPage;
    hide Apart;
    hide HeadKept;
    hide HeaderHas;
    hide FileIO.Harmed;
    hide Spiffs.CanTake;
    hide Low;
    hide FirstStored;
    hide Spiffs.Spare;
    hide Spiffs.Drift;
    hide Spiffs.Stock;
    hide Ahead;
    hide OwnSlots;
    hide Spent;
    hide Ends;
    hide AllWords;
    hide Without;
    hide Shrinking;
    OkInner();
    ValidShape(fs);
    var g := fs.g;
    res, dir, t, work, word, size := OK, dir0, t0, work0, word0, size1;
    ghost var before, fds0, x := fs.flash, fs.fds, OwnSlots(base, o);
    ShrinkAny(g, before, fds0, fdi, dir0, m0, o, removeFull, size0, top, size, span, prev0, k0, t, work, word);
    ghost var hdr, stock := fs.fds[fdi].hdr, fs.Stock(x);
    DropsRefl(before, o, hdr);
    OpenRefl(fds0);
    ApartRefl(dir0, fds0, o);
    SpentNone(stock);
    k := IxSpan(g, span);
    if prev0 != k {
      res, t, work, word, dir := EnterLast(fs, fdi, prev0, k, t, work, size, removeFull, word, dir, m0, o, span + 1, base);
      if res == OK {
        LowAll(fs.flash, t, IxEntry(g, span) + 1);
      }
    }
    if res == OK {
      ghost var middle, dir1, fds1, stock1 := fs.flash, dir, fs.fds, fs.Stock(x);
      LastPageOff(g, size);
      size := if Rem(size, g.dps) == 0 then size - g.dps else size - Rem(size, g.dps);
      res, work, dir := DeleteData(fs, fdi, span, size, k, t, work, dir, m0, o, removeFull, base);
      OpenJoin(fds0, fds1, fs.fds);
      ApartOn(dir0, fds0, dir1, fds1, dir, fs.fds, o);
      if removeFull {
        DropsJoin(before, middle, fs.flash, o, hdr);
      } else {
        HeadSaid(middle, dir1, fs.flash, dir, o, word);
        SpentJoin(stock, stock1, fs.Stock(x), if prev0 == -1 || prev0 == k then 0 else 1, if prev0 == -1 || prev0 == k then 0 else 1, 0, 0);
      }
      ShrinkOn(g, fs.flash, fs.fds, fdi, dir, m0, o, removeFull, size0, top, size, span, k, t, work, word);
    }
  }

  lemma SpentNone(a: Supply)
    ensures Spent(a, a, 0, 0)
  {
  }

  lemma ShrinkStart(g: Geometry, fl: Flash, fds: seq<Fd>, fdi: nat, dir: Dir, m0: Image, o: int, removeFull: bool, size: nat, t: nat, work: Page)
    requires g.Valid() && fdi < |fds| && Trimmed(g, fl, fds, fdi, dir, m0, o, removeFull, PageCount(g, size), TopIx(g, size)) && t == fds[fdi].hdr
    requires !removeFull ==> HeaderHas(fl, dir, o, size)
    ensures Shrinking(g, fl, fds, fdi, dir, m0, o, removeFull, size, TopIx(g, size), size, PageCount(g, size) - 1, -1, 0, t, work, size)
  {
    hide Trimmed;
    hide HeaderHas;
    hide PageCount;
    hide TopIx;
    hide IxSpan;
    FirstPages(g, size);
  }

  lemma ShrinkParts(g: Geometry, fl: Flash, fds: seq<Fd>, fdi: nat, dir: Dir, m0: Image, o: int, removeFull: bool, size0: nat, top: nat, size: nat, span: int, prev: int, k: nat, t: nat, work: Page, word: nat)
    requires g.Valid() && Shrinking(g, fl, fds, fdi, dir, m0, o, removeFull, size0, top, size, span, prev, k, t, work, word)
    ensures fdi < |fds| && (size == 0 <==> span == -1) && span >= -1 && (prev == -1 || prev == k)
    ensures size == 0 && prev == -1 ==> size0 == 0 && top == 0 && t == fds[fdi].hdr && Trimmed(g, fl, fds, fdi, dir, m0, o, removeFull, 0, 0)
    ensures size == 0 && prev != -1 ==> k == 0 && Trimming(g, fl, fds, fdi, dir, m0, o, removeFull, 0, 0, t, work) && FirstStored(fl, t)
  {
    hide Trimmed;
    hide Trimming;
    hide FirstStored;
    hide HeaderHas;
    hide Low;
    FirstPages(g, size);
  }

  /** Deletes the data pages from the last one on, and the index pages but the header. `prev` is
      the index page in the buffer, -1 when there is none. */
  method DeletePages(fs: Spiffs, fdi: nat, size0: nat, removeFull: bool, ghost dir0: Dir, ghost m0: Image, o: int, ghost base: Dir)
    returns (res: Status, t: nat, work: Page, prev: int, ghost dir: Dir)
    requires fs.Valid() && !fs.cleaning && 1 <= o <= MAX_ID && fdi < |fs.fds| && fs.fds[fdi].hdr >= 0
    requires Trimmed(fs.g, fs.flash, fs.fds, fdi, dir0, m0, o, removeFull, PageCount(fs.g, size0), TopIx(fs.g, size0))
    requires Ahead(base, dir0, o, 0, 1)
    requires !removeFull ==> fs.freeBlocks >= 1 && HeaderHas(fs.flash, dir0, o, size0)
    modifies fs`flash, fs`log, fs`freeBlocks, fs`maxEraseCount, fs`pagesDeleted, fs`pagesAllocated
    modifies fs`freeCursorBlock, fs`freeCursorEntry, fs`fds, fs`cursorBlock, fs`cursorEntry
    ensures Lower(res)
    ensures fs.Valid() && fs.Drift() == old(fs.Drift())
    ensures !removeFull && old(fs.Spare()) >= TopIx(fs.g, size0) ==> res == OK && fs.Spare() >= old(fs.Spare()) - TopIx(fs.g, size0)
    ensures removeFull ==>
      && res == OK && unchanged(fs`freeBlocks, fs`maxEraseCount, fs`freeCursorBlock, fs`freeCursorEntry)
      && OnlyDrops(old(fs.flash), fs.flash, o, old(fs.fds)[fdi].hdr)
      && fdi < |fs.fds| && fs.fds[fdi].hdr == old(fs.fds)[fdi].hdr
    ensures res == OK ==> fdi < |fs.fds|
    ensures !removeFull ==>
      var top, before := TopIx(fs.g, size0), old(fs.Stock(OwnSlots(base, o)));
      if res == OK then Spent(before, fs.Stock(OwnSlots(base, o)), top, top) else before.hold > top ==> before.left < top
    ensures SameOpen(old(fs.fds), fs.fds) && Apart(dir0, old(fs.fds), dir, fs.fds, o) && (!removeFull ==> fs.freeBlocks >= 1)
    ensures res == OK && prev != -1 ==> FirstStored(fs.flash, t)
    ensures !removeFull && res != OK ==> !fs.CanTake() && FileIO.Harmed(fs.g, m0, fs.flash, NoLoss, dir, fs.fds, o)
    ensures res == OK && prev == -1 ==> size0 == 0 && t == fs.fds[fdi].hdr && Trimmed(fs.g, fs.flash, fs.fds, fdi, dir, m0, o, removeFull, 0, 0)
    ensures res == OK && prev != -1 ==> Trimming(fs.g, fs.flash, fs.fds, fdi, dir, m0, o, removeFull, 0, 0, t, work)
  {
    hide Lower;
    hide FreeSuffix;
    hide SameOpen;
    hide CursorOk;
    hide All;
    hide FreeBlocks;
    hide ErasedFree;
    hide DeadMarked;
    hide Linked;
    hide FdsOk;
    hide FdsTrack;
    hide Geometry.Total;
    hide Geometry.BlockStart;
    hide IxSpan;
    hide IxEntry;
    hide Quot;
    hide Rem;
    hide Meaning;
    hide EventFd;
    hide Shrunk;
    hide Seen;
    hide PageCount;
    hide TopIx;
    hide OnlyDrops;
    hide Trimming;
    hide Trimmed;
    hide Extent;
    hide ProgramPage;
    hide Apart;
    hide HeadKept;
    hide HeaderHas;
    hide FileIO.Harmed;
    hide Spiffs.CanTake;
    hide Low;
    hide FirstStored;
    hide Spiffs.Spare;
    hide Spiffs.Drift;
    hide Spiffs.Stock;
    hide Ahead;
    hide OwnSlots;
    hide Spent;
    hide Ends;
    hide Shedding;
    hide AllWords;
    hide Shrinking;
    hide Without;
    hide TopIx;
    OkInner();
    var g, size: nat, k: nat := fs.g, size0, 0;
    var hdr: nat := fs.fds[fdi].hdr;
    res, dir, t, prev, work := OK, dir0, hdr, -1, ERASED;
    ghost var word := size0;
    var span: int := PageCount(g, size) - 1;
    ShrinkStart(g, fs.flash, fs.fds, fdi, dir, m0, o, removeFull, size, t, work);
    DropsRefl(fs.flash, o, hdr);
    OpenRefl(fs.fds);
    ApartRefl(dir, fs.fds, o);
    ghost var top, spare, x := TopIx(g, size), fs.Spare(), OwnSlots(base, o);
    ghost var stock := fs.Stock(x);
    SheddingStart(stock, top, k);
    ShrinkParts(g, fs.flash, fs.fds, fdi, dir, m0, o, removeFull, size0, top, size, span, prev, k, t, work, word);
    while size > 0 && res == OK
      invariant fs.Valid() && fs.Drift() == old(fs.Drift()) && SameOpen(old(fs.fds), fs.fds) && (res == OK ==> fdi < |fs.fds|) && Lower(res)
      invariant removeFull ==> res == OK && OnlyDrops(old(fs.flash), fs.flash, o, hdr) && fs.fds[fdi].hdr == hdr
      invariant removeFull ==> unchanged(fs`freeBlocks, fs`maxEraseCount, fs`freeCursorBlock, fs`freeCursorEntry)
      invariant res == OK ==> Ahead(base, dir, o, 0, 1) && Shrinking(g, fs.flash, fs.fds, fdi, dir, m0, o, removeFull, size0, top, size, span, prev, k, t, work, word)
      invariant prev == -1 || prev == k
      invariant !removeFull && spare >= top ==> res == OK && fs.Spare() >= spare - top + (if prev == -1 then top else k)
      invariant Apart(dir0, old(fs.fds), dir, fs.fds, o) && (!removeFull ==> fs.freeBlocks >= 1)
      invariant !removeFull && res != OK ==> !fs.CanTake() && FileIO.Harmed(g, m0, fs.flash, NoLoss, dir, fs.fds, o)
      invariant !removeFull ==> Shedding(stock, fs.Stock(x), top, prev, k, res == OK)
      decreases res == OK, size
    {
      ghost var before, dir1, fds1, stock1, prev1, k1 := fs.flash, dir, fs.fds, fs.Stock(x), prev, k;
      ShrinkParts(g, fs.flash, fs.fds, fdi, dir, m0, o, removeFull, size0, top, size, span, prev, k, t, work, word);
      res, t, work, k, size, word, dir := DropLast(fs, fdi, removeFull, prev, k, t, work, size, span, size0, top, word, dir, m0, o, base);
      prev, span := k, span - 1;
      OpenJoin(old(fs.fds), fds1, fs.fds);
      ApartOn(dir0, old(fs.fds), dir1, fds1, dir, fs.fds, o);
      if removeFull {
        DropsJoin(old(fs.flash), before, fs.flash, o, hdr);
      } else {
        SheddingOn(stock, stock1, fs.Stock(x), top, prev1, k1, k, res == OK);
      }
    }
    if res == OK {
      ShrinkParts(g, fs.flash, fs.fds, fdi, dir, m0, o, removeFull, size0, top, size, span, prev, k, t, work, word);
    }
    if !removeFull {
      SheddingEnd(stock, fs.Stock(x), top, prev, k, res == OK);
    }
  }

  /** What a truncation took of `start` that deleted the index pages behind `k`, of those up to `top`, or
      could not go on. */
  ghost predicate Shedding(start: Supply, now: Supply, top: nat, prev: int, k: nat, ok: bool) {
    if !ok then start.hold > top ==> start.left < top
    else if prev == -1 then Spent(start, now, 0, 0)
    else k <= top && Spent(start, now, top - k, top - k)
  }

  lemma SheddingStart(a: Supply, top: nat, k: nat)
    ensures Shedding(a, a, top, -1, k, true)
  {
  }

  /** One more index page was deleted, or could not be. */
  lemma SheddingOn(a: Supply, b: Supply, c: Supply, top: nat, prev: int, k0: nat, k: nat, ok: bool)
    requires Shedding(a, b, top, prev, k0, true)
    requires if prev == -1 then k == top else prev == k0 && (prev == k || prev == k + 1)
    requires var cost := if prev == -1 || prev == k then 0 else 1; if ok then Spent(b, c, cost, cost) else cost == 1 && Ends(b, 0, 0)
    ensures Shedding(a, c, top, k, k, ok)
  {
  }

  lemma SheddingEnd(a: Supply, b: Supply, top: nat, prev: int, k: nat, ok: bool)
    requires Shedding(a, b, top, prev, k, ok) && (ok ==> if prev == -1 then top == 0 else k == 0)
    ensures if ok then Spent(a, b, top, top) else a.hold > top ==> a.left < top
  {
  }

  /** What comes after the data pages and the other index pages are gone: the header page is
      deleted too, or stored without references and length. */
  method Conclude(fs: Spiffs, fdi: nat, removeFull: bool, t: nat, work: Page, prev: int, ghost dir0: Dir, ghost m0: Image, o: int)
    returns (res: Status, ghost loss: Loss, ghost dir: Dir)
    requires fs.Valid() && 1 <= o <= MAX_ID && fdi < |fs.fds| && (prev == -1 ==> removeFull)
    requires prev == -1 ==> t == fs.fds[fdi].hdr && Trimmed(fs.g, fs.flash, fs.fds, fdi, dir0, m0, o, removeFull, 0, 0)
    requires prev != -1 ==> Trimming(fs.g, fs.flash, fs.fds, fdi, dir0, m0, o, removeFull, 0, 0, t, work)
    requires prev != -1 ==> FirstStored(fs.flash, t)
    modifies fs`flash, fs`log, fs`freeBlocks, fs`maxEraseCount, fs`pagesDeleted, fs`pagesAllocated
    modifies fs`freeCursorBlock, fs`freeCursorEntry, fs`fds
    ensures Lower(res)
    ensures fs.Valid() && fs.Drift() == old(fs.Drift())
    ensures !removeFull && old(fs.Spare()) >= 1 ==> res == OK && fs.Spare() >= old(fs.Spare()) - 1
    ensures removeFull ==>
      && res == OK && Consistent(fs.g, fs.flash, dir, fs.fds) && SameOthers(m0, Meaning(fs.flash, dir), o)
      && (forall k :: k in dir ==> k.id != o && k.id != IndexId(o))
      && |fs.fds| == |old(fs.fds)| && (forall i :: 0 <= i < |fs.fds| && ObjectId(old(fs.fds)[i].objId) == o ==> fs.fds[i].fileNbr == 0)
      && OnlyDrops(old(fs.flash), fs.flash, o, old(fs.fds)[fdi].hdr)
      && unchanged(fs`freeBlocks, fs`maxEraseCount, fs`freeCursorBlock, fs`freeCursorEntry)
    ensures removeFull || res == OK || (!fs.cleaning && old(fs.freeBlocks) >= 1) ==> Apart(dir0, old(fs.fds), dir, fs.fds, o)
    ensures !removeFull && !fs.cleaning && old(fs.freeBlocks) >= 1 && res != OK ==>
      !fs.CanTake() && SameOpen(old(fs.fds), fs.fds) && FileIO.Harmed(fs.g, m0, fs.flash, loss, dir, fs.fds, o)
    ensures !removeFull && !fs.cleaning && old(fs.freeBlocks) >= 1 ==> fs.freeBlocks >= 1
    ensures !removeFull && !fs.cleaning ==> forall x :: if res == OK then Spent(old(fs.Stock(x)), fs.Stock(x), 1, 1) else Ends(old(fs.Stock(x)), 0, 0)
    ensures !removeFull && res == OK ==>
      && SameOpen(old(fs.fds), fs.fds) && Consistent(fs.g, fs.flash, dir, fs.fds) && Owner(dir, fs.fds, fdi, o)
      && SameOthers(m0, Meaning(fs.flash, dir), o) && IsFile(fs.g, Meaning(fs.flash, dir), o, 0) && Length(fs.fds[fdi].size) == 0
      && Key(IndexId(o), 0) in m0 && m0[Key(IndexId(o), 0)].Header? && Named(Meaning(fs.flash, dir), o, m0[Key(IndexId(o), 0)].name)
  {
    hide FreeSuffix;
    hide CursorOk;
    hide All;
    hide FreeBlocks;
    hide ErasedFree;
    hide DeadMarked;
    hide Linked;
    hide FdsOk;
    hide FdsTrack;
    hide Geometry.Total;
    hide Geometry.BlockStart;
    hide Meaning;
    hide EventFd;
    hide Shrunk;
    hide Seen;
    hide OnlyDrops;
    hide Trimming;
    hide Trimmed;
    hide Extent;
    hide Apart;
    hide FirstStored;
    hide FileIO.Harmed;
    hide Spiffs.Stock;
    loss := NoLoss;
    ghost var fds0 := fs.fds;
    if removeFull {
      ghost var page := work;
      if prev == -1 {
        TrimLoad(fs.g, fs.flash, fs.fds, fdi, dir0, m0, o, true, 0, 0);
        page := fs.flash.pages[t];
      }
      TrimHeld(fs.g, fs.flash, fs.fds, fdi, dir0, m0, o, true, 0, 0, t, page);
      res, dir := FinishRemoval(fs, fdi, t, page, dir0, m0, o);
    } else {
      res, dir := FinishTruncation(fs, fdi, t, work, dir0, m0, o);
      if res == OK {
        LengthZero(Meaning(fs.flash, dir), dir, fs.fds, fdi, o);
        ghost var fds1 := fs.fds;
        ApartOwn(dir, dir, fds1, fdi, fds1[fdi].(size := 0), o, Key(o, 0), 0);
        fs.fds := fs.fds[fdi := fs.fds[fdi].(size := 0)];
        ApartOn(dir0, fds0, dir, fds1, dir, fs.fds, o);
      } else {
        ApartRefl(dir0, fs.fds, o);
        OpenRefl(fs.fds);
        if !fs.cleaning && old(fs.freeBlocks) >= 1 {
          loss := Unstored(t, work.body);
          LastHarms(fs.g, fs.flash, fs.fds, fdi, dir0, m0, o, t, work);
        }
      }
    }
  }

  /** Open windows on object `o` have no entry. */
  ghost predicate BlankMaps(fds: seq<Fd>, o: int) {
    forall i, j :: 0 <= i < |fds| && fds[i].fileNbr != 0 && fds[i].win.Some? && ObjectId(fds[i].objId) == o && 0 <= j < |fds[i].win.value.entries| ==>
      fds[i].win.value.entries[j] == NONE
  }

  lemma MapElse(dir: Dir, dir': Dir, fd: Fd, o: int)
    requires DirElse(dir, dir', o) && ObjectId(fd.objId) != o
    ensures MapOk(dir, fd) ==> MapOk(dir', fd)
  {
    if MapOk(dir, fd) && fd.fileNbr != 0 && fd.win.Some? {
      var a, w := ObjectId(fd.objId), fd.win.value;
      forall i | 0 <= i < |w.entries|
        ensures EntryOk(dir', a, w.start + i, w.entries[i])
      {
        assert EntryOk(dir, a, w.start + i, w.entries[i]);
        assert ObjectId(Key(a, w.start + i).id) == a;
      }
      ElseContiguous(dir, dir', a, o);
    }
  }

  lemma ElseContiguous(dir: Dir, dir': Dir, a: int, o: int)
    requires DirElse(dir, dir', o) && a != o && Contiguous(dir, a) && 1 <= a <= MAX_ID
    ensures Contiguous(dir', a)
  {
    forall p: nat, q: nat | p < q && Key(a, q) in dir'
      ensures Key(a, p) in dir'
    {
      assert ObjectId(Key(a, q).id) == a && ObjectId(Key(a, p).id) == a;
      assert Key(a, q) in dir && Key(a, p) in dir;
    }
  }

  /** After a removal the windows of open descriptors agree as they did: those of the object are
      closed. */
  lemma RemovedMaps(dir0: Dir, fds0: seq<Fd>, dir: Dir, fds: seq<Fd>, o: int)
    requires Apart(dir0, fds0, dir, fds, o) && forall i :: 0 <= i < |fds| && ObjectId(fds0[i].objId) == o ==> fds[i].fileNbr == 0
    ensures MapsKept(dir0, fds0, dir, fds)
  {
    hide DirElse;
    forall i | 0 <= i < |fds0|
      ensures MapOk(dir0, fds0[i]) ==> MapOk(dir, fds[i])
      ensures fds[i].win == fds0[i].win
    {
      if ObjectId(fds0[i].objId) != o {
        MapElse(dir0, dir, fds0[i], o);
      }
    }
  }

  /** A truncation tells no window that the data pages are gone: afterwards the windows agree exactly if
      those of the file are blank. */
  lemma TruncatedMaps(g: Geometry, m: Image, dir0: Dir, fds0: seq<Fd>, fl: Flash, dir: Dir, fds: seq<Fd>, o: int)
    requires g.Valid() && Apart(dir0, fds0, dir, fds, o) && SameOpen(fds0, fds) && m == Meaning(fl, dir) && IsFile(g, m, o, 0)
    ensures Mapless(fds0) ==> Mapless(fds)
    ensures MapsOk(dir0, fds0) ==> (MapsOk(dir, fds) <==> BlankMaps(fds, o))
  {
    hide DirElse;
    hide IndexPages;
    hide TailErased;
    if Mapless(fds0) {
      assert forall i :: 0 <= i < |fds| ==> fds0[i].win.None? && fds[i].win == fds0[i].win;
    }
    if MapsOk(dir0, fds0) {
      forall q: int
        ensures Key(o, q) !in dir
      {
        assert Key(o, q) in m <==> 0 <= q < 0;
      }
      forall i | 0 <= i < |fds| && ObjectId(fds[i].objId) != o
        ensures MapOk(dir, fds[i])
      {
        assert MapOk(dir0, fds0[i]);
        MapElse(dir0, dir, fds0[i], o);
      }
      forall i | 0 <= i < |fds| && ObjectId(fds[i].objId) == o && fds[i].fileNbr != 0 && fds[i].win.Some?
        ensures MapOk(dir, fds[i]) <==> forall j :: 0 <= j < |fds[i].win.value.entries| ==> fds[i].win.value.entries[j] == NONE
      {
        BlankOne(dir, fds[i], o);
      }
      if MapsOk(dir, fds) {
        forall i, j | 0 <= i < |fds| && fds[i].fileNbr != 0 && fds[i].win.Some? && ObjectId(fds[i].objId) == o && 0 <= j < |fds[i].win.value.entries|
          ensures fds[i].win.value.entries[j] == NONE
        {
          assert MapOk(dir, fds[i]);
        }
      }
    }
  }

  lemma BlankOne(dir: Dir, fd: Fd, o: int)
    requires 1 <= o <= MAX_ID && ObjectId(fd.objId) == o && fd.fileNbr != 0 && fd.win.Some? && forall q: int :: Key(o, q) !in dir
    ensures MapOk(dir, fd) <==> forall j :: 0 <= j < |fd.win.value.entries| ==> fd.win.value.entries[j] == NONE
  {
    var w := fd.win.value;
    forall j | 0 <= j < |w.entries|
      ensures EntryOk(dir, o, w.start + j, w.entries[j]) <==> w.entries[j] == NONE
    {
    }
  }

  /** Makes room for a truncation. When the collections get nowhere no page can be had after it. */
  method TruncateRoom(fs: Spiffs, maxCandidates: nat, ghost dir0: Dir, ghost o: int)
    returns (res: Status, ghost loss: Loss, ghost dir: Dir)
    requires fs.Valid() && !fs.cleaning && maxCandidates > 0 && Consistent(fs.g, fs.flash, dir0, fs.fds)
    modifies fs`flash, fs`log, fs`freeBlocks, fs`maxEraseCount, fs`pagesDeleted, fs`pagesAllocated
    modifies fs`freeCursorBlock, fs`freeCursorEntry, fs`fds, fs`cursorBlock, fs`cursorEntry, fs`cleaning
    ensures Lower(res)
    ensures fs.Valid() && !fs.cleaning && fs.Drift() >= old(fs.Drift())
    ensures Survived(fs.g, old(fs.flash), dir0, old(fs.fds), fs.flash, loss, dir, fs.fds)
    ensures SameOpen(old(fs.fds), fs.fds) && (Mapless(old(fs.fds)) ==> Mapless(fs.fds))
    ensures res == OK ==>
      && fs.freeBlocks >= 1 && loss == NoLoss && Consistent(fs.g, fs.flash, dir, fs.fds) && Meaning(fs.flash, dir) == Meaning(old(fs.flash), dir0)
      && (MapsOk(dir0, old(fs.fds)) ==> MapsOk(dir, fs.fds))
    ensures res == OK || res == ERR_FULL ==> (res == OK <==> Reclaim.Holds(fs.g, fs.flash.lu, fs.g.dps * 2))
    ensures old(Reclaim.Ample(fs, fs.g.dps * 2)) ==> res == OK
    ensures old(fs.Spare()) >= Plenty(fs.g) + 1 ==> res == OK && unchanged(fs) && dir == dir0
    ensures old(fs.freeBlocks) > 3 && fs.g.dps * 2 < old(Reclaim.FreePages(fs)) * fs.g.dps ==> res == OK && unchanged(fs) && dir == dir0
    ensures old(Reclaim.Idles(fs, fs.g.dps * 2)) ==>
      var stock := fs.Stock(OwnSlots(dir, o)); res == OK && stock.left == 0 && stock.hold + |OwnKeys(dir0, o)| >= fs.g.n
  {
    hide Plenty;
    hide Spiffs.Spare;
    hide Spiffs.Drift;
    hide Spiffs.Stock;
    hide FreeSuffix;
    hide CursorOk;
    hide All;
    hide FreeBlocks;
    hide ErasedFree;
    hide DeadMarked;
    hide AllWords;
    hide Consistent;
    hide Geometry.Total;
    hide Geometry.BlockStart;
    hide Meaning;
    hide Survived;
    hide SameOpen;
    hide MapsOk;
    hide Mapless;
    hide OwnSlots;
    hide OwnKeys;
    hide Undeleted;
    hide Reclaim.FreePages;
    hide Reclaim.Ample;
    hide Reclaim.Holds;
    hide Reclaim.Dwindles;
    hide Reclaim.Idles;
    Reclaim.PlentyHolds(fs.g, fs.Spare());
    ghost var rounds, first;
    res, rounds, first, loss, dir := Reclaim.Check(fs, fs.g.dps * 2, maxCandidates, dir0);
    SurvivedParts(fs.g, old(fs.flash), dir0, old(fs.fds), fs.flash, loss, dir, fs.fds);
    if old(Reclaim.Idles(fs, fs.g.dps * 2)) {
      IdleStock(fs, OwnSlots(dir, o));
      OwnFew(dir0, dir, o);
    }
  }

  /** Deletes all pages of a file, from the last on, and its header too or stores that anew. */
  method TruncatePages(fs: Spiffs, fdi: nat, removeFull: bool, ghost dir0: Dir, ghost m0: Image, o: int)
    returns (res: Status, ghost loss: Loss, ghost dir: Dir)
    requires fs.Valid() && !fs.cleaning && Consistent(fs.g, fs.flash, dir0, fs.fds) && m0 == Meaning(fs.flash, dir0)
    requires Owner(dir0, fs.fds, fdi, o) && IsFile(fs.g, m0, o, Length(fs.fds[fdi].size))
    requires !removeFull ==> fs.freeBlocks >= 1 && fs.fds[fdi].size > 0 && fs.fds[fdi].score != 0
    modifies fs`flash, fs`log, fs`freeBlocks, fs`maxEraseCount, fs`pagesDeleted, fs`pagesAllocated
    modifies fs`freeCursorBlock, fs`freeCursorEntry, fs`fds, fs`cursorBlock, fs`cursorEntry, fs`cleaning
    ensures Lower(res)
    ensures fs.Valid() && !fs.cleaning && fs.Drift() == old(fs.Drift())
    ensures removeFull ==>
      && res == OK && Removed(fs.g, old(fs.flash), dir0, old(fs.fds), fs.flash, dir, fs.fds, o)
      && unchanged(fs`freeBlocks, fs`maxEraseCount, fs`freeCursorBlock, fs`freeCursorEntry)
      && MapsKept(dir0, old(fs.fds), dir, fs.fds)
      && (forall i :: 0 <= i < |old(fs.fds)| && old(fs.fds)[i].fileNbr == 0 ==> i < |fs.fds| && fs.fds[i].fileNbr == 0)
      && |fs.fds| == |old(fs.fds)| && (forall i :: 0 <= i < |fs.fds| ==> fs.fds[i].score == old(fs.fds)[i].score)
    ensures Mapless(old(fs.fds)) ==> Mapless(fs.fds)
    ensures !removeFull ==>
      var top, stock := TopIx(fs.g, Length(old(fs.fds)[fdi].size)), old(fs.Stock(OwnSlots(dir0, o)));
      && (stock.hold > top + 1 ==> (res == OK <==> stock.left > top))
      && (old(fs.Spare()) >= top + 1 ==> res == OK && fs.Spare() >= old(fs.Spare()) - top - 1)
      && SameOpen(old(fs.fds), fs.fds)
      && (res != OK ==> !fs.CanTake() && FileIO.Harmed(fs.g, m0, fs.flash, loss, dir, fs.fds, o))
      && (res == OK ==>
           && Emptied(fs.g, old(fs.flash), dir0, fs.flash, dir, fs.fds, o)
           && OpenFile(fs.g, Meaning(fs.flash, dir), fs.fds, fdi) && Length(fs.fds[fdi].size) == 0
           && (MapsOk(dir0, old(fs.fds)) ==> (MapsOk(dir, fs.fds) <==> BlankMaps(fs.fds, o))))
  {
    hide Spiffs.Spare;
    hide FreeSuffix;
    hide Removed;
    hide CursorOk;
    hide All;
    hide FreeBlocks;
    hide ErasedFree;
    hide DeadMarked;
    hide Linked;
    hide FdsOk;
    hide FdsTrack;
    hide Geometry.Total;
    hide Geometry.BlockStart;
    hide IxSpan;
    hide IxEntry;
    hide Quot;
    hide Rem;
    hide Meaning;
    hide EventFd;
    hide Shrunk;
    hide Seen;
    hide PageCount;
    hide TopIx;
    hide OnlyDrops;
    hide Trimming;
    hide Trimmed;
    hide Extent;
    hide ProgramPage;
    hide Apart;
    hide HeaderHas;
    hide FirstStored;
    hide FileIO.Harmed;
    hide Spiffs.CanTake;
    hide SameOpen;
    hide MapsOk;
    hide Mapless;
    hide BlankMaps;
    hide Spiffs.Stock;
    hide AllWords;
    hide DataPages;
    hide IndexPages;
    hide TailErased;
    hide Ahead;
    hide OwnSlots;
    var g := fs.g;
    res, dir, loss := OK, dir0, NoLoss;
    OpenRefl(fs.fds);
    AheadAll(dir, o);
    OwnerKept(g, fs.flash, dir, fs.flash, dir, fs.fds, fs.fds, fdi, o);
    var size: nat := if fs.fds[fdi].size < 0 then 0 else fs.fds[fdi].size;
    MarkHeader(g, fs.flash, fs.fds, fdi, dir, o, size, removeFull);
    if !removeFull {
      SameSized(g, fs.flash, dir, fs.fds, fs.flash, dir, fs.fds, fdi, o, size);
    }
    var t: nat, hdr: nat, work: Page := fs.fds[fdi].hdr, fs.fds[fdi].hdr, ERASED;
    if removeFull {
      fs.WritePage(hdr, Page(-1, -1, REMOVE_FLAGS, Blank));
    }
    ghost var marked := fs.flash;
    var prev;
    res, t, work, prev, dir := DeletePages(fs, fdi, size, removeFull, dir, m0, o, dir0);
    ghost var before, dir2, fds2 := fs.flash, dir, fs.fds;
    if res == OK {
      res, loss, dir := Conclude(fs, fdi, removeFull, t, work, prev, dir, m0, o);
      ApartOn(dir0, old(fs.fds), dir2, fds2, dir, fs.fds, o);
      if removeFull {
        DropsJoin(old(fs.flash), marked, before, o, hdr);
        DropsJoin(old(fs.flash), before, fs.flash, o, hdr);
        RemovedAll(g, old(fs.flash), dir0, old(fs.fds), fds2, fs.flash, dir, fs.fds, o, hdr);
        RemovedClosed(g, old(fs.flash), dir0, old(fs.fds), fs.flash, dir, fs.fds, o);
        RemovedMaps(dir0, old(fs.fds), dir, fs.fds, o);
        ApartClosed(dir0, old(fs.fds), dir, fs.fds, o);
      } else {
        OpenJoin(old(fs.fds), fds2, fs.fds);
        if res == OK {
          TruncatedMaps(g, Meaning(fs.flash, dir), dir0, old(fs.fds), fs.flash, dir, fs.fds, o);
        }
      }
    }
    if Mapless(old(fs.fds)) {
      MaplessApart(dir0, old(fs.fds), dir, fs.fds, o);
    }
  }

  /** Truncates an open file to nothing, or removes it. Removing cannot fail, whatever the room:
      it only deletes. A truncation fails if there is no room, or where no page can be had for a
      header; then the file is not in order, and no other object changed. */
  method Truncate(fs: Spiffs, fdi: nat, removeFull: bool, maxCandidates: nat, ghost dir0: Dir)
    returns (res: Status, ghost room: bool, ghost stock: Supply, ghost loss: Loss, ghost dir: Dir)
    requires fs.Valid() && !fs.cleaning && maxCandidates > 0
    requires Consistent(fs.g, fs.flash, dir0, fs.fds) && fdi < |fs.fds|
    requires !removeFull ==> fs.fds[fdi].score != 0
    requires Owner(dir0, fs.fds, fdi, ObjectId(fs.fds[fdi].objId)) && IsFile(fs.g, Meaning(fs.flash, dir0), ObjectId(fs.fds[fdi].objId), Length(fs.fds[fdi].size))
    modifies fs`flash, fs`log, fs`freeBlocks, fs`maxEraseCount, fs`pagesDeleted, fs`pagesAllocated
    modifies fs`freeCursorBlock, fs`freeCursorEntry, fs`fds, fs`cursorBlock, fs`cursorEntry, fs`cleaning
    ensures Lower(res)
    ensures fs.Valid() && !fs.cleaning && fs.Drift() >= old(fs.Drift())
    ensures removeFull ==>
      && res == OK && Removed(fs.g, old(fs.flash), dir0, old(fs.fds), fs.flash, dir, fs.fds, ObjectId(old(fs.fds)[fdi].objId))
      && unchanged(fs`freeBlocks, fs`maxEraseCount, fs`freeCursorBlock, fs`freeCursorEntry)
    ensures !removeFull && old(fs.Spare()) >= TopIx(fs.g, Length(old(fs.fds)[fdi].size)) + Plenty(fs.g) + 1 ==> res == OK && fs.Spare() >= old(fs.Spare()) - TopIx(fs.g, Length(old(fs.fds)[fdi].size)) - 1
    ensures removeFull ==> MapsKept(dir0, old(fs.fds), dir, fs.fds)
    ensures removeFull ==> forall i :: 0 <= i < |old(fs.fds)| && old(fs.fds)[i].fileNbr == 0 ==> i < |fs.fds| && fs.fds[i].fileNbr == 0
    ensures removeFull ==> |fs.fds| == |old(fs.fds)| && forall i :: 0 <= i < |fs.fds| ==> fs.fds[i].score == old(fs.fds)[i].score
    ensures !removeFull && old(fs.fds)[fdi].size <= 0 ==> res == OK && unchanged(fs) && dir == dir0
    ensures res == OK ==> room
    ensures !room ==> Survived(fs.g, old(fs.flash), dir0, old(fs.fds), fs.flash, loss, dir, fs.fds)
    ensures !room && res == ERR_FULL ==> !Reclaim.Holds(fs.g, fs.flash.lu, fs.g.dps * 2)
    ensures !removeFull && old(Reclaim.Ample(fs, fs.g.dps * 2)) ==> room
    ensures room && res != OK ==> !fs.CanTake() && SameOpen(old(fs.fds), fs.fds)
    ensures room && res != OK ==> FileIO.Harmed(fs.g, Meaning(old(fs.flash), dir0), fs.flash, loss, dir, fs.fds, ObjectId(old(fs.fds)[fdi].objId))
    ensures !removeFull && room && old(fs.fds)[fdi].size > 0 ==>
      var top := TopIx(fs.g, Length(old(fs.fds)[fdi].size)); stock.hold > top + 1 ==> (res == OK <==> stock.left > top)
    ensures !removeFull && old(fs.freeBlocks) > 3 && 2 * fs.g.dps < old(Reclaim.FreePages(fs)) * fs.g.dps ==>
      room && stock == old(fs.Stock(OwnSlots(dir0, ObjectId(fs.fds[fdi].objId))))
    ensures !removeFull && old(fs.fds)[fdi].size > 0 && old(Reclaim.Idles(fs, fs.g.dps * 2)) ==>
      room && stock.left == 0 && stock.hold + |OwnKeys(dir0, ObjectId(old(fs.fds)[fdi].objId))| >= fs.g.n
    ensures Mapless(old(fs.fds)) ==> Mapless(fs.fds)
    ensures !removeFull && res == OK && MapsOk(dir0, old(fs.fds)) && old(fs.fds)[fdi].size > 0 ==>
      (MapsOk(dir, fs.fds) <==> BlankMaps(fs.fds, ObjectId(old(fs.fds)[fdi].objId)))
    ensures !removeFull && res == OK ==>
      && Emptied(fs.g, old(fs.flash), dir0, fs.flash, dir, fs.fds, ObjectId(old(fs.fds)[fdi].objId))
      && OpenFile(fs.g, Meaning(fs.flash, dir), fs.fds, fdi) && SameOpen(old(fs.fds), fs.fds) && Length(fs.fds[fdi].size) == 0
  {
    hide Plenty;
    hide Spiffs.Spare;
    hide FreeSuffix;
    hide Removed;
    hide CursorOk;
    hide All;
    hide FreeBlocks;
    hide ErasedFree;
    hide DeadMarked;
    hide Linked;
    hide FdsOk;
    hide FdsTrack;
    hide Geometry.Total;
    hide Geometry.BlockStart;
    hide IxSpan;
    hide IxEntry;
    hide Quot;
    hide Rem;
    hide Meaning;
    hide EventFd;
    hide Shrunk;
    hide Seen;
    hide PageCount;
    hide TopIx;
    hide OnlyDrops;
    hide Trimming;
    hide Trimmed;
    hide Extent;
    hide ProgramPage;
    hide Apart;
    hide HeaderHas;
    hide FirstStored;
    hide FileIO.Harmed;
    hide Spiffs.CanTake;
    hide SameOpen;
    hide MapsOk;
    hide Mapless;
    hide BlankMaps;
    hide Survived;
    hide Spiffs.Stock;
    hide AllWords;
    hide DataPages;
    hide IndexPages;
    hide TailErased;
    hide Ahead;
    hide OwnSlots;
    hide Reclaim.Ample;
    hide Reclaim.Holds;
    hide Reclaim.Idles;
    hide Undeleted;
    hide OwnKeys;
    hide Reclaim.FreePages;
    var g, o := fs.g, ObjectId(fs.fds[fdi].objId);
    ghost var m0, len := Meaning(fs.flash, dir0), Length(fs.fds[fdi].size);
    res, dir, loss, room, stock := OK, dir0, NoLoss, true, fs.Stock(OwnSlots(dir0, o));
    OpenRefl(fs.fds);
    if fs.fds[fdi].size <= 0 && !removeFull {
      AlreadyEmpty(g, fs.flash, dir, fs.fds, o);
      StillEmpty(g, fs.flash, fs.fds, fdi, dir, o);
      return;
    }
    if !removeFull {
      res, loss, dir := TruncateRoom(fs, maxCandidates, dir, o);
      if res != OK {
        room := false;
        return;
      }
    }
    ghost var mid, dir1, fds1 := fs.flash, dir, fs.fds;
    OwnerKept(g, old(fs.flash), dir0, fs.flash, dir, old(fs.fds), fs.fds, fdi, o);
    SameScore(old(fs.fds), fs.fds, fdi);
    stock := fs.Stock(OwnSlots(dir, o));
    res, loss, dir := TruncatePages(fs, fdi, removeFull, dir, m0, o);
    OpenJoin(old(fs.fds), fds1, fs.fds);
    if !removeFull && res == OK {
      EmptiedFrom(g, old(fs.flash), dir0, mid, dir1, fs.flash, dir, fs.fds, o);
    }
  }

  lemma SameScore(a: seq<Fd>, b: seq<Fd>, i: nat)
    requires SameOpen(a, b) && i < |a|
    ensures i < |b| && b[i].score == a[i].score
  {
  }

  lemma EmptiedFrom(g: Geometry, u: Flash, dir0: Dir, v: Flash, dir1: Dir, w: Flash, dir: Dir, fds: seq<Fd>, o: int)
    requires g.Valid() && Emptied(g, v, dir1, w, dir, fds, o) && Meaning(u, dir0) == Meaning(v, dir1)
    ensures Emptied(g, u, dir0, w, dir, fds, o)
  {
  }

  lemma ApartClosed(dir: Dir, fds: seq<Fd>, dir': Dir, fds': seq<Fd>, o: int)
    requires Apart(dir, fds, dir', fds', o) && forall i :: 0 <= i < |fds'| && i < |fds| && ObjectId(fds[i].objId) == o ==> fds'[i].fileNbr == 0
    ensures forall i :: 0 <= i < |fds| && fds[i].fileNbr == 0 ==> i < |fds'| && fds'[i].fileNbr == 0
    ensures |fds'| == |fds| && forall i :: 0 <= i < |fds| ==> fds'[i].score == fds[i].score
  {
  }

  lemma MaplessApart(dir: Dir, fds: seq<Fd>, dir': Dir, fds': seq<Fd>, o: int)
    requires Apart(dir, fds, dir', fds', o) && Mapless(fds)
    ensures Mapless(fds')
  {
    forall i | 0 <= i < |fds'|
      ensures fds'[i].win.None?
    {
      assert fds[i].win.None? && fds'[i].win == fds[i].win;
    }
  }

  lemma RemovedClosed(g: Geometry, v: Flash, dir0: Dir, fds0: seq<Fd>, w: Flash, dir: Dir, fds: seq<Fd>, o: int)
    requires Removed(g, v, dir0, fds0, w, dir, fds, o)
    ensures |fds| == |fds0| && forall i :: 0 <= i < |fds| && ObjectId(fds0[i].objId) == o ==> fds[i].fileNbr == 0
  {
  }

  lemma SurvivedParts(g: Geometry, v: Flash, dir0: Dir, fds0: seq<Fd>, w: Flash, loss: Loss, dir: Dir, fds: seq<Fd>)
    requires Survived(g, v, dir0, fds0, w, loss, dir, fds)
    ensures SameOpen(fds0, fds) && (Mapless(fds0) ==> Mapless(fds))
    ensures loss == NoLoss ==> Consistent(g, w, dir, fds) && Meaning(w, dir) == Meaning(v, dir0) && (MapsOk(dir0, fds0) ==> MapsOk(dir, fds))
  {
    hide Consistent;
  }

  lemma StillEmpty(g: Geometry, fl: Flash, fds: seq<Fd>, fdi: nat, dir: Dir, o: int)
    requires g.Valid() && fdi < |fds| && Owner(dir, fds, fdi, o) && fds[fdi].score != 0 && IsFile(g, Meaning(fl, dir), o, Length(fds[fdi].size)) && fds[fdi].size <= 0
    ensures OpenFile(g, Meaning(fl, dir), fds, fdi) && Length(fds[fdi].size) == 0
  {
    hide Extent;
  }

  /** The descriptor that owns the file knows the length the header has. */
  lemma SameSized(g: Geometry, v: Flash, dir0: Dir, fds0: seq<Fd>, w: Flash, dir: Dir, fds: seq<Fd>, fdi: nat, o: int, size: nat)
    requires g.Valid() && fdi < |fds| && Linked(g, w, dir) && Owner(dir, fds, fdi, o) && size == Length(fds[fdi].size) && IsFile(g, Meaning(w, dir), o, size) && size > 0
    ensures HeaderHas(w, dir, o, size)
  {
    hide Linked;
    hide Extent;
    FileHead(g, Meaning(w, dir), o, size);
    HeldLoad(g, w, dir, o, 0);
    HeldPage(g, w, dir, o, 0, fds[fdi].hdr, w.pages[fds[fdi].hdr]);
  }
}
