/** Reading and writing a file at a position: the bytes of the file as one sequence. */
module FileIO {
  import opened Words
  import opened Layout
  import opened Medium
  import opened Directory
  import opened Tally
  import opened Store
  import opened Collector
  import opened Files
  import opened Holding
  import opened Appending
  import opened Modifying
  import opened Plans
  import opened Window
  import opened Maps
  import opened Following
  import Reclaim

  function Min(a: int, b: int): int {
    if a < b then a else b
  }

  /** The data page of position `p`, found through the index, holds the byte of that position. */
  lemma ByteOnFlash(g: Geometry, fl: Flash, dir: Dir, o: int, len: nat, p: nat)
    requires g.Valid() && Linked(g, fl, dir) && IsFile(g, Meaning(fl, dir), o, len) && p < len
    ensures var q := Quot(p, g.dps);
      && Key(o, q) in dir && 0 <= dir[Key(o, q)] < |fl.pages|
      && DataCheck(g, fl, dir[Key(o, q)], o, q) == OK
      && fl.pages[dir[Key(o, q)]].body.Data? && |fl.pages[dir[Key(o, q)]].body.bytes| == g.dps
      && fl.pages[dir[Key(o, q)]].body.bytes[Rem(p, g.dps)] == ByteAt(g, Meaning(fl, dir), o, p)
  {
    hide RefsLead;
    hide DataReferred;
    hide Quot;
    hide Rem;
    hide PageCount;
    hide TailErased;
    var m := Meaning(fl, dir);
    var x := Key(o, Quot(p, g.dps));
    InsideFile(g, m, o, len, p);
    assert KeyAt(fl, dir[x]) == x && GoodPage(g, o, fl.pages[dir[x]]);
  }

  lemma SameDataPage(g: Geometry, fl: Flash, dir: Dir, o: int, len: nat, p: nat, w: nat)
    requires g.Valid() && Linked(g, fl, dir) && IsFile(g, Meaning(fl, dir), o, len) && p + w <= len && 0 < w <= g.dps - Rem(p, g.dps)
    ensures var x, r := Key(o, Quot(p, g.dps)), Rem(p, g.dps);
      && x in dir && 0 <= dir[x] < |fl.pages| && fl.pages[dir[x]].body.Data? && |fl.pages[dir[x]].body.bytes| == g.dps
      && fl.pages[dir[x]].body.bytes[r..r + w] == Contents(g, Meaning(fl, dir), o, len)[p..p + w]
  {
    hide Linked;
    hide IsFile;
    hide Quot;
    hide Rem;
    hide Meaning;
    ByteOnFlash(g, fl, dir, o, len, p);
    var x, r := Key(o, Quot(p, g.dps)), Rem(p, g.dps);
    forall y: nat | p <= y < p + w
      ensures fl.pages[dir[x]].body.bytes[r + (y - p)] == ByteAt(g, Meaning(fl, dir), o, y)
    {
      InPage(g, p, y);
      ByteOnFlash(g, fl, dir, o, len, y);
    }
    assert fl.pages[dir[x]].body.bytes[r..r + w] == Contents(g, Meaning(fl, dir), o, len)[p..p + w];
  }

  lemma WindowEntry(dir: Dir, o: int, start: nat, buf: seq<int>, i: nat)
    requires Agrees(dir, o, start, buf) && i < |buf| && buf[i] != NONE
    ensures Key(o, start + i) in dir && dir[Key(o, start + i)] == buf[i]
  {
    assert EntryOk(dir, o, start + i, buf[i]);
  }

  /** The reference to the data page of position `p`, in the index page that covers it. */
  lemma PageUnder(g: Geometry, fl: Flash, dir: Dir, o: int, len: nat, p: nat)
    requires g.Valid() && Linked(g, fl, dir) && IsFile(g, Meaning(fl, dir), o, len) && p < len
    ensures var q, x := Quot(p, g.dps), Key(IndexId(o), IxSpan(g, Quot(p, g.dps)));
      && Key(o, q) in dir && x in dir && IxEntry(g, q) < |RefsAt(fl, dir, x)| && RefsAt(fl, dir, x)[IxEntry(g, q)] == dir[Key(o, q)]
  {
    hide Quot;
    hide Rem;
    hide IxSpan;
    hide IxEntry;
    hide PageCount;
    hide TailErased;
    hide TopIx;
    ByteOnFlash(g, fl, dir, o, len, p);
    UnderTop(g, len, p);
    var k := IxSpan(g, Quot(p, g.dps));
    assert Key(IndexId(o), k) in Meaning(fl, dir);
    LinkedRefs(g, fl, dir, o, k);
  }

  /** Index page `k` of a file is where the descriptor or the directory says. */
  lemma IndexOnFlash(g: Geometry, fl: Flash, fds: seq<Fd>, fdi: nat, dir: Dir, o: int, len: nat, k: nat)
    requires g.Valid() && Consistent(g, fl, dir, fds) && Writer(fds, fdi, o) && IsFile(g, Meaning(fl, dir), o, len) && k <= TopIx(g, len)
    ensures var x := Key(IndexId(o), k);
      && x in dir && 0 <= dir[x] < |fl.pages| && RefsOf(fl.pages[dir[x]].body) == RefsAt(fl, dir, x)
      && ValidateObjIx(fl.pages[dir[x]], IndexId(o), k) == OK
      && (fds[fdi].cursorSpan == k ==> fds[fdi].cursorPix == dir[x])
      && (k == 0 ==> fds[fdi].hdr == dir[x])
    ensures forall t :: Key(IndexId(o), k) in dir && t == dir[Key(IndexId(o), k)] ==>
      && Consistent(g, fl, dir, fds[fdi := fds[fdi].(cursorPix := t, cursorSpan := k)])
      && Writer(fds[fdi := fds[fdi].(cursorPix := t, cursorSpan := k)], fdi, o)
  {
    hide Linked;
    hide TopIx;
    hide PageCount;
    hide FdsOk;
    var x, m := Key(IndexId(o), k), Meaning(fl, dir);
    assert x in m;
    HeldLoad(g, fl, dir, o, k);
    HeldPage(g, fl, dir, o, k, dir[x], fl.pages[dir[x]]);
    OwnHeader(m, dir, fds, fdi, o);
    CursorMoved(m, dir, fds, fdi, o, k, dir[x]);
  }

  /** Loads index page `k` for reading. */
  method FetchIndex(fs: Spiffs, fdi: nat, k: nat, o: int, ghost len: nat, ghost dir: Dir)
    returns (res: Status, refs: seq<int>)
    requires fs.Valid() && Consistent(fs.g, fs.flash, dir, fs.fds) && Writer(fs.fds, fdi, o) && fdi < |fs.fds|
    requires IsFile(fs.g, Meaning(fs.flash, dir), o, len) && k <= TopIx(fs.g, len)
    modifies fs`fds, fs`cursorBlock, fs`cursorEntry
    ensures fs.Valid() && Consistent(fs.g, fs.flash, dir, fs.fds) && Writer(fs.fds, fdi, o) && Followed(dir, old(fs.fds), dir, fs.fds, fdi, len)
    ensures fdi < |fs.fds| && fs.fds[fdi].size == old(fs.fds)[fdi].size && fs.fds[fdi].win == old(fs.fds)[fdi].win
    ensures res == OK && Key(IndexId(o), k) in dir && refs == RefsAt(fs.flash, dir, Key(IndexId(o), k))
  {
    hide FreeSuffix;
    hide CursorOk;
    hide All;
    hide FreeBlocks;
    hide ErasedFree;
    hide DeadMarked;
    hide Linked;
    hide FdsOk;
    hide Geometry.Total;
    hide Meaning;
    hide TopIx;
    hide Extent;
    hide GoodPage;
    hide Followed;
    FollowRefl(dir, fs.fds, fdi, len);
    var objId, pix := fs.fds[fdi].objId, 0;
    IndexOnFlash(fs.g, fs.flash, fs.fds, fdi, dir, o, len, k);
    if k == 0 {
      res, pix := OK, fs.fds[fdi].hdr;
    } else if fs.fds[fdi].cursorSpan == k {
      res, pix := OK, fs.fds[fdi].cursorPix;
    } else {
      MatchIsFiled(fs.g, fs.flash, dir, objId, k);
      res, pix := fs.FindIdAndSpan(objId, k);
    }
    if res == OK {
      var page := fs.flash.pages[pix];
      res := ValidateObjIx(page, objId, k);
      if res == OK {
        FollowOwn(dir, fs.fds, fdi, fs.fds[fdi].(cursorPix := pix, cursorSpan := k), len);
        fs.fds := fs.fds[fdi := fs.fds[fdi].(cursorPix := pix, cursorSpan := k)];
        refs := RefsOf(page.body);
      }
    }
  }

  /** The data page of span `span`: from the window where it is populated, from the index page that
      covers it otherwise. `prev` is the index page loaded last, -1 when there is none. */
  method FindPage(fs: Spiffs, fdi: nat, span: nat, prev0: int, refs0: seq<int>, o: int, ghost n: nat, ghost p: nat, ghost dir: Dir)
    returns (res: Status, pix: int, prev: int, refs: seq<int>)
    requires fs.Valid() && Consistent(fs.g, fs.flash, dir, fs.fds) && Writer(fs.fds, fdi, o) && fdi < |fs.fds|
    requires IsFile(fs.g, Meaning(fs.flash, dir), o, n) && p < n && span == Quot(p, fs.g.dps)
    requires MapOk(dir, fs.fds[fdi])
    requires prev0 >= 0 ==> Key(IndexId(o), prev0) in dir && refs0 == RefsAt(fs.flash, dir, Key(IndexId(o), prev0))
    modifies fs`fds, fs`cursorBlock, fs`cursorEntry
    ensures fs.Valid() && Consistent(fs.g, fs.flash, dir, fs.fds) && Writer(fs.fds, fdi, o) && Followed(dir, old(fs.fds), dir, fs.fds, fdi, n)
    ensures fdi < |fs.fds| && fs.fds[fdi].size == old(fs.fds)[fdi].size && fs.fds[fdi].win == old(fs.fds)[fdi].win
    ensures res == OK && Key(o, span) in dir && pix == dir[Key(o, span)]
    ensures prev >= 0 ==> Key(IndexId(o), prev) in dir && refs == RefsAt(fs.flash, dir, Key(IndexId(o), prev))
  {
    hide FreeSuffix;
    hide CursorOk;
    hide All;
    hide FreeBlocks;
    hide ErasedFree;
    hide DeadMarked;
    hide Linked;
    hide FdsOk;
    hide DataCheck;
    hide Geometry.Total;
    hide IxSpan;
    hide IxEntry;
    hide Quot;
    hide Rem;
    hide Meaning;
    hide TopIx;
    hide Extent;
    hide Agrees;
    hide GoodPage;
    hide Followed;
    hide Contiguous;
    res, prev, refs := OK, prev0, refs0;
    var win := fs.fds[fdi].win;
    FollowRefl(dir, fs.fds, fdi, n);
    ByteOnFlash(fs.g, fs.flash, dir, o, n, p);
    if win.Some? && win.value.start <= span < win.value.start + |win.value.entries| && win.value.entries[span - win.value.start] != NONE {
      pix := win.value.entries[span - win.value.start];
      WindowEntry(dir, o, win.value.start, win.value.entries, span - win.value.start);
    } else {
      var k := IxSpan(fs.g, span);
      PageUnder(fs.g, fs.flash, dir, o, n, p);
      if prev != k {
        UnderTop(fs.g, n, p);
        res, refs := FetchIndex(fs, fdi, k, o, n, dir);
        prev := k;
      }
      pix := refs[IxEntry(fs.g, span)];
    }
  }

  /** Reads `len` bytes of a file from `offset` on, through the window of the descriptor where it
      is populated and through the index otherwise: exactly those bytes of the file. */
  method Read(fs: Spiffs, fdi: nat, offset: nat, len: nat, ghost dir: Dir)
    returns (res: Status, bytes: seq<int>)
    requires fs.Valid() && Consistent(fs.g, fs.flash, dir, fs.fds) && OpenFile(fs.g, Meaning(fs.flash, dir), fs.fds, fdi)
    requires offset + len <= Length(fs.fds[fdi].size)
    requires MapOk(dir, fs.fds[fdi])
    modifies fs`fds, fs`cursorBlock, fs`cursorEntry
    ensures fs.Valid() && Consistent(fs.g, fs.flash, dir, fs.fds)
    ensures Followed(dir, old(fs.fds), dir, fs.fds, fdi, Length(old(fs.fds)[fdi].size))
    ensures fdi < |fs.fds| && fs.fds[fdi].size == old(fs.fds)[fdi].size && fs.fds[fdi].win == old(fs.fds)[fdi].win
    ensures res == OK
    ensures bytes == Contents(fs.g, Meaning(fs.flash, dir), ObjectId(old(fs.fds)[fdi].objId), Length(old(fs.fds)[fdi].size))[offset..offset + len]
  {
    hide FreeSuffix;
    hide Contents;
    hide DataCheck;
    hide CursorOk;
    hide All;
    hide FreeBlocks;
    hide ErasedFree;
    hide DeadMarked;
    hide Linked;
    hide FdsOk;
    hide Geometry.Total;
    hide IxSpan;
    hide IxEntry;
    hide Quot;
    hide Rem;
    hide Meaning;
    hide TopIx;
    hide Extent;
    hide Agrees;
    hide GoodPage;
    hide Followed;
    hide Contiguous;
    var g, o := fs.g, ObjectId(fs.fds[fdi].objId);
    var objId, size := fs.fds[fdi].objId, fs.fds[fdi].size;
    ghost var fl, m, n, win := fs.flash, Meaning(fs.flash, dir), Length(size), fs.fds[fdi].win;
    ghost var file := Contents(g, m, o, n);
    res, bytes := OK, [];
    FollowRefl(dir, fs.fds, fdi, n);
    var span, cur, prev: int, refs: seq<int> := Quot(offset, g.dps), offset, -1, [];
    while cur < offset + len && res == OK
      invariant fs.Valid() && Consistent(g, fl, dir, fs.fds) && Followed(dir, old(fs.fds), dir, fs.fds, fdi, n)
      invariant fdi < |fs.fds| && fs.fds[fdi].size == size && fs.fds[fdi].win == win && Writer(fs.fds, fdi, o)
      invariant offset <= cur <= offset + len && res == OK
      invariant cur < offset + len ==> span == Quot(cur, g.dps)
      invariant cur == offset || cur == offset + len || Rem(cur, g.dps) == 0
      invariant prev >= 0 ==> Key(IndexId(o), prev) in dir && refs == RefsAt(fl, dir, Key(IndexId(o), prev))
      invariant bytes == file[offset..cur]
      decreases offset + len - cur, res == OK
    {
      var pix: int;
      ghost var fds1 := fs.fds;
      ByteOnFlash(g, fl, dir, o, n, cur);
      res, pix, prev, refs := FindPage(fs, fdi, span, prev, refs, o, n, cur, dir);
      FollowOn(dir, old(fs.fds), dir, fds1, dir, fs.fds, fdi, n);
      var chunk := Min(Min(offset + len - cur, g.dps - Rem(cur, g.dps)), size);
      if chunk <= 0 {
        res := ERR_END_OF_OBJECT;
      } else {
        SameDataPage(g, fl, dir, o, n, cur, chunk);
        res := DataCheck(g, fs.flash, pix, o, span);
        if res == OK {
          var r := Rem(cur, g.dps);
          bytes := bytes + fs.flash.pages[pix].body.bytes[r..r + chunk];
          assert file[offset..cur] + file[cur..cur + chunk] == file[offset..cur + chunk];
          PagePosition(g, cur, chunk);
          cur := cur + chunk;
          span := span + 1;
        }
      }
    }
  }

  /** A byte sequence after `buf` was written at `off`. */
  function Written(c: seq<int>, off: nat, buf: seq<int>): (r: seq<int>)
    requires off <= |c|
    ensures |r| == if off + |buf| <= |c| then |c| else off + |buf|
  {
    c[..off] + buf + (if off + |buf| <= |c| then c[off + |buf|..] else [])
  }

  /** Object `o` was a file with content `c` and now has `c'`; nothing else changed but its pages. */
  ghost predicate FileChanged(g: Geometry, m: Image, m': Image, o: int, c: seq<int>, c': seq<int>)
    requires g.Valid()
  {
    && SameOthers(m, m', o)
    && Key(IndexId(o), 0) in m && m[Key(IndexId(o), 0)].Header? && Named(m', o, m[Key(IndexId(o), 0)].name)
    && IsFile(g, m', o, |c'|)
    && Contents(g, m, o, |c|) == c && Contents(g, m', o, |c'|) == c'
  }

  lemma ModifyThenAppend(g: Geometry, m0: Image, m1: Image, m2: Image, o: int, len: nat, off: nat, a: seq<int>, b: seq<int>)
    requires g.Valid() && off + |a| == len && Altered(g, m0, m1, o, len, off, a, len) && IsFile(g, m0, o, len)
    requires Appended(g, m1, m2, o, len, b, TopIx(g, len + |b|))
    ensures FileChanged(g, m0, m2, o, Contents(g, m0, o, len), Written(Contents(g, m0, o, len), off, a + b))
  {
    hide ByteAt;
    hide Extent;
    hide ExtentTop;
    AlterDone(g, m0, m1, o, len, off, a);
    var c := Contents(g, m0, o, len);
    HeaderSame(g, m0, m1, o, len, off, a, len);
    if |b| > 0 {
      assert Contents(g, m2, o, len + |b|) == c[..off] + a + b;
      assert Written(c, off, a + b) == c[..off] + a + b;
    } else {
      assert Written(c, off, a + b) == c[..off] + a;
      assert Contents(g, m1, o, len) == c[..off] + a;
    }
  }

  lemma HeaderSame(g: Geometry, m0: Image, m1: Image, o: int, len: nat, off: nat, data: seq<int>, n: nat)
    requires g.Valid() && Altered(g, m0, m1, o, len, off, data, n) && IsFile(g, m0, o, len)
    ensures Key(IndexId(o), 0) in m0 && Key(IndexId(o), 0) in m1 && m1[Key(IndexId(o), 0)] == m0[Key(IndexId(o), 0)] && m0[Key(IndexId(o), 0)].Header?
  {
  }

  lemma ModifyOnly(g: Geometry, m0: Image, m1: Image, o: int, len: nat, off: nat, a: seq<int>)
    requires g.Valid() && Altered(g, m0, m1, o, len, off, a, off + |a|) && IsFile(g, m0, o, len)
    ensures FileChanged(g, m0, m1, o, Contents(g, m0, o, len), Written(Contents(g, m0, o, len), off, a))
  {
    hide ByteAt;
    hide Extent;
    AlterDone(g, m0, m1, o, len, off, a);
    HeaderSame(g, m0, m1, o, len, off, a, off + |a|);
  }

  lemma AppendOnly(g: Geometry, m0: Image, m2: Image, o: int, len: nat, b: seq<int>)
    requires g.Valid() && IsFile(g, m0, o, len) && Appended(g, m0, m2, o, len, b, TopIx(g, len + |b|))
    ensures FileChanged(g, m0, m2, o, Contents(g, m0, o, len), Written(Contents(g, m0, o, len), len, b))
  {
    hide ByteAt;
    hide Extent;
    hide ExtentTop;
    assert Written(Contents(g, m0, o, len), len, b) == Contents(g, m0, o, len) + b;
  }

  /** A write took place: the file is as it was with `buf` at `offset`, or at its end if that is
      behind it; nothing else changed, and the descriptor knows the new length. */
  ghost predicate WriteDone(g: Geometry, v: Flash, dir0: Dir, fds0: seq<Fd>, w: Flash, dir: Dir, fds: seq<Fd>, fdi: nat, offset: nat, buf: seq<int>)
    requires g.Valid() && fdi < |fds0|
  {
    var o := ObjectId(fds0[fdi].objId);
    var c := Contents(g, Meaning(v, dir0), o, Length(fds0[fdi].size));
    var c' := Written(c, if offset < |c| then offset else |c|, buf);
    && Consistent(g, w, dir, fds) && OpenFile(g, Meaning(w, dir), fds, fdi)
    && FileChanged(g, Meaning(v, dir0), Meaning(w, dir), o, c, c')
    && ObjectId(fds[fdi].objId) == o && Length(fds[fdi].size) == |c'|
  }

  /** The spare pages that a write may need, whatever part of it changes the file and whatever part
      extends it. */
  function WriteNeed(g: Geometry, off: nat, len: nat): int
    requires g.Valid() && len > 0
  {
    3 * Touched(g, off, len) + 6 + Plenty(g)
  }

  /** The part inside the file and the part behind it touch at most one page twice. */
  lemma NeedParts(g: Geometry, off: nat, a: nat, len: nat)
    requires g.Valid() && a <= len && len > 0
    ensures a > 0 ==> 0 <= ModifyNeed(g, off, a) <= WriteNeed(g, off, len) - Plenty(g)
    ensures a < len ==> 0 <= AppendNeed(g, off + a, len - a) <= WriteNeed(g, off, len) - Plenty(g)
    ensures 0 < a < len ==> ModifyNeed(g, off, a) + AppendNeed(g, off + a, len - a) + Plenty(g) <= WriteNeed(g, off, len)
  {
    hide Quot;
    QuotMonotone(off, off + len - 1, g.dps);
    if a > 0 {
      QuotMonotone(off, off + a - 1, g.dps);
      QuotMonotone(off + a - 1, off + len - 1, g.dps);
    }
    if a < len {
      QuotMonotone(off, off + a, g.dps);
      QuotMonotone(off + a, off + len - 1, g.dps);
      if a > 0 {
        QuotMonotone(off + a - 1, off + a, g.dps);
      }
    }
  }

  /** The descriptors of other objects than `o` agree with the medium. */
  ghost predicate FdsBut(m: Image, dir: Dir, fds: seq<Fd>, o: int) {
    forall i :: 0 <= i < |fds| ==> ObjectId(fds[i].objId) != o ==> FdOk(m, dir, fds[i])
  }

  /** Object `o` had content `c` and now is a well-formed file with content `c'`; nothing else changed
      and the descriptors of other objects agree. */
  ghost predicate Became(g: Geometry, m0: Image, fl: Flash, dir: Dir, fds: seq<Fd>, o: int, c: seq<int>, c': seq<int>)
    requires g.Valid()
  {
    Linked(g, fl, dir) && FileChanged(g, m0, Meaning(fl, dir), o, c, c') && FdsBut(Meaning(fl, dir), dir, fds, o)
  }

  /** The object that is harmed: the one that lost an index page, if any did, and otherwise `o`. */
  function Hurt(fl: Flash, loss: Loss, o: int): int {
    if loss.Unstored? then Loser(fl, loss) else o
  }

  /** Object `o` is not in order: it lost an index page, and some page of it is out of place, or it is no
      file of any length. Every other object is as it was, with all its pages in place. */
  ghost predicate Harmed(g: Geometry, m0: Image, fl: Flash, loss: Loss, dir: Dir, fds: seq<Fd>, o: int)
    requires g.Valid()
  {
    && RealLoss(fl, loss) && Linked(g, Mended(fl, loss), dir)
    && SameOthers(m0, Meaning(fl, dir), o) && FdsBut(Meaning(fl, dir), dir, fds, o)
    && (forall a :: a != o ==> Intact(g, fl, dir, a))
    && if loss.Unstored? then o == Loser(fl, loss) && !Intact(g, fl, dir, o) else forall n: nat :: !IsFile(g, Meaning(fl, dir), o, n)
  }

  /** An object that is not in order is no file, whatever directory one looks for. */
  lemma HarmedExact(g: Geometry, m0: Image, fl: Flash, loss: Loss, dir: Dir, fds: seq<Fd>, o: int, d: Dir, n: nat)
    requires g.Valid() && Harmed(g, m0, fl, loss, dir, fds, o)
    ensures !(Linked(g, fl, d) && IsFile(g, Meaning(fl, d), o, n))
  {
    hide Linked;
    hide IsFile;
    hide Intact;
    hide RealLoss;
    if loss.Unstored? {
      LossShows(g, fl, dir, loss, d);
    } else if Linked(g, fl, d) {
      OneDir(g, fl, dir, d);
    }
  }

  /** But for the object that lost it, a lost index page concerns no one. */
  lemma LossHides(g: Geometry, fl: Flash, loss: Loss, dir: Dir, fds: seq<Fd>)
    requires RealLoss(fl, loss) && Linked(g, Mended(fl, loss), dir) && loss.Unstored?
    ensures 1 <= Loser(fl, loss) <= MAX_ID
    ensures SameOthers(Meaning(Mended(fl, loss), dir), Meaning(fl, dir), Loser(fl, loss))
    ensures FdsBut(Meaning(Mended(fl, loss), dir), dir, fds, Loser(fl, loss)) ==> FdsBut(Meaning(fl, dir), dir, fds, Loser(fl, loss))
  {
    hide RefsLead;
    hide DataReferred;
    hide Headed;
    hide ErasedFree;
    var v, o := Mended(fl, loss), Loser(fl, loss);
    assert GoodPage(g, v.lu[loss.t], v.pages[loss.t]);
    forall k: Key | k in dir && ObjectId(k.id) != o
      ensures Meaning(fl, dir)[k] == Meaning(v, dir)[k]
    {
      assert KeyAt(v, dir[k]) == k;
    }
    if FdsBut(Meaning(v, dir), dir, fds, o) {
      forall i | 0 <= i < |fds| && ObjectId(fds[i].objId) != o
        ensures FdOk(Meaning(fl, dir), dir, fds[i])
      {
        assert FdOk(Meaning(v, dir), dir, fds[i]);
      }
    }
  }

  lemma LostHarms(g: Geometry, m0: Image, fl: Flash, loss: Loss, dir: Dir, fds: seq<Fd>)
    requires g.Valid() && RealLoss(fl, loss) && loss.Unstored? && Linked(g, Mended(fl, loss), dir)
    requires SameOthers(m0, Meaning(Mended(fl, loss), dir), Loser(fl, loss)) && FdsBut(Meaning(Mended(fl, loss), dir), dir, fds, Loser(fl, loss))
    ensures Harmed(g, m0, fl, loss, dir, fds, Loser(fl, loss))
  {
    hide Linked;
    hide IsFile;
    hide RealLoss;
    hide Intact;
    hide FdsBut;
    hide Loser;
    LossHides(g, fl, loss, dir, fds);
    forall a: int
      ensures a != Loser(fl, loss) <==> Intact(g, fl, dir, a)
    {
      LossBreaks(g, fl, dir, loss, a);
    }
  }

  /** Without a loss, an object that is no file is harmed. */
  lemma UnfitHarms(g: Geometry, m0: Image, fl: Flash, dir: Dir, fds: seq<Fd>, o: int)
    requires g.Valid() && Linked(g, fl, dir) && SameOthers(m0, Meaning(fl, dir), o) && FdsBut(Meaning(fl, dir), dir, fds, o)
    requires forall n: nat :: !IsFile(g, Meaning(fl, dir), o, n)
    ensures Harmed(g, m0, fl, NoLoss, dir, fds, o)
  {
    hide Linked;
    hide IsFile;
    hide Intact;
    hide FdsBut;
    forall a: int
      ensures Intact(g, fl, dir, a)
    {
      LinkedIntact(g, fl, dir, a);
    }
  }

  lemma AlteredPrefix(g: Geometry, m0: Image, m: Image, o: int, len: nat, off: nat, data: seq<int>, w: nat)
    requires g.Valid() && w <= |data| && Altered(g, m0, m, o, len, off, data, off + w)
    ensures Altered(g, m0, m, o, len, off, data[..w], off + w)
  {
    hide ByteAt;
    hide IsFile;
  }

  lemma ButConsistent(g: Geometry, fl: Flash, dir: Dir, fds: seq<Fd>, fds': seq<Fd>, fdi: nat, o: int)
    requires Consistent(g, fl, dir, fds) && fdi < |fds| == |fds'| && ObjectId(fds'[fdi].objId) == o
    requires forall i :: 0 <= i < |fds| && i != fdi ==> fds'[i] == fds[i]
    ensures FdsBut(Meaning(fl, dir), dir, fds', o)
  {
    hide Linked;
    forall i | 0 <= i < |fds'| && ObjectId(fds'[i].objId) != o
      ensures FdOk(Meaning(fl, dir), dir, fds'[i])
    {
      assert FdOk(Meaning(fl, dir), dir, fds[i]);
    }
  }

  /** A modification that stopped without a loss. */
  lemma ModifyKept(g: Geometry, m0: Image, fl: Flash, dir: Dir, fds: seq<Fd>, fdi: nat, pix: int, o: int, len: nat, off: nat, data: seq<int>, w: nat)
    requires g.Valid() && Modified(g, m0, fl, NoLoss, dir, fds, fdi, pix, o, len, off, data, off + w) && w <= |data| && IsFile(g, m0, o, len)
    ensures Became(g, m0, fl, dir, fds, o, Contents(g, m0, o, len), Written(Contents(g, m0, o, len), off, data[..w]))
  {
    hide Linked;
    hide FdsOk;
    hide Altered;
    hide IsFile;
    hide Contents;
    hide Written;
    AlteredPrefix(g, m0, Meaning(fl, dir), o, len, off, data, w);
    ModifyOnly(g, m0, Meaning(fl, dir), o, len, off, data[..w]);
    ButConsistent(g, fl, dir, fds[fdi := fds[fdi].(cursorPix := pix)], fds, fdi, o);
  }

  lemma ModifyHarmed(g: Geometry, m0: Image, fl: Flash, loss: Loss, dir: Dir, fds: seq<Fd>, fdi: nat, pix: int, o: int, len: nat, off: nat, data: seq<int>, n: nat)
    requires g.Valid() && Modified(g, m0, fl, loss, dir, fds, fdi, pix, o, len, off, data, n) && loss.Unstored?
    ensures Loser(fl, loss) == o && Harmed(g, m0, fl, loss, dir, fds, o)
  {
    hide Linked;
    hide FdsOk;
    hide IsFile;
    hide RealLoss;
    hide Harmed;
    ButConsistent(g, Mended(fl, loss), dir, fds[fdi := fds[fdi].(cursorPix := pix)], fds, fdi, o);
    LostHarms(g, m0, fl, loss, dir, fds);
  }

  /** Room could not be made: nothing changed, or a collection lost an index page. */
  lemma NoRoom(g: Geometry, v: Flash, dir0: Dir, fds0: seq<Fd>, fl: Flash, loss: Loss, dir: Dir, fds: seq<Fd>, o: int)
    requires g.Valid() && Survived(g, v, dir0, fds0, fl, loss, dir, fds)
    ensures if loss == NoLoss then Linked(g, fl, dir) && Meaning(fl, dir) == Meaning(v, dir0) && FdsBut(Meaning(fl, dir), dir, fds, o)
            else Harmed(g, Meaning(v, dir0), fl, loss, dir, fds, Loser(fl, loss))
  {
    hide Linked;
    hide RealLoss;
    hide Harmed;
    hide Calm;
    if loss != NoLoss {
      LostHarms(g, Meaning(v, dir0), fl, loss, dir, fds);
    }
  }

  /** An append that left the file in order, with the bytes its header counts. */
  lemma AppendKept(g: Geometry, m1: Image, fl: Flash, loss: Loss, dir: Dir, fds: seq<Fd>, fdi: nat, o: int, off: nat, data: seq<int>, n: nat, word: int, top: nat)
    requires g.Valid() && Ended(g, m1, fl, loss, dir, fds, fdi, o, off, data, n, word, top) && InOrder(g, off, data, n, word, top) && 1 <= o <= MAX_ID
    ensures off <= word <= n <= off + |data| && Linked(g, fl, dir) && Appended(g, m1, Meaning(fl, dir), o, off, data[..word - off], TopIx(g, word))
    ensures FdsBut(Meaning(fl, dir), dir, fds, o)
  {
    hide Linked;
    hide PageCount;
    hide TopIx;
    hide BlankBehind;
    hide RealLoss;
    hide ByteAt;
    hide TailErased;
    hide DataPages;
    hide IndexPages;
    EndedExact(g, fl, loss, dir, fds, fdi, m1, o, off, data, n, word, top);
    var m := Meaning(fl, dir);
    assert forall p: nat :: p < word ==> ByteAt(g, m, o, p) == if p < off then ByteAt(g, m1, o, p) else data[p - off];
    assert Contents(g, m, o, word) == Contents(g, m1, o, off) + data[..word - off];
  }

  lemma AppendHarmed(g: Geometry, m1: Image, fl: Flash, loss: Loss, dir: Dir, fds: seq<Fd>, fdi: nat, o: int, off: nat, data: seq<int>, n: nat, word: int, top: nat)
    requires g.Valid() && Ended(g, m1, fl, loss, dir, fds, fdi, o, off, data, n, word, top) && !InOrder(g, off, data, n, word, top) && 1 <= o <= MAX_ID
    ensures Hurt(fl, loss, o) == o && Harmed(g, m1, fl, loss, dir, fds, o)
  {
    hide PageCount;
    hide TopIx;
    hide BlankBehind;
    hide RealLoss;
    hide IsFile;
    hide Extent;
    hide ExtentTop;
    hide HeaderHas;
    hide Harmed;
    hide RefsLead;
    hide DataReferred;
    hide GoodPages;
    hide ErasedFree;
    EndedExact(g, fl, loss, dir, fds, fdi, m1, o, off, data, n, word, top);
    if loss.Unstored? {
      assert KeyAt(Mended(fl, loss), loss.t) == Key(IndexId(o), 0);
      LostHarms(g, m1, fl, loss, dir, fds);
    } else {
      forall len: nat
        ensures !IsFile(g, Meaning(fl, dir), o, len)
      {
        if IsFile(g, Meaning(fl, dir), o, len) {
          FileWord(g, fl, dir, o, len, word);
        }
      }
      UnfitHarms(g, m1, fl, dir, fds, o);
    }
  }

  lemma AppendedNone(g: Geometry, m: Image, o: int, len: nat, b: seq<int>)
    requires g.Valid() && IsFile(g, m, o, len)
    ensures Appended(g, m, m, o, len, b[..0], TopIx(g, len + 0))
  {
    assert Contents(g, m, o, len) == Contents(g, m, o, len) + b[..0];
  }

  lemma SurvivedOpen(g: Geometry, v: Flash, dir0: Dir, fds0: seq<Fd>, w: Flash, loss: Loss, dir: Dir, fds: seq<Fd>)
    requires Survived(g, v, dir0, fds0, w, loss, dir, fds)
    ensures SameOpen(fds0, fds) && (Mapless(fds0) ==> Mapless(fds))
  {
  }

  lemma OpenParts(g: Geometry, m: Image, fds: seq<Fd>, fdi: nat)
    requires g.Valid() && OpenFile(g, m, fds, fdi)
    ensures fdi < |fds| && 1 <= ObjectId(fds[fdi].objId) <= MAX_ID && Writer(fds, fdi, ObjectId(fds[fdi].objId)) && IsFile(g, m, ObjectId(fds[fdi].objId), Length(fds[fdi].size))
  {
  }

  /** The appending part of a write. */
  method AppendPart(fs: Spiffs, fdi: nat, offset: nat, data: seq<int>, maxCandidates: nat, ghost dir0: Dir)
    returns (res: Status, room: bool, ghost kept: nat, ghost sound: bool, ghost loss: Loss, ghost dir: Dir)
    requires fs.Valid() && !fs.cleaning && maxCandidates > 0 && |data| > 0
    requires Consistent(fs.g, fs.flash, dir0, fs.fds) && OpenFile(fs.g, Meaning(fs.flash, dir0), fs.fds, fdi)
    requires offset >= Length(fs.fds[fdi].size) && (fs.fds[fdi].size < 0 ==> offset == 0)
    modifies fs`flash, fs`log, fs`freeBlocks, fs`maxEraseCount, fs`pagesDeleted, fs`pagesAllocated
    modifies fs`freeCursorBlock, fs`freeCursorEntry, fs`fds, fs`cursorBlock, fs`cursorEntry, fs`cleaning
    ensures fs.Valid() && !fs.cleaning && fs.Drift() >= old(fs.Drift())
    ensures old(fs.Spare()) >= Plenty(fs.g) && old(fs.Spare()) >= AppendNeed(fs.g, Length(old(fs.fds)[fdi].size), |data|) ==> res == OK && fs.Spare() >= old(fs.Spare()) - AppendNeed(fs.g, Length(old(fs.fds)[fdi].size), |data|)
    ensures if room then res == OK || !fs.CanTake() else res == ERR_FULL ==> !Reclaim.Holds(fs.g, fs.flash.lu, |data| + fs.g.dps)
    ensures old(Reclaim.Ample(fs, |data| + fs.g.dps)) ==> room
    ensures SameOpen(old(fs.fds), fs.fds) && (Mapless(old(fs.fds)) ==> Mapless(fs.fds))
    ensures
      var o, len := ObjectId(old(fs.fds)[fdi].objId), Length(old(fs.fds)[fdi].size);
      && (res == OK ==> sound && kept == |data| && Consistent(fs.g, fs.flash, dir, fs.fds) && Writer(fs.fds, fdi, o))
      && (res == OK ==> Followed(dir0, old(fs.fds), dir, fs.fds, fdi, len))
      && kept <= |data| && (res == ERR_FULL && !room ==> sound && kept == 0)
      && (sound ==> Linked(fs.g, fs.flash, dir) && FdsBut(Meaning(fs.flash, dir), dir, fs.fds, o))
      && (sound ==> Appended(fs.g, Meaning(old(fs.flash), dir0), Meaning(fs.flash, dir), o, len, data[..kept], TopIx(fs.g, len + kept)))
      && (!sound ==> Harmed(fs.g, Meaning(old(fs.flash), dir0), fs.flash, loss, dir, fs.fds, Hurt(fs.flash, loss, o)))
  {
    hide FreeSuffix;
    hide CursorOk;
    hide All;
    hide FreeBlocks;
    hide ErasedFree;
    hide DeadMarked;
    hide Linked;
    hide FdsOk;
    hide Geometry.Total;
    hide Meaning;
    hide TopIx;
    hide PageCount;
    hide Extent;
    hide ExtentTop;
    hide Appended;
    hide Altered;
    hide Contents;
    hide Written;
    hide Ended;
    hide Modified;
    hide Followed;
    hide Survived;
    hide SameOpen;
    hide Mapless;
    hide MapsOk;
    hide InOrder;
    hide Harmed;
    hide FdsBut;
    hide Roomy;
    hide Reclaim.Jammed;
    hide Reclaim.Holds;
    hide Reclaim.Ample;
    hide Reclaim.FreePages;
    hide Spiffs.CanTake;
    hide Spiffs.Drift;
    ghost var v, fds0, m1, o, len := fs.flash, fs.fds, Meaning(fs.flash, dir0), ObjectId(fs.fds[fdi].objId), Length(fs.fds[fdi].size);
    OpenParts(fs.g, m1, fs.fds, fdi);
    var n;
    ghost var stage, stock, word, top, lu, free;
    res, n, room, stage, stock, loss, word, top, lu, free, dir := Append(fs, fdi, offset, data, maxCandidates, dir0);
    kept := 0;
    if !room {
      sound := loss == NoLoss;
      NoRoom(fs.g, v, dir0, fds0, fs.flash, loss, dir, fs.fds, o);
      AppendedNone(fs.g, m1, o, len, data);
      SurvivedOpen(fs.g, v, dir0, fds0, fs.flash, loss, dir, fs.fds);
    } else {
      FollowedOpen(dir0, fds0, dir, fs.fds, fdi, len);
      sound := InOrder(fs.g, len, data, len + n, word, top);
      if res == OK {
        WholeInOrder(fs.g, m1, fs.flash, loss, dir, fs.fds, fdi, o, len, data, word, top);
      }
      if sound {
        AppendKept(fs.g, m1, fs.flash, loss, dir, fs.fds, fdi, o, len, data, len + n, word, top);
        kept := word - len;
      } else {
        AppendHarmed(fs.g, m1, fs.flash, loss, dir, fs.fds, fdi, o, len, data, len + n, word, top);
      }
    }
  }

  lemma WholeInOrder(g: Geometry, m1: Image, fl: Flash, loss: Loss, dir: Dir, fds: seq<Fd>, fdi: nat, o: int, off: nat, data: seq<int>, word: int, top: nat)
    requires g.Valid() && Ended(g, m1, fl, loss, dir, fds, fdi, o, off, data, off + |data|, word, top) && word == off + |data| && top == TopIx(g, off + |data|) && |data| > 0
    ensures InOrder(g, off, data, off + |data|, word, top) && Writer(fds, fdi, o)
  {
    hide Linked;
    hide PageCount;
    hide TopIx;
    hide RealLoss;
    hide Grown;
    hide FdsTrack;
    hide HeaderHas;
  }

  /** The first part of a write changes what is there. */
  method ModifyPart(fs: Spiffs, fdi: nat, offset: nat, data: seq<int>, maxCandidates: nat, junk: int, ghost dir0: Dir)
    returns (res: Status, room: bool, ghost kept: nat, ghost sound: bool, ghost loss: Loss, ghost dir: Dir)
    requires fs.Valid() && !fs.cleaning && maxCandidates > 0 && |data| > 0
    requires Consistent(fs.g, fs.flash, dir0, fs.fds) && OpenFile(fs.g, Meaning(fs.flash, dir0), fs.fds, fdi)
    requires offset + |data| <= Length(fs.fds[fdi].size)
    modifies fs`flash, fs`log, fs`freeBlocks, fs`maxEraseCount, fs`pagesDeleted, fs`pagesAllocated
    modifies fs`freeCursorBlock, fs`freeCursorEntry, fs`fds, fs`cursorBlock, fs`cursorEntry, fs`cleaning
    ensures fs.Valid() && !fs.cleaning && fs.Drift() >= old(fs.Drift())
    ensures old(fs.Spare()) >= Plenty(fs.g) && old(fs.Spare()) >= ModifyNeed(fs.g, offset, |data|) ==> res == OK && fs.Spare() >= old(fs.Spare()) - ModifyNeed(fs.g, offset, |data|)
    ensures if room then res == OK || !fs.CanTake() else res == ERR_FULL ==> !Reclaim.Holds(fs.g, fs.flash.lu, |data| + fs.g.dps)
    ensures old(Reclaim.Ample(fs, |data| + fs.g.dps)) ==> room
    ensures SameOpen(old(fs.fds), fs.fds) && (Mapless(old(fs.fds)) ==> Mapless(fs.fds))
    ensures
      var m0, o, len := Meaning(old(fs.flash), dir0), ObjectId(old(fs.fds)[fdi].objId), Length(old(fs.fds)[fdi].size);
      && (res == OK ==> sound && kept == |data| && Consistent(fs.g, fs.flash, dir, fs.fds) && Writer(fs.fds, fdi, o))
      && (res == OK ==> Followed(dir0, old(fs.fds), dir, fs.fds, fdi, len))
      && (res == OK ==> Altered(fs.g, m0, Meaning(fs.flash, dir), o, len, offset, data, offset + |data|))
      && kept <= |data| && (res == ERR_FULL && !room ==> sound && kept == 0)
      && (sound ==> Became(fs.g, m0, fs.flash, dir, fs.fds, o, Contents(fs.g, m0, o, len), Written(Contents(fs.g, m0, o, len), offset, data[..kept])))
      && (!sound ==> Harmed(fs.g, m0, fs.flash, loss, dir, fs.fds, Hurt(fs.flash, loss, o)))
  {
    hide FreeSuffix;
    hide CursorOk;
    hide All;
    hide FreeBlocks;
    hide ErasedFree;
    hide DeadMarked;
    hide Linked;
    hide FdsOk;
    hide Geometry.Total;
    hide Meaning;
    hide TopIx;
    hide PageCount;
    hide Extent;
    hide ExtentTop;
    hide Appended;
    hide Altered;
    hide Contents;
    hide Written;
    hide Ended;
    hide Modified;
    hide Followed;
    hide Survived;
    hide SameOpen;
    hide Mapless;
    hide MapsOk;
    hide InOrder;
    hide Harmed;
    hide FdsBut;
    hide Roomy;
    hide Reclaim.Jammed;
    hide Reclaim.Holds;
    hide Reclaim.Ample;
    hide Reclaim.FreePages;
    hide Spiffs.CanTake;
    hide Spiffs.Drift;
    hide Became;
    hide ModifyNeed;
    ghost var v, fds0, m0, o, len := fs.flash, fs.fds, Meaning(fs.flash, dir0), ObjectId(fs.fds[fdi].objId), Length(fs.fds[fdi].size);
    OpenParts(fs.g, m0, fs.fds, fdi);
    var n;
    ghost var stage, stock, pix;
    res, n, room, stage, stock, loss, pix, dir := Modify(fs, fdi, offset, data, maxCandidates, junk, dir0);
    sound, kept := loss == NoLoss, n;
    if !room {
      NoRoom(fs.g, v, dir0, fds0, fs.flash, loss, dir, fs.fds, o);
      SurvivedOpen(fs.g, v, dir0, fds0, fs.flash, loss, dir, fs.fds);
      SameKept(fs.g, m0, fs.flash, dir, fs.fds, o, len, offset, data, loss);
    } else if sound {
      ModifyKept(fs.g, m0, fs.flash, dir, fs.fds, fdi, pix, o, len, offset, data, n);
      ModifiedParts(fs.g, m0, fs.flash, loss, dir, fs.fds, fdi, pix, o, len, offset, data, offset + n);
    } else {
      ModifyHarmed(fs.g, m0, fs.flash, loss, dir, fs.fds, fdi, pix, o, len, offset, data, offset + n);
    }
  }

  lemma ModifiedParts(g: Geometry, m0: Image, fl: Flash, loss: Loss, dir: Dir, fds: seq<Fd>, fdi: nat, pix: int, o: int, len: nat, off: nat, data: seq<int>, n: nat)
    requires g.Valid() && Modified(g, m0, fl, loss, dir, fds, fdi, pix, o, len, off, data, n) && loss == NoLoss
    ensures Writer(fds, fdi, o) && Altered(g, m0, Meaning(fl, dir), o, len, off, data, n)
  {
    hide Consistent;
    hide Altered;
  }

  lemma SameKept(g: Geometry, m0: Image, fl: Flash, dir: Dir, fds: seq<Fd>, o: int, len: nat, off: nat, data: seq<int>, loss: Loss)
    requires g.Valid() && IsFile(g, m0, o, len) && off <= len
    ensures Linked(g, fl, dir) && Meaning(fl, dir) == m0 && FdsBut(Meaning(fl, dir), dir, fds, o) ==>
      Became(g, m0, fl, dir, fds, o, Contents(g, m0, o, len), Written(Contents(g, m0, o, len), off, data[..0]))
  {
    hide Linked;
    hide FdsBut;
    hide Extent;
    FileHead(g, m0, o, len);
    assert Written(Contents(g, m0, o, len), off, data[..0]) == Contents(g, m0, o, len);
  }

  lemma AppendTo(g: Geometry, m0: Image, fl: Flash, dir: Dir, fds: seq<Fd>, o: int, len: nat, b: seq<int>)
    requires g.Valid() && IsFile(g, m0, o, len) && Linked(g, fl, dir) && FdsBut(Meaning(fl, dir), dir, fds, o)
    requires Appended(g, m0, Meaning(fl, dir), o, len, b, TopIx(g, len + |b|))
    ensures Became(g, m0, fl, dir, fds, o, Contents(g, m0, o, len), Written(Contents(g, m0, o, len), len, b))
  {
    hide Linked;
    hide FdsBut;
    hide Extent;
    hide Appended;
    AppendOnly(g, m0, Meaning(fl, dir), o, len, b);
  }

  lemma AppendAfter(g: Geometry, m0: Image, m1: Image, fl: Flash, dir: Dir, fds: seq<Fd>, o: int, len: nat, off: nat, a: seq<int>, b: seq<int>)
    requires g.Valid() && off + |a| == len && Altered(g, m0, m1, o, len, off, a, len) && IsFile(g, m0, o, len)
    requires Linked(g, fl, dir) && FdsBut(Meaning(fl, dir), dir, fds, o)
    requires Appended(g, m1, Meaning(fl, dir), o, len, b, TopIx(g, len + |b|))
    ensures Became(g, m0, fl, dir, fds, o, Contents(g, m0, o, len), Written(Contents(g, m0, o, len), off, a + b))
  {
    hide Linked;
    hide FdsBut;
    hide Extent;
    hide Appended;
    hide Altered;
    ModifyThenAppend(g, m0, m1, Meaning(fl, dir), o, len, off, a, b);
  }

  /** Where a write at `offset` starts in a file of length `len`: never behind its end. */
  function WriteAt(offset: nat, len: nat): nat {
    if offset < len then offset else len
  }

  /** How a write to object `o` with content `c` leaves the medium: the file has the first `kept` bytes of
      `buf` at `at`, and all else is unchanged; or, unless `sound`, one object is not in order, and but
      for that the medium means `mid`, which says so. */
  ghost predicate Wrote(g: Geometry, m0: Image, fl: Flash, loss: Loss, dir: Dir, fds: seq<Fd>, o: int, c: seq<int>, at: nat, buf: seq<int>, kept: nat, sound: bool, mid: Image)
    requires g.Valid() && at <= |c|
  {
    && kept <= |buf|
    && if sound then Became(g, m0, fl, dir, fds, o, c, Written(c, at, buf[..kept]))
       else FileChanged(g, m0, mid, o, c, Written(c, at, buf[..kept])) && Harmed(g, mid, fl, loss, dir, fds, Hurt(fl, loss, o))
  }

  /** After the part that changes what is there. */
  lemma WrotePart(g: Geometry, m0: Image, fl: Flash, loss: Loss, dir: Dir, fds: seq<Fd>, o: int, len: nat, offset: nat, buf: seq<int>, done: nat, kept: nat, sound: bool)
    requires g.Valid() && IsFile(g, m0, o, len) && offset <= len && kept <= done <= |buf|
    requires if sound then Became(g, m0, fl, dir, fds, o, Contents(g, m0, o, len), Written(Contents(g, m0, o, len), offset, buf[..done][..kept])) else Harmed(g, m0, fl, loss, dir, fds, Hurt(fl, loss, o))
    ensures Wrote(g, m0, fl, loss, dir, fds, o, Contents(g, m0, o, len), offset, buf, if sound then kept else 0, sound, m0)
  {
    hide IsFile;
    hide Contents;
    hide Written;
    hide Became;
    hide Harmed;
    hide FileChanged;
    NoneWritten(g, m0, o, len, offset, buf);
    assert buf[..done][..kept] == buf[..kept];
  }

  /** After the part that extends the file, `done` bytes having been changed in front of it. */
  lemma WroteMore(g: Geometry, m0: Image, m1: Image, fl: Flash, loss: Loss, dir: Dir, fds: seq<Fd>, o: int, len: nat, at: nat, buf: seq<int>, done: nat, more: nat, sound: bool)
    requires g.Valid() && IsFile(g, m0, o, len) && done < |buf| && more <= |buf| - done && at + done == len
    requires if done > 0 then Altered(g, m0, m1, o, len, at, buf[..done], len) else m1 == m0
    requires if sound then Linked(g, fl, dir) && FdsBut(Meaning(fl, dir), dir, fds, o) && Appended(g, m1, Meaning(fl, dir), o, len, buf[done..][..more], TopIx(g, len + more)) else Harmed(g, m1, fl, loss, dir, fds, Hurt(fl, loss, o))
    ensures Wrote(g, m0, fl, loss, dir, fds, o, Contents(g, m0, o, len), at, buf, if sound then done + more else done, sound, m1)
  {
    hide IsFile;
    hide Contents;
    hide Written;
    hide Became;
    hide Harmed;
    hide FileChanged;
    hide Linked;
    hide FdsBut;
    hide Appended;
    hide Altered;
    hide TopIx;
    if sound {
      assert buf[..done] + buf[done..][..more] == buf[..done + more];
      if done > 0 {
        AppendAfter(g, m0, m1, fl, dir, fds, o, len, at, buf[..done], buf[done..][..more]);
      } else {
        assert buf[done..][..more] == buf[..done + more];
        AppendTo(g, m0, fl, dir, fds, o, len, buf[..done + more]);
      }
    } else if done > 0 {
      ModifyOnly(g, m0, m1, o, len, at, buf[..done]);
    } else {
      NoneWritten(g, m0, o, len, at, buf);
    }
  }

  /** Writes `buf` at `offset`, changing what is there and appending the rest. A position behind
      the end of the file counts as its end. A write that fails leaves the first `kept` bytes of `buf`
      written and all else unchanged, but for one object that may not be in order: one that lost an
      index page, or the file itself; `sound` tells. A write that was `refused` wrote nothing. */
  method Write(fs: Spiffs, fdi: nat, offset: nat, buf: seq<int>, maxCandidates: nat, junk: int, ghost dir0: Dir)
    returns (res: Status, refused: bool, ghost kept: nat, ghost sound: bool, ghost mid: Image, ghost loss: Loss, ghost dir: Dir)
    requires fs.Valid() && !fs.cleaning && maxCandidates > 0 && |buf| > 0
    requires Consistent(fs.g, fs.flash, dir0, fs.fds) && OpenFile(fs.g, Meaning(fs.flash, dir0), fs.fds, fdi)
    requires fs.fds[fdi].size < 0 ==> offset == 0
    modifies fs`flash, fs`log, fs`freeBlocks, fs`maxEraseCount, fs`pagesDeleted, fs`pagesAllocated
    modifies fs`freeCursorBlock, fs`freeCursorEntry, fs`fds, fs`cursorBlock, fs`cursorEntry, fs`cleaning
    ensures fs.Valid() && !fs.cleaning && fs.Drift() >= old(fs.Drift())
    ensures old(fs.Spare()) >= WriteNeed(fs.g, WriteAt(offset, Length(old(fs.fds)[fdi].size)), |buf|) ==>
      res == OK && fs.Spare() >= old(fs.Spare()) - WriteNeed(fs.g, WriteAt(offset, Length(old(fs.fds)[fdi].size)), |buf|)
    ensures refused ==> !Reclaim.Holds(fs.g, fs.flash.lu, |buf| + fs.g.dps)
    ensures res == ERR_FULL ==> !fs.CanTake() || !Reclaim.Holds(fs.g, fs.flash.lu, |buf| + fs.g.dps)
    ensures old(Reclaim.Ample(fs, |buf| + fs.g.dps)) ==> !refused
    ensures SameOpen(old(fs.fds), fs.fds) && (Mapless(old(fs.fds)) ==> Mapless(fs.fds))
    ensures res == OK ==> WriteDone(fs.g, old(fs.flash), dir0, old(fs.fds), fs.flash, dir, fs.fds, fdi, offset, buf)
    ensures
      var m0, o, len := Meaning(old(fs.flash), dir0), ObjectId(old(fs.fds)[fdi].objId), Length(old(fs.fds)[fdi].size);
      && Wrote(fs.g, m0, fs.flash, loss, dir, fs.fds, o, Contents(fs.g, m0, o, len), WriteAt(offset, len), buf, kept, sound, mid)
      && (res == OK ==> sound && kept == |buf| && Followed(dir0, old(fs.fds), dir, fs.fds, fdi, len))
      && (refused ==> res == ERR_FULL && sound && kept == 0)
  {
    hide FreeSuffix;
    hide CursorOk;
    hide All;
    hide FreeBlocks;
    hide ErasedFree;
    hide DeadMarked;
    hide Linked;
    hide FdsOk;
    hide Geometry.Total;
    hide Meaning;
    hide TopIx;
    hide PageCount;
    hide Extent;
    hide ExtentTop;
    hide Appended;
    hide Altered;
    hide Contents;
    hide Written;
    hide Ended;
    hide Modified;
    hide Followed;
    hide Survived;
    hide SameOpen;
    hide Mapless;
    hide MapsOk;
    hide InOrder;
    hide Harmed;
    hide FdsBut;
    hide Roomy;
    hide Reclaim.Jammed;
    hide Reclaim.Holds;
    hide Reclaim.Ample;
    hide Reclaim.FreePages;
    hide Spiffs.CanTake;
    hide Spiffs.Drift;
    hide Became;
    hide ModifyNeed;
    hide AppendNeed;
    hide WriteNeed;
    hide Spiffs.Spare;
    hide Consistent;
    hide Hurt;
    hide Wrote;
    hide FileChanged;
    hide WriteDone;
    ghost var m0 := Meaning(fs.flash, dir0);
    ghost var o, len := ObjectId(fs.fds[fdi].objId), Length(fs.fds[fdi].size);
    ghost var at, fds0 := WriteAt(offset, len), fs.fds;
    res, refused, kept, sound, mid, loss, dir := OK, false, 0, true, m0, NoLoss, dir0;
    OpenParts(fs.g, m0, fs.fds, fdi);
    FollowRefl(dir0, fds0, fdi, len);
    var done, room := 0, true;
    var size := fs.fds[fdi].size;
    NeedParts(fs.g, at, if offset >= len then 0 else if len - offset < |buf| then len - offset else |buf|, |buf|);
    if size >= 0 && offset < size {
      done := if size - offset < |buf| then size - offset else |buf|;
      Reclaim.AmpleLess(fs, done + fs.g.dps, |buf| + fs.g.dps);
      res, room, kept, sound, loss, dir := ModifyPart(fs, fdi, offset, buf[..done], maxCandidates, junk, dir);
      WrotePart(fs.g, m0, fs.flash, loss, dir, fs.fds, o, len, offset, buf, done, kept, sound);
      if !sound {
        kept := 0;
      }
      refused := res == ERR_FULL && !room;
      Reclaim.HoldsLess(fs.g, fs.flash.lu, done + fs.g.dps, |buf| + fs.g.dps);
      if res == OK {
        AlteredFile(fs.g, m0, Meaning(fs.flash, dir), o, len, offset, buf[..done]);
        StillOpen(fs.g, fs.flash, fs.fds, fdi, dir, o, len);
      }
    }
    ghost var m1, dir1, fds1 := Meaning(fs.flash, dir), dir, fs.fds;
    if res == OK && done < |buf| {
      ghost var more;
      mid := m1;
      res, room, more, sound, loss, dir := AppendPart(fs, fdi, offset + done, buf[done..], maxCandidates, dir);
      WroteMore(fs.g, m0, m1, fs.flash, loss, dir, fs.fds, o, len, at, buf, done, more, sound);
      refused := res == ERR_FULL && !room && done == 0;
      Reclaim.HoldsLess(fs.g, fs.flash.lu, |buf| - done + fs.g.dps, |buf| + fs.g.dps);
      kept := if sound then done + more else done;
      OpenOn(fds0, fds1, fs.fds);
      if res == OK {
        assert buf[done..][..more] == buf[done..];
        AppendedFile(fs.g, m1, Meaning(fs.flash, dir), o, len, buf[done..]);
        StillOpen(fs.g, fs.flash, fs.fds, fdi, dir, o, len + |buf| - done);
        FollowOn(dir0, fds0, dir1, fds1, dir, fs.fds, fdi, len);
      }
    }
    if res == OK {
      WholeDone(fs.g, old(fs.flash), dir0, fds0, fs.flash, loss, dir, fs.fds, fdi, offset, buf, mid);
    }
  }

  lemma NoneWritten(g: Geometry, m0: Image, o: int, len: nat, at: nat, buf: seq<int>)
    requires g.Valid() && IsFile(g, m0, o, len) && at <= len
    ensures FileChanged(g, m0, m0, o, Contents(g, m0, o, len), Written(Contents(g, m0, o, len), at, buf[..0]))
  {
    hide Extent;
    FileHead(g, m0, o, len);
    assert Written(Contents(g, m0, o, len), at, buf[..0]) == Contents(g, m0, o, len);
  }

  lemma WholeDone(g: Geometry, v: Flash, dir0: Dir, fds0: seq<Fd>, w: Flash, loss: Loss, dir: Dir, fds: seq<Fd>, fdi: nat, offset: nat, buf: seq<int>, mid: Image)
    requires g.Valid() && fdi < |fds0| && Consistent(g, w, dir, fds) && OpenFile(g, Meaning(w, dir), fds, fdi)
    requires
      var o, len := ObjectId(fds0[fdi].objId), Length(fds0[fdi].size);
      var c := Contents(g, Meaning(v, dir0), o, len);
      && Wrote(g, Meaning(v, dir0), w, loss, dir, fds, o, c, WriteAt(offset, len), buf, |buf|, true, mid)
      && ObjectId(fds[fdi].objId) == o && Length(fds[fdi].size) == (if WriteAt(offset, len) + |buf| <= len then len else WriteAt(offset, len) + |buf|)
    ensures WriteDone(g, v, dir0, fds0, w, dir, fds, fdi, offset, buf)
  {
    hide Consistent;
    hide OpenFile;
    hide Linked;
    hide FdsBut;
    hide FileChanged;
    assert buf[..|buf|] == buf;
  }

  lemma AlteredFile(g: Geometry, m0: Image, m1: Image, o: int, len: nat, off: nat, a: seq<int>)
    requires g.Valid() && Altered(g, m0, m1, o, len, off, a, off + |a|) && IsFile(g, m0, o, len) && off + |a| <= len
    ensures IsFile(g, m1, o, len)
  {
    hide Contents;
    hide Written;
    hide Altered;
    hide IsFile;
    ModifyOnly(g, m0, m1, o, len, off, a);
    WrittenInside(Contents(g, m0, o, len), off, a);
  }

  lemma WrittenInside(c: seq<int>, off: nat, a: seq<int>)
    requires off <= |c|
    ensures off + |a| <= |c| ==> |Written(c, off, a)| == |c|
  {
  }

  lemma AppendedFile(g: Geometry, m1: Image, m2: Image, o: int, len: nat, b: seq<int>)
    requires g.Valid() && Appended(g, m1, m2, o, len, b, TopIx(g, len + |b|))
    ensures IsFile(g, m2, o, len + |b|)
  {
  }

  /** The descriptor knows the length that is stored. */
  lemma StillOpen(g: Geometry, fl: Flash, fds: seq<Fd>, fdi: nat, dir: Dir, o: int, len: nat)
    requires g.Valid() && Consistent(g, fl, dir, fds) && Writer(fds, fdi, o) && IsFile(g, Meaning(fl, dir), o, len)
    ensures OpenFile(g, Meaning(fl, dir), fds, fdi) && Length(fds[fdi].size) == len && ObjectId(fds[fdi].objId) == o
  {
    hide Linked;
    hide Extent;
    assert FdOk(Meaning(fl, dir), dir, fds[fdi]);
  }
}
