/** Opening, moving and closing the index map of a descriptor, and filling its window from the object
    index. */
module IndexMap {
  import opened Words
  import opened Layout
  import opened Medium
  import opened Directory
  import opened Window
  import opened Store
  import opened Maps
  import opened Collector
  import opened Files
  import opened Holding
  import opened Appending

  /** Entry `lo` and all behind it are populated wherever the file has a page. */
  ghost predicate Full(dir: Dir, o: int, start: nat, buf: seq<int>, lo: nat) {
    forall i {:trigger buf[i]} :: lo <= i < |buf| && Key(o, start + i) in dir ==> buf[i] == dir[Key(o, start + i)]
  }

  /** Populated entries stay populated. */
  ghost predicate StillSet(buf: seq<int>, buf': seq<int>) {
    |buf'| == |buf| && forall i {:trigger buf'[i]} :: 0 <= i < |buf| && buf[i] != NONE ==> buf'[i] != NONE
  }

  // Populating a window.

  /** The data pages of a file have no gaps. */
  lemma FileContiguous(g: Geometry, dir: Dir, m: Image, o: int, len: nat)
    requires g.Valid() && m.Keys == dir.Keys && IsFile(g, m, o, len)
    ensures 1 <= o <= MAX_ID && Contiguous(dir, o)
  {
    forall a: nat, b: nat | a < b && Key(o, b) in dir
      ensures Key(o, a) in dir
    {
      assert Key(o, b) in m && (Key(o, a) in m <==> 0 <= a < PageCount(g, len));
    }
  }

  /** The entries under index page `k` are populated wherever the file has a page. */
  ghost predicate Filled(g: Geometry, dir: Dir, o: int, start: nat, buf: seq<int>, k: nat)
    requires g.Valid()
  {
    forall i {:trigger buf[i]} :: 0 <= i < |buf| && IxSpan(g, start + i) == k && Key(o, start + i) in dir ==> buf[i] == dir[Key(o, start + i)]
  }

  /** An index page of the file that the search came upon is taken over. */
  lemma PageTaken(g: Geometry, fl: Flash, dir: Dir, o: int, s: nat)
    requires Linked(g, fl, dir) && 1 <= o <= MAX_ID && s < |fl.lu| && fl.lu[s] == IndexId(o)
    ensures s < |fl.pages| && fl.pages[s].span >= 0 && ValidateObjIx(fl.pages[s], IndexId(o), fl.pages[s].span) == OK
    ensures fl.pages[s].flags == INDEX_FLAGS
    ensures Key(IndexId(o), fl.pages[s].span) in dir && dir[Key(IndexId(o), fl.pages[s].span)] == s
    ensures RefsOfIx(g, dir, o, fl.pages[s].span, RefsOf(fl.pages[s].body))
    ensures forall span: nat :: Key(o, span) in dir ==> dir[Key(o, span)] != NONE
  {
    hide IxSpan;
    hide IxEntry;
    hide RefsLead;
    hide DataReferred;
    assert Live(fl.lu[s]) && KeyAt(fl, s) in dir && GoodPage(g, fl.lu[s], fl.pages[s]);
    LinkedRefs(g, fl, dir, o, fl.pages[s].span);
  }

  /** The `n` numbers from `a` on. */
  function Range(a: nat, n: nat): (r: set<nat>)
    ensures |r| == n && forall k :: k in r <==> a <= k < a + n
  {
    if n == 0 then {} else Range(a, n - 1) + {a + n - 1}
  }

  /** A subset as large as the whole is the whole. */
  lemma AllSeen(seen: set<nat>, a: nat, n: nat)
    requires seen <= Range(a, n) && |seen| == n
    ensures forall k: nat :: a <= k < a + n ==> k in seen
  {
    var rest := Range(a, n) - seen;
    assert Range(a, n) == seen + rest && |Range(a, n)| == |seen| + |rest|;
    forall k: nat | a <= k < a + n
      ensures k in seen
    {
      assert k in Range(a, n);
    }
  }

  /** Slots visited by a cyclic search from `first` after `n` steps. */
  predicate Visited(total: nat, first: nat, n: nat, t: nat) {
    (if t >= first then t - first else t + total - first) < n
  }

  /** Taking an index page over fills its entries and keeps the others. */
  lemma TakenKeeps(g: Geometry, dir: Dir, o: int, k: nat, refs: seq<int>, w: Window)
    requires g.Valid() && Contiguous(dir, o) && RefsOfIx(g, dir, o, k, refs) && Agrees(dir, o, w.start, w.entries)
    requires forall span: nat :: Key(o, span) in dir ==> dir[Key(o, span)] != NONE
    ensures
      var r := TakeOver(w, FirstSpan(g, k), refs);
      && Agrees(dir, o, w.start, r.entries) && StillSet(w.entries, r.entries)
      && forall q: nat :: q == k || Filled(g, dir, o, w.start, w.entries, q) ==> Filled(g, dir, o, w.start, r.entries, q)
  {
    hide IxSpan;
    hide IxEntry;
    hide FirstSpan;
    hide IxLen;
    hide RefsOfIx;
    hide Contiguous;
    forall i | 0 <= i < |w.entries|
      ensures EntryOk(dir, o, w.start + i, w.entries[i])
      ensures IxSpan(g, w.start + i) != k ==> !Reached(w.start, FirstSpan(g, k), refs, w.start + i)
    {
      assert EntryOk(dir, o, w.start + i, w.entries[i]);
      assert |refs| == IxLen(g, k) by { RefsLength(g, dir, o, k, refs); }
      IxRange(g, k, w.start + i);
    }
    ToldAgrees(g, dir, o, k, refs, w);
  }

  lemma RefsLength(g: Geometry, dir: Dir, o: int, k: nat, refs: seq<int>)
    requires g.Valid() && RefsOfIx(g, dir, o, k, refs)
    ensures |refs| == IxLen(g, k)
  {
  }

  /** What the search has done: `seen` are the index pages it met between `a` and `b`. */
  ghost predicate Searched(g: Geometry, fl: Flash, dir: Dir, o: int, hdr: nat, n: nat, a: nat, b: nat, seen: set<nat>, start: nat, buf: seq<int>)
    requires g.Valid()
  {
    && a <= b && seen <= Range(a, b - a + 1)
    && Agrees(dir, o, start, buf)
    && (forall k :: k in seen ==> a <= k <= b && Filled(g, dir, o, start, buf, k) && Key(IndexId(o), k) in dir && 0 <= dir[Key(IndexId(o), k)] && Visited(|fl.lu|, hdr, n, dir[Key(IndexId(o), k)]))
    && (forall k: nat {:trigger Key(IndexId(o), k)} :: a <= k <= b && Key(IndexId(o), k) in dir && 0 <= dir[Key(IndexId(o), k)] && Visited(|fl.lu|, hdr, n, dir[Key(IndexId(o), k)]) ==> k in seen)
  }

  lemma SearchedAll(g: Geometry, fl: Flash, dir: Dir, o: int, hdr: nat, n: nat, a: nat, b: nat, seen: set<nat>, start: nat, buf: seq<int>, lo: nat)
    requires Linked(g, fl, dir) && 1 <= o <= MAX_ID && hdr < |fl.lu| && a <= b
    requires Searched(g, fl, dir, o, hdr, n, a, b, seen, start, buf)
    requires n == |fl.lu| || |seen| == b - a + 1
    requires a == IxSpan(g, start + lo) && |buf| > 0 && IxSpan(g, start + |buf| - 1) <= b
    ensures Agrees(dir, o, start, buf)
    ensures Full(dir, o, start, buf, lo)
  {
    hide IxSpan;
    hide IxEntry;
    if |seen| == b - a + 1 {
      AllSeen(seen, a, b - a + 1);
    }
    forall i | lo <= i < |buf| && Key(o, start + i) in dir
      ensures buf[i] == dir[Key(o, start + i)]
    {
      IxMonotone(g, start + lo, start + i);
      IxMonotone(g, start + i, start + |buf| - 1);
      var k := IxSpan(g, start + i);
      assert Referred(g, fl, dir, Key(o, start + i));
      var x := Key(IndexId(o), k);
      assert x in dir && KeyAt(fl, dir[x]) == x;
      assert Filled(g, dir, o, start, buf, k);
    }
  }

  /** One more slot was visited, and its index page taken over. */
  lemma SearchedOne(g: Geometry, fl: Flash, dir: Dir, o: int, hdr: nat, n: nat, a: nat, b: nat, seen: set<nat>, w: Window, s: nat)
    requires g.Valid() && Linked(g, fl, dir) && 1 <= o <= MAX_ID && Contiguous(dir, o) && hdr < |fl.lu| && n < |fl.lu|
    requires Searched(g, fl, dir, o, hdr, n, a, b, seen, w.start, w.entries)
    requires s < |fl.lu| && fl.lu[s] == IndexId(o) && s == (if hdr + n < |fl.lu| then hdr + n else hdr + n - |fl.lu|)
    requires s < |fl.pages| && 0 <= fl.pages[s].span && a <= fl.pages[s].span <= b
    ensures fl.pages[s].span !in seen
    ensures var r := TakeOver(w, FirstSpan(g, fl.pages[s].span), RefsOf(fl.pages[s].body));
      && Searched(g, fl, dir, o, hdr, n + 1, a, b, seen + {fl.pages[s].span}, w.start, r.entries)
      && StillSet(w.entries, r.entries)
  {
    hide IxSpan;
    hide IxEntry;
    hide FirstSpan;
    hide Linked;
    hide Filled;
    hide Agrees;
    hide Contiguous;
    hide StillSet;
    hide RefsOfIx;
    PageTaken(g, fl, dir, o, s);
    TakenKeeps(g, dir, o, fl.pages[s].span, RefsOf(fl.pages[s].body), w);
    KeysApart(g, fl, dir, o, s, fl.pages[s].span);
  }

  lemma KeysApart(g: Geometry, fl: Flash, dir: Dir, o: int, s: nat, k: nat)
    requires Linked(g, fl, dir)
    ensures forall q: nat :: q != k && Key(IndexId(o), k) in dir && dir[Key(IndexId(o), k)] == s && Key(IndexId(o), q) in dir ==> dir[Key(IndexId(o), q)] != s
    ensures forall q: nat :: Key(IndexId(o), q) in dir ==> 0 <= dir[Key(IndexId(o), q)] < |fl.lu| && fl.lu[dir[Key(IndexId(o), q)]] == IndexId(o) && fl.pages[dir[Key(IndexId(o), q)]].span == q
  {
    hide RefsLead;
    hide DataReferred;
    forall q: nat | Key(IndexId(o), q) in dir
      ensures KeyAt(fl, dir[Key(IndexId(o), q)]) == Key(IndexId(o), q)
    {
    }
  }

  /** One more slot was visited that holds no index page of the range. */
  lemma SearchedNone(g: Geometry, fl: Flash, dir: Dir, o: int, hdr: nat, n: nat, a: nat, b: nat, seen: set<nat>, start: nat, buf: seq<int>, s: nat)
    requires Linked(g, fl, dir) && hdr < |fl.lu| && n < |fl.lu|
    requires Searched(g, fl, dir, o, hdr, n, a, b, seen, start, buf)
    requires s < |fl.lu| && s == (if hdr + n < |fl.lu| then hdr + n else hdr + n - |fl.lu|)
    requires fl.lu[s] == IndexId(o) ==> !(a <= fl.pages[s].span <= b)
    ensures Searched(g, fl, dir, o, hdr, n + 1, a, b, seen, start, buf)
  {
    hide Linked;
    hide Filled;
    hide Agrees;
    KeysApart(g, fl, dir, o, s, 0);
  }

  /** The visitor of the search: an index page between `a` and `b` is taken over. */
  method PopulateVisit(fs: Spiffs, s: nat, w0: Window, a: nat, b: nat, left0: nat, o: int, ghost dir: Dir, ghost hdr: nat, ghost n: nat, ghost seen0: set<nat>)
    returns (res: Status, w: Window, left: nat, ghost seen: set<nat>)
    requires Shaped(fs.g, fs.flash) && Linked(fs.g, fs.flash, dir) && Contiguous(dir, o)
    requires hdr < fs.g.Total() && n < fs.g.Total() && 1 <= o <= MAX_ID
    requires s == (if hdr + n < fs.g.Total() then hdr + n else hdr + n - fs.g.Total())
    requires Searched(fs.g, fs.flash, dir, o, hdr, n, a, b, seen0, w0.start, w0.entries) && |seen0| + left0 == b - a + 1 && left0 > 0
    ensures res == OK && w.start == w0.start && StillSet(w0.entries, w.entries)
    ensures Searched(fs.g, fs.flash, dir, o, hdr, n + 1, a, b, seen, w.start, w.entries) && |seen| + left == b - a + 1
  {
    hide IxSpan;
    hide IxEntry;
    hide FirstSpan;
    hide Linked;
    hide Searched;
    hide Contiguous;
    var g, fl := fs.g, fs.flash;
    res, w, left, seen := OK, w0, left0, seen0;
    if fl.lu[s] == IndexId(o) {
      PageTaken(g, fl, dir, o, s);
      var page := fl.pages[s];
      res := ValidateObjIx(page, IndexId(o), page.span);
      if res == OK && page.flags.delet && !page.flags.final && page.flags.ixdele && a <= page.span <= b {
        w := UpdateMap(g, w0, page.span, RefsOf(page.body));
        SearchedOne(g, fl, dir, o, hdr, n, a, b, seen, w0, s);
        seen := seen + {page.span};
        left := left - 1;
        return;
      }
    }
    SearchedNone(g, fl, dir, o, hdr, n, a, b, seen, w.start, w.entries, s);
  }

  /** Searches the index pages of the file, from its header page on, and takes those over that
      cover entry `lo0` or a later one, until it has met as many as there can be. */
  method Populate(fs: Spiffs, fdi: nat, lo0: nat, hi0: nat, o: int, ghost dir: Dir)
    returns (res: Status)
    requires Shaped(fs.g, fs.flash) && Linked(fs.g, fs.flash, dir) && 1 <= o <= MAX_ID && Contiguous(dir, o)
    requires fdi < |fs.fds| && 0 <= fs.fds[fdi].hdr < fs.g.Total() && fs.fds[fdi].win.Some?
    requires Agrees(dir, o, fs.fds[fdi].win.value.start, fs.fds[fdi].win.value.entries)
    modifies fs`fds
    ensures res == OK && fdi < |fs.fds| && fs.fds[fdi].win.Some?
    ensures fs.fds == old(fs.fds)[fdi := old(fs.fds)[fdi].(win := fs.fds[fdi].win)]
    ensures var w0, w := old(fs.fds)[fdi].win.value, fs.fds[fdi].win.value;
      && w.start == w0.start && StillSet(w0.entries, w.entries)
      && Agrees(dir, o, w.start, w.entries) && Full(dir, o, w.start, w.entries, lo0)
  {
    hide IxSpan;
    hide IxEntry;
    hide Linked;
    hide Agrees;
    hide Searched;
    hide Contiguous;
    hide Full;
    hide Shaped;
    TotalSlots(fs.g, fs.flash);
    var g, hdr, win := fs.g, fs.fds[fdi].hdr, fs.fds[fdi].win.value;
    var extent := |win.entries| - 1;
    var lo := if extent < lo0 then extent else lo0;
    var hi := if extent > hi0 then extent else hi0;
    var a, b := IxSpan(g, win.start + lo), IxSpan(g, win.start + hi);
    IxMonotone(g, win.start + lo, win.start + hi);
    IxMonotone(g, win.start + extent, win.start + hi);
    var left, n, s: nat := b - a + 1, 0, hdr;
    ghost var seen: set<nat>, was := {}, fs.fds;
    res := OK;
    SearchedStart(g, fs.flash, dir, o, hdr, a, b, win.start, win.entries);
    while n < g.Total() && left > 0 && res == OK
      invariant n <= g.Total() && left >= 0 && res == OK
      invariant n < g.Total() ==> s == (if hdr + n < g.Total() then hdr + n else hdr + n - g.Total())
      invariant fdi < |fs.fds| && fs.fds[fdi].win.Some? && fs.fds == was[fdi := was[fdi].(win := fs.fds[fdi].win)]
      invariant fs.fds[fdi].win.value.start == win.start && StillSet(win.entries, fs.fds[fdi].win.value.entries)
      invariant Searched(g, fs.flash, dir, o, hdr, n, a, b, seen, win.start, fs.fds[fdi].win.value.entries) && |seen| + left == b - a + 1
    {
      var w;
      res, w, left, seen := PopulateVisit(fs, s, fs.fds[fdi].win.value, a, b, left, o, dir, hdr, n, seen);
      fs.fds := fs.fds[fdi := fs.fds[fdi].(win := Some(w))];
      n := n + 1;
      s := if s + 1 < g.Total() then s + 1 else 0;
    }
    SearchedAll(g, fs.flash, dir, o, hdr, n, a, b, seen, win.start, fs.fds[fdi].win.value.entries, lo);
    FullLow(dir, o, win.start, fs.fds[fdi].win.value.entries, lo, lo0);
  }

  lemma FullLow(dir: Dir, o: int, start: nat, buf: seq<int>, lo: nat, lo0: nat)
    requires Full(dir, o, start, buf, lo) && lo <= lo0
    ensures Full(dir, o, start, buf, lo0)
  {
  }

  lemma TotalSlots(g: Geometry, fl: Flash)
    requires Shaped(g, fl)
    ensures g.Valid() && |fl.lu| == |fl.pages| == g.Total()
  {
  }

  lemma SearchedStart(g: Geometry, fl: Flash, dir: Dir, o: int, hdr: nat, a: nat, b: nat, start: nat, buf: seq<int>)
    requires g.Valid() && a <= b && Agrees(dir, o, start, buf) && hdr < |fl.lu|
    ensures Searched(g, fl, dir, o, hdr, 0, a, b, {}, start, buf)
  {
  }

  // Opening, moving and closing a window.

  /** The span of a byte position. */
  function SpanAt(g: Geometry, offset: nat): nat
    requires g.Valid()
  {
    Quot(offset, g.dps)
  }

  /** The data page of that span holds the byte. */
  lemma SpanHolds(g: Geometry, offset: nat)
    requires g.Valid()
    ensures SpanAt(g, offset) * g.dps <= offset < (SpanAt(g, offset) + 1) * g.dps
  {
    QuotRem(offset, g.dps);
    assert (SpanAt(g, offset) + 1) * g.dps == SpanAt(g, offset) * g.dps + g.dps;
  }

  /** Only the window of descriptor `fdi` differs. */
  ghost predicate WindowSet(fds: seq<Fd>, fds': seq<Fd>, fdi: nat) {
    fdi < |fds| == |fds'| && fds' == fds[fdi := fds[fdi].(win := fds'[fdi].win)]
  }

  lemma SetKeeps(m: map<Key, Body>, dir: Dir, fds: seq<Fd>, fds': seq<Fd>, fdi: nat)
    requires WindowSet(fds, fds', fdi) && FdsOk(m, dir, fds)
    ensures FdsOk(m, dir, fds')
  {
    forall i | 0 <= i < |fds'|
      ensures FdOk(m, dir, fds'[i])
    {
      assert FdOk(m, dir, fds[i]);
    }
  }

  /** Where the header page of an open file is. */
  lemma OpenedAt(g: Geometry, fl: Flash, dir: Dir, fds: seq<Fd>, fdi: nat)
    requires Consistent(g, fl, dir, fds) && g.Valid() && OpenFile(g, Meaning(fl, dir), fds, fdi)
    ensures fdi < |fds| && 0 <= fds[fdi].hdr < |fl.lu| && 1 <= ObjectId(fds[fdi].objId) <= MAX_ID
    ensures Contiguous(dir, ObjectId(fds[fdi].objId)) && fds[fdi].fileNbr != 0
    ensures forall k: Key :: k in dir ==> dir[k] != NONE
  {
    hide RefsLead;
    hide DataReferred;
    hide Extent;
    hide Contiguous;
    var o := ObjectId(fds[fdi].objId);
    assert FdOk(Meaning(fl, dir), dir, fds[fdi]);
    assert KeyAt(fl, dir[Key(IndexId(o), 0)]) == Key(IndexId(o), 0);
    FileContiguous(g, dir, Meaning(fl, dir), o, Length(fds[fdi].size));
  }

  /** Opens a window over the bytes `offset` to `offset + len` of an open file: it agrees with the
      medium and has every page of the range that the file has. */
  method Open(fs: Spiffs, fdi: nat, offset: nat, len: nat, ghost dir: Dir)
    returns (res: Status)
    requires Shaped(fs.g, fs.flash) && Consistent(fs.g, fs.flash, dir, fs.fds) && OpenFile(fs.g, Meaning(fs.flash, dir), fs.fds, fdi)
    modifies fs`fds
    ensures Consistent(fs.g, fs.flash, dir, fs.fds) && WindowSet(old(fs.fds), fs.fds, fdi)
    ensures res == if old(fs.fds)[fdi].win.Some? then ERR_IX_MAP_MAPPED else OK
    ensures res != OK ==> fs.fds == old(fs.fds)
    ensures res == OK ==> MapOk(dir, fs.fds[fdi]) && fs.fds[fdi].win.Some?
    ensures res == OK ==> var w := fs.fds[fdi].win.value;
      && w.start == SpanAt(fs.g, offset) && |w.entries| == SpanAt(fs.g, offset + len) - SpanAt(fs.g, offset) + 1
      && Full(dir, ObjectId(fs.fds[fdi].objId), w.start, w.entries, 0)
  {
    hide Linked;
    hide OpenFile;
    hide FdsOk;
    hide Quot;
    hide Contiguous;
    hide Full;
    hide StillSet;
    hide Shaped;
    TotalSlots(fs.g, fs.flash);
    OpenedAt(fs.g, fs.flash, dir, fs.fds, fdi);
    if fs.fds[fdi].win.Some? {
      return ERR_IX_MAP_MAPPED;
    }
    ghost var was := fs.fds;
    var start, end := Quot(offset, fs.g.dps), Quot(offset + len, fs.g.dps);
    QuotMonotone(offset, offset + len, fs.g.dps);
    var n := end - start + 1;
    fs.fds := fs.fds[fdi := fs.fds[fdi].(win := Some(Frame(start, seq(n, _ => NONE))))];
    res := Populate(fs, fdi, 0, n, ObjectId(fs.fds[fdi].objId), dir);
    SetLength(fs.fds[fdi].win.value, n, seq(n, _ => NONE));
    SetKeeps(Meaning(fs.flash, dir), dir, was, fs.fds, fdi);
  }

  lemma SetLength(w: Window, n: nat, buf: seq<int>)
    requires |buf| == n && StillSet(buf, w.entries)
    ensures |w.entries| == n
  {
  }

  /** Closes the window of a descriptor. */
  method Unmap(fs: Spiffs, fdi: nat, ghost dir: Dir)
    returns (res: Status)
    requires fdi < |fs.fds| && FdsOk(Meaning(fs.flash, dir), dir, fs.fds)
    modifies fs`fds
    ensures res == if old(fs.fds)[fdi].win.None? then ERR_IX_MAP_UNMAPPED else OK
    ensures WindowSet(old(fs.fds), fs.fds, fdi) && fs.fds[fdi].win.None? && FdsOk(Meaning(fs.flash, dir), dir, fs.fds)
  {
    hide FdsOk;
    hide Meaning;
    if fs.fds[fdi].win.None? {
      return ERR_IX_MAP_UNMAPPED;
    }
    ghost var was := fs.fds;
    fs.fds := fs.fds[fdi := fs.fds[fdi].(win := None)];
    SetKeeps(Meaning(fs.flash, dir), dir, was, fs.fds, fdi);
    res := OK;
  }

  /** What is left of a window that moved by `d`. */
  ghost predicate Shifted(buf: seq<int>, d: int, buf': seq<int>) {
    |buf'| == |buf| && forall j {:trigger buf'[j]} :: 0 <= j < |buf| ==> buf'[j] == if 0 <= j + d < |buf| then buf[j + d] else NONE
  }

  /** Moves the entries `d` places to the front, in place. */
  method ShiftDown(buf: array<int>, d: nat)
    requires d <= buf.Length
    modifies buf
    ensures Shifted(old(buf[..]), d, buf[..])
  {
    var i := 0;
    while i < buf.Length - d
      invariant 0 <= i <= buf.Length - d
      invariant forall j :: 0 <= j < buf.Length ==> buf[j] == if j < i then old(buf[j + d]) else old(buf[j])
    {
      buf[i] := buf[i + d];
      i := i + 1;
    }
    forall j | buf.Length - d <= j < buf.Length {
      buf[j] := NONE;
    }
  }

  /** Moves the entries `d` places to the back, in place and from the end. */
  method ShiftUp(buf: array<int>, d: nat)
    requires d <= buf.Length
    modifies buf
    ensures Shifted(old(buf[..]), 0 - d, buf[..])
  {
    var i := buf.Length - 1;
    while i >= d
      invariant d - 1 <= i < buf.Length
      invariant forall j :: 0 <= j < buf.Length ==> buf[j] == if j > i then old(buf[j - d]) else old(buf[j])
    {
      buf[i] := buf[i - d];
      i := i - 1;
    }
    forall j | 0 <= j < d {
      buf[j] := NONE;
    }
  }

  lemma ShiftAgrees(dir: Dir, o: int, start: nat, buf: seq<int>, d: int, buf': seq<int>)
    requires Agrees(dir, o, start, buf) && start + d >= 0 && Shifted(buf, d, buf')
    ensures Agrees(dir, o, start + d, buf')
  {
    forall j | 0 <= j < |buf'|
      ensures EntryOk(dir, o, start + d + j, buf'[j])
    {
      if 0 <= j + d < |buf| {
        assert EntryOk(dir, o, start + (j + d), buf[j + d]);
      }
    }
  }

  lemma ShiftFull(dir: Dir, o: int, start: nat, buf: seq<int>, d: int, buf': seq<int>, buf'': seq<int>, lo: nat)
    requires Full(dir, o, start, buf, 0) && start + d >= 0 && Shifted(buf, d, buf') && StillSet(buf', buf'')
    requires Agrees(dir, o, start + d, buf'') && forall k: Key :: k in dir ==> dir[k] != NONE
    requires Full(dir, o, start + d, buf'', lo) && (if d > 0 then lo == |buf| - d else lo == 0)
    ensures Full(dir, o, start + d, buf'', 0)
  {
    forall j | 0 <= j < |buf''| && Key(o, start + d + j) in dir
      ensures buf''[j] == dir[Key(o, start + d + j)]
    {
      assert EntryOk(dir, o, start + d + j, buf''[j]);
      if j < lo {
        assert buf[j + d] == dir[Key(o, start + (j + d))];
        assert buf'[j] == buf[j + d];
      }
    }
  }

  /** Moves the entries of a window by `diff`, in place. */
  method Shift(entries: seq<int>, diff: int) returns (moved: seq<int>)
    requires -|entries| < diff < |entries|
    ensures Shifted(entries, diff, moved)
  {
    hide Shifted;
    var buf := new int[|entries|];
    forall i | 0 <= i < |entries| {
      buf[i] := entries[i];
    }
    assert buf[..] == entries;
    if diff > 0 {
      ShiftDown(buf, diff);
    } else {
      ShiftUp(buf, -diff);
    }
    moved := buf[..];
  }

  /** Moves a window by less than its length: what stays inside is shifted in place, the rest is
      populated again. */
  method Remap(fs: Spiffs, fdi: nat, offset: nat, ghost dir: Dir)
    returns (res: Status)
    requires Shaped(fs.g, fs.flash) && Consistent(fs.g, fs.flash, dir, fs.fds) && OpenFile(fs.g, Meaning(fs.flash, dir), fs.fds, fdi)
    requires MapOk(dir, fs.fds[fdi])
    requires fs.fds[fdi].win.Some? ==> var w := fs.fds[fdi].win.value; -|w.entries| < SpanAt(fs.g, offset) - w.start < |w.entries|
    modifies fs`fds
    ensures Consistent(fs.g, fs.flash, dir, fs.fds) && WindowSet(old(fs.fds), fs.fds, fdi) && MapOk(dir, fs.fds[fdi])
    ensures res == if old(fs.fds)[fdi].win.None? then ERR_IX_MAP_UNMAPPED else OK
    ensures res != OK ==> fs.fds == old(fs.fds)
    ensures res == OK ==> fs.fds[fdi].win.Some? && var w0, w := old(fs.fds)[fdi].win.value, fs.fds[fdi].win.value;
      && w.start == SpanAt(fs.g, offset) && |w.entries| == |w0.entries|
      && (Full(dir, ObjectId(fs.fds[fdi].objId), w0.start, w0.entries, 0) ==> Full(dir, ObjectId(fs.fds[fdi].objId), w.start, w.entries, 0))
  {
    hide Linked;
    hide OpenFile;
    hide FdsOk;
    hide Quot;
    hide Agrees;
    hide Contiguous;
    hide Full;
    hide Shifted;
    hide StillSet;
    hide Shaped;
    TotalSlots(fs.g, fs.flash);
    OpenedAt(fs.g, fs.flash, dir, fs.fds, fdi);
    if fs.fds[fdi].win.None? {
      return ERR_IX_MAP_UNMAPPED;
    }
    res := OK;
    ghost var was := fs.fds;
    var o, w := ObjectId(fs.fds[fdi].objId), fs.fds[fdi].win.value;
    var diff, len := Quot(offset, fs.g.dps) - w.start, |w.entries|;
    if diff != 0 {
      var moved := Shift(w.entries, diff);
      ShiftLength(w.entries, diff, moved);
      ShiftAgrees(dir, o, w.start, w.entries, diff, moved);
      fs.fds := fs.fds[fdi := fs.fds[fdi].(win := Some(Frame(w.start + diff, moved)))];
      if diff > 0 {
        res := Populate(fs, fdi, len - diff, len - 1, o, dir);
      } else {
        res := Populate(fs, fdi, 0, -diff - 1, o, dir);
      }
      SetLength(fs.fds[fdi].win.value, len, moved);
      if Full(dir, o, w.start, w.entries, 0) {
        ShiftFull(dir, o, w.start, w.entries, diff, moved, fs.fds[fdi].win.value.entries, if diff > 0 then len - diff else 0);
      }
      SetKeeps(Meaning(fs.flash, dir), dir, was, fs.fds, fdi);
    }
  }

  lemma ShiftLength(buf: seq<int>, d: int, buf': seq<int>)
    requires Shifted(buf, d, buf')
    ensures |buf'| == |buf|
  {
  }
}
