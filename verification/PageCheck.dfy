/** The consistency check of pages: a few pages at a time, it notes for each page whether it is
    used, referred to, and an index page. */
module PageCheck {
  import opened Words
  import opened Layout
  import opened Medium
  import opened Directory
  import opened Store
  import opened History

  /** The three bits noted for a page. */
  datatype Nibble = Nibble(used: bool, referenced: bool, index: bool)

  const BLANK := Nibble(false, false, false)

  predicate UsedPage(p: Page) {
    p.flags.delet && !p.flags.used
  }

  predicate LiveIndex(p: Page) {
    p.flags.delet && p.flags.ixdele && !p.flags.index && !p.flags.used
  }

  /** Entry `i` of index page `p` is empty or refers to a used data page of its object and span. */
  predicate GoodRef(g: Geometry, fl: Flash, p: Page, i: nat)
    requires i < |RefsOf(p.body)|
  {
    var r := RefsOf(p.body)[i];
    r == NONE || (0 <= r < |fl.pages| && MatchesRef(fl.pages[r], ObjectId(p.id), FirstSpan(g, SpanOf(p)) + i))
  }

  predicate MatchesRef(rp: Page, id: int, span: int) {
    rp.id == id && rp.span == span && rp.flags.delet && rp.flags.index && !rp.flags.used
  }

  /** Entry `i` of live index page `s` refers to page `r`. */
  ghost predicate Refers(fl: Flash, s: int, i: int, r: int) {
    0 <= s < |fl.pages| && LiveIndex(fl.pages[s]) && 0 <= i < |RefsOf(fl.pages[s].body)| && RefsOf(fl.pages[s].body)[i] == r
  }

  ghost predicate RefsGood(g: Geometry, fl: Flash) {
    forall s, i :: 0 <= s < |fl.pages| && LiveIndex(fl.pages[s]) && 0 <= i < |RefsOf(fl.pages[s].body)| ==> GoodRef(g, fl, fl.pages[s], i)
  }

  ghost predicate RefsOnce(fl: Flash) {
    forall s, i, t, j, r :: r != NONE && Refers(fl, s, i, r) && Refers(fl, t, j, r) ==> s == t && i == j
  }

  ghost predicate NoOrphans(fl: Flash) {
    forall p :: 0 <= p < |fl.pages| && UsedPage(fl.pages[p]) && !LiveIndex(fl.pages[p]) ==> exists s, i :: Refers(fl, s, i, p)
  }

  // Scanning one window.

  /** Index entry (t, i) comes before index entry (s, n) in a scan. */
  predicate Earlier(t: int, i: int, s: int, n: int) {
    t < s || (t == s && i < n)
  }

  /** Some entry before entry (s, n) refers to page `r`. */
  ghost predicate ReferredBefore(fl: Flash, r: int, s: int, n: int) {
    exists t, i :: Refers(fl, t, i, r) && Earlier(t, i, s, n)
  }

  /** The window from `lo` on has the used and the index bits of the pages in front of `s`. */
  ghost predicate BitsNoted(fl: Flash, lo: nat, w: seq<Nibble>, s: int) {
    forall k {:trigger w[k]} :: 0 <= k < |w| ==>
      && (w[k].used <==> lo + k < s && lo + k < |fl.pages| && UsedPage(fl.pages[lo + k]))
      && (w[k].index <==> lo + k < s && lo + k < |fl.pages| && LiveIndex(fl.pages[lo + k]))
  }

  /** And the referenced bits that the entries in front of (s, n) give. */
  ghost predicate RefsNoted(fl: Flash, lo: nat, w: seq<Nibble>, s: int, n: int) {
    forall k {:trigger w[k]} :: 0 <= k < |w| ==> (w[k].referenced <==> ReferredBefore(fl, lo + k, s, n))
  }

  /** No entry in front of (s, n) refers outside the medium, or into the window wrongly or to where
      another entry before refers. */
  ghost predicate Untroubled(g: Geometry, fl: Flash, lo: int, hi: int, s: int, n: int) {
    && (forall t, i, r :: Refers(fl, t, i, r) && Earlier(t, i, s, n) ==> r == NONE || 0 <= r < |fl.pages|)
    && (forall t, i, r :: Refers(fl, t, i, r) && Earlier(t, i, s, n) && lo <= r < hi ==> GoodRef(g, fl, fl.pages[t], i))
    && (forall t, i, u, j, r :: Refers(fl, t, i, r) && Refers(fl, u, j, r) && Earlier(t, i, s, n) && Earlier(u, j, s, n) && lo <= r < hi ==> t == u && i == j)
  }

  lemma EntryDone(g: Geometry, fl: Flash, lo: nat, w: seq<Nibble>, s: int, n: int, r: int, w': seq<Nibble>)
    requires Refers(fl, s, n, r) && (r == NONE || 0 <= r < |fl.pages|)
    requires RefsNoted(fl, lo, w, s, n) && Untroubled(g, fl, lo, lo + |w|, s, n)
    requires if lo <= r < lo + |w| then GoodRef(g, fl, fl.pages[s], n) && !w[r - lo].referenced && w' == w[r - lo := w[r - lo].(referenced := true)] else w' == w
    ensures RefsNoted(fl, lo, w', s, n + 1) && Untroubled(g, fl, lo, lo + |w|, s, n + 1)
  {
    forall k | 0 <= k < |w'|
      ensures w'[k].referenced <==> ReferredBefore(fl, lo + k, s, n + 1)
    {
      assert w[k].referenced <==> ReferredBefore(fl, lo + k, s, n);
      if ReferredBefore(fl, lo + k, s, n + 1) {
        var t, i :| Refers(fl, t, i, lo + k) && Earlier(t, i, s, n + 1);
        assert Earlier(t, i, s, n) || (t == s && i == n);
      }
      if ReferredBefore(fl, lo + k, s, n) {
        var t, i :| Refers(fl, t, i, lo + k) && Earlier(t, i, s, n);
        assert Earlier(t, i, s, n + 1);
      }
      assert Earlier(s, n, s, n + 1);
    }
    forall t, i, u, j, q | Refers(fl, t, i, q) && Refers(fl, u, j, q) && Earlier(t, i, s, n + 1) && Earlier(u, j, s, n + 1) && lo <= q < lo + |w|
      ensures t == u && i == j
    {
      assert w[q - lo].referenced <==> ReferredBefore(fl, lo + (q - lo), s, n);
      assert lo + (q - lo) == q;
    }
  }

  /** The end of a page's entries is the start of the next page. */
  lemma PageDone(g: Geometry, fl: Flash, lo: nat, w: seq<Nibble>, s: int, n: int)
    requires 0 <= s < |fl.pages| && n == (if LiveIndex(fl.pages[s]) then |RefsOf(fl.pages[s].body)| else 0)
    requires RefsNoted(fl, lo, w, s, n) && Untroubled(g, fl, lo, lo + |w|, s, n)
    ensures RefsNoted(fl, lo, w, s + 1, 0) && Untroubled(g, fl, lo, lo + |w|, s + 1, 0)
  {
    forall t, i, r | Refers(fl, t, i, r)
      ensures Earlier(t, i, s + 1, 0) <==> Earlier(t, i, s, n)
    {
    }
    forall r: int
      ensures ReferredBefore(fl, r, s + 1, 0) <==> ReferredBefore(fl, r, s, n)
    {
      if ReferredBefore(fl, r, s + 1, 0) {
        var t, i :| Refers(fl, t, i, r) && Earlier(t, i, s + 1, 0);
        assert Earlier(t, i, s, n);
      }
      if ReferredBefore(fl, r, s, n) {
        var t, i :| Refers(fl, t, i, r) && Earlier(t, i, s, n);
        assert Earlier(t, i, s + 1, 0);
      }
    }
  }

  /** An entry that refers to a page that an entry before refers to. */
  lemma Twice(fl: Flash, s: int, n: int, r: int)
    requires Refers(fl, s, n, r) && r != NONE && ReferredBefore(fl, r, s, n)
    ensures !RefsOnce(fl)
  {
    var t, i :| Refers(fl, t, i, r) && Earlier(t, i, s, n);
    assert !(t == s && i == n);
  }

  /** Notes page `s` and, if it is a live index page, what it refers to in the window. */
  method ScanPage(g: Geometry, fl: Flash, lo: nat, work: array<Nibble>, s: nat) returns (restart: bool)
    requires s < |fl.pages|
    requires BitsNoted(fl, lo, work[..], s) && RefsNoted(fl, lo, work[..], s, 0) && Untroubled(g, fl, lo, lo + work.Length, s, 0)
    modifies work
    ensures !restart ==> BitsNoted(fl, lo, work[..], s + 1) && RefsNoted(fl, lo, work[..], s + 1, 0) && Untroubled(g, fl, lo, lo + work.Length, s + 1, 0)
    ensures restart ==> !RefsGood(g, fl) || !RefsOnce(fl)
  {
    hide Untroubled;
    hide ReferredBefore;
    hide RefsOnce;
    var page, inside := fl.pages[s], lo <= s < lo + work.Length;
    restart := false;
    ghost var w0 := work[..];
    if inside && UsedPage(page) {
      work[s - lo] := work[s - lo].(used := true);
    }
    if LiveIndex(page) {
      if inside {
        work[s - lo] := work[s - lo].(index := true);
      }
      BitsDone(fl, lo, w0, s, work[..]);
      RefsSame(fl, lo, w0, work[..], s, 0);
      var refs, i := RefsOf(page.body), 0;
      while i < |refs| && !restart
        invariant 0 <= i <= |refs|
        invariant !restart ==> BitsNoted(fl, lo, work[..], s + 1) && RefsNoted(fl, lo, work[..], s, i) && Untroubled(g, fl, lo, lo + work.Length, s, i)
        invariant restart ==> !RefsGood(g, fl) || !RefsOnce(fl)
      {
        var r := refs[i];
        assert Refers(fl, s, i, r);
        if r != NONE && !(0 <= r < |fl.pages|) {
          BadRef(g, fl, s, i);
          restart := true;
        } else if lo <= r < lo + work.Length {
          if !MatchesRef(fl.pages[r], ObjectId(page.id), FirstSpan(g, SpanOf(page)) + i) {
            BadRef(g, fl, s, i);
            restart := true;
          } else if work[r - lo].referenced {
            assert work[..][r - lo].referenced && lo + (r - lo) == r;
            Twice(fl, s, i, r);
            restart := true;
          } else {
            ghost var w := work[..];
            work[r - lo] := work[r - lo].(referenced := true);
            GoodHere(g, fl, page, i);
            EntryDone(g, fl, lo, w, s, i, r, work[..]);
            BitsSame(fl, lo, w, work[..], s + 1);
          }
        } else {
          EntryDone(g, fl, lo, work[..], s, i, r, work[..]);
        }
        i := i + 1;
      }
    } else {
      BitsDone(fl, lo, w0, s, work[..]);
      RefsSame(fl, lo, w0, work[..], s, 0);
    }
    if !restart {
      PageDone(g, fl, lo, work[..], s, if LiveIndex(page) then |RefsOf(page.body)| else 0);
    }
  }

  lemma BitsDone(fl: Flash, lo: nat, w: seq<Nibble>, s: nat, w': seq<Nibble>)
    requires s < |fl.pages| && BitsNoted(fl, lo, w, s)
    requires if lo <= s < lo + |w| then w' == w[s - lo := w[s - lo].(used := w[s - lo].used || UsedPage(fl.pages[s]), index := w[s - lo].index || LiveIndex(fl.pages[s]))] else w' == w
    ensures BitsNoted(fl, lo, w', s + 1)
  {
  }

  lemma BitsSame(fl: Flash, lo: nat, w: seq<Nibble>, w': seq<Nibble>, s: int)
    requires BitsNoted(fl, lo, w, s) && |w'| == |w| && forall k {:trigger w'[k]} :: 0 <= k < |w| ==> w'[k].used == w[k].used && w'[k].index == w[k].index
    ensures BitsNoted(fl, lo, w', s)
  {
  }

  lemma RefsSame(fl: Flash, lo: nat, w: seq<Nibble>, w': seq<Nibble>, s: int, n: int)
    requires RefsNoted(fl, lo, w, s, n) && |w'| == |w| && forall k {:trigger w'[k]} :: 0 <= k < |w| ==> w'[k].referenced == w[k].referenced
    ensures RefsNoted(fl, lo, w', s, n)
  {
  }

  lemma BadRef(g: Geometry, fl: Flash, s: nat, i: nat)
    requires s < |fl.pages| && LiveIndex(fl.pages[s]) && i < |RefsOf(fl.pages[s].body)| && !GoodRef(g, fl, fl.pages[s], i)
    ensures !RefsGood(g, fl)
  {
  }

  lemma GoodHere(g: Geometry, fl: Flash, p: Page, i: nat)
    requires i < |RefsOf(p.body)| && 0 <= RefsOf(p.body)[i] < |fl.pages|
    requires MatchesRef(fl.pages[RefsOf(p.body)[i]], ObjectId(p.id), FirstSpan(g, SpanOf(p)) + i)
    ensures GoodRef(g, fl, p, i)
  {
  }

  /** Scans all pages for one window. Without trouble every nibble tells exactly whether its page is
      used, whether some index page refers to it, and whether it is an index page. */
  method ScanWindow(g: Geometry, fl: Flash, lo: nat, work: array<Nibble>) returns (restart: bool)
    requires forall k :: 0 <= k < work.Length ==> work[k] == BLANK
    modifies work
    ensures restart ==> !RefsGood(g, fl) || !RefsOnce(fl)
    ensures !restart ==> BitsNoted(fl, lo, work[..], |fl.pages|) && RefsNoted(fl, lo, work[..], |fl.pages|, 0)
    ensures !restart ==> Untroubled(g, fl, lo, lo + work.Length, |fl.pages|, 0)
  {
    hide RefsGood;
    hide RefsOnce;
    restart := false;
    var s := 0;
    NothingYet(g, fl, lo, work[..]);
    while s < |fl.pages| && !restart
      invariant 0 <= s <= |fl.pages|
      invariant restart ==> !RefsGood(g, fl) || !RefsOnce(fl)
      invariant !restart ==> BitsNoted(fl, lo, work[..], s) && RefsNoted(fl, lo, work[..], s, 0) && Untroubled(g, fl, lo, lo + work.Length, s, 0)
    {
      restart := ScanPage(g, fl, lo, work, s);
      s := s + 1;
    }
  }

  lemma NothingYet(g: Geometry, fl: Flash, lo: nat, w: seq<Nibble>)
    requires forall k {:trigger w[k]} :: 0 <= k < |w| ==> w[k] == BLANK
    ensures BitsNoted(fl, lo, w, 0) && RefsNoted(fl, lo, w, 0, 0) && Untroubled(g, fl, lo, lo + |w|, 0, 0)
  {
    forall t, i, r | Refers(fl, t, i, r)
      ensures !Earlier(t, i, 0, 0)
    {
    }
    forall r: int
      ensures !ReferredBefore(fl, r, 0, 0)
    {
    }
  }

  /** Looks for pages of the window that are used, not referred to, and no index pages. */
  method Judge(work: array<Nibble>) returns (orphan: bool, at: nat)
    ensures orphan ==> at < work.Length && work[at] == Nibble(true, false, false)
    ensures !orphan ==> forall k :: 0 <= k < work.Length ==> work[k] != Nibble(true, false, false)
  {
    at := 0;
    while at < work.Length
      invariant at <= work.Length
      invariant forall k :: 0 <= k < at ==> work[k] != Nibble(true, false, false)
    {
      if work[at] == Nibble(true, false, false) {
        return true, at;
      }
      at := at + 1;
    }
    orphan := false;
  }

  /** What the windows in front of `lo` have shown. */
  ghost predicate Shown(g: Geometry, fl: Flash, lo: int) {
    && (lo > 0 ==> forall t, i, r :: Refers(fl, t, i, r) ==> r == NONE || 0 <= r < |fl.pages|)
    && (forall t, i, r :: Refers(fl, t, i, r) && 0 <= r < lo ==> GoodRef(g, fl, fl.pages[t], i))
    && (forall t, i, u, j, r :: Refers(fl, t, i, r) && Refers(fl, u, j, r) && 0 <= r < lo ==> t == u && i == j)
    && (forall p :: 0 <= p < lo && p < |fl.pages| && UsedPage(fl.pages[p]) && !LiveIndex(fl.pages[p]) ==> exists s, i :: Refers(fl, s, i, p))
  }

  lemma WindowShown(g: Geometry, fl: Flash, lo: nat, w: seq<Nibble>)
    requires Shown(g, fl, lo) && |w| > 0
    requires BitsNoted(fl, lo, w, |fl.pages|) && RefsNoted(fl, lo, w, |fl.pages|, 0) && Untroubled(g, fl, lo, lo + |w|, |fl.pages|, 0)
    requires forall k {:trigger w[k]} :: 0 <= k < |w| ==> w[k] != Nibble(true, false, false)
    ensures Shown(g, fl, lo + |w|)
  {
    forall t, i, r | Refers(fl, t, i, r)
      ensures Earlier(t, i, |fl.pages|, 0)
    {
    }
    forall p | lo <= p < lo + |w| && p < |fl.pages| && UsedPage(fl.pages[p]) && !LiveIndex(fl.pages[p])
      ensures exists s, i :: Refers(fl, s, i, p)
    {
      var b := w[p - lo];
      assert lo + (p - lo) == p;
      assert ReferredBefore(fl, p, |fl.pages|, 0);
    }
  }

  lemma ReferredAtEnd(fl: Flash, p: int)
    ensures (exists s, i :: Refers(fl, s, i, p)) ==> ReferredBefore(fl, p, |fl.pages|, 0)
  {
    if s, i :| Refers(fl, s, i, p) {
      assert Earlier(s, i, |fl.pages|, 0);
    }
  }

  lemma OrphanFound(fl: Flash, lo: nat, w: seq<Nibble>, k: nat)
    requires BitsNoted(fl, lo, w, |fl.pages|) && RefsNoted(fl, lo, w, |fl.pages|, 0)
    requires k < |w| && w[k] == Nibble(true, false, false)
    ensures !NoOrphans(fl)
  {
    var p := lo + k;
    ReferredAtEnd(fl, p);
    assert UsedPage(fl.pages[p]) && !LiveIndex(fl.pages[p]);
    assert !(exists s, i :: Refers(fl, s, i, p));
  }

  /** The whole check, window by window, whatever the windows: it finds nothing to mend exactly if
      every reference is good, no page is referred to twice, and every used data page is referred
      to. It terminates then, and it writes nothing. */
  method Check(g: Geometry, fl: Flash, width: nat) returns (quiet: bool)
    requires Shaped(g, fl) && width > 0
    ensures quiet <==> RefsGood(g, fl) && RefsOnce(fl) && NoOrphans(fl)
  {
    hide RefsGood;
    hide RefsOnce;
    hide NoOrphans;
    var lo := 0;
    ShownStart(g, fl);
    while lo < g.Total()
      invariant Shown(g, fl, lo)
    {
      var work := new Nibble[width](_ => BLANK);
      var restart := ScanWindow(g, fl, lo, work);
      if restart {
        return false;
      }
      var orphan, at := Judge(work);
      if orphan {
        OrphanFound(fl, lo, work[..], at);
        return false;
      }
      WindowShown(g, fl, lo, work[..]);
      lo := lo + width;
    }
    AllShown(g, fl, lo);
    quiet := true;
  }

  lemma ShownStart(g: Geometry, fl: Flash)
    ensures Shown(g, fl, 0)
  {
  }

  lemma AllShown(g: Geometry, fl: Flash, lo: nat)
    requires Shown(g, fl, lo) && |fl.pages| <= lo && (lo == 0 ==> |fl.pages| == 0)
    ensures RefsGood(g, fl) && RefsOnce(fl) && NoOrphans(fl)
  {
    forall s, i | 0 <= s < |fl.pages| && LiveIndex(fl.pages[s]) && 0 <= i < |RefsOf(fl.pages[s].body)|
      ensures GoodRef(g, fl, fl.pages[s], i)
    {
      assert Refers(fl, s, i, RefsOf(fl.pages[s].body)[i]);
    }
  }

  // A consistent medium passes the check.

  lemma OnlyLiveUsed(g: Geometry, fl: Flash, dir: Dir, s: int)
    requires Linked(g, fl, dir) && DeadMarked(fl) && 0 <= s < |fl.pages| && UsedPage(fl.pages[s])
    ensures |fl.lu| == |fl.pages| && Live(fl.lu[s]) && (LiveIndex(fl.pages[s]) <==> IsIndexId(fl.lu[s]))
    ensures GoodPage(g, fl.lu[s], fl.pages[s]) && KeyAt(fl, s) in dir && dir[KeyAt(fl, s)] == s
  {
    hide RefsLead;
    hide DataReferred;
  }

  lemma RefersWell(g: Geometry, fl: Flash, dir: Dir, s: int, i: int, r: int)
    requires Linked(g, fl, dir) && DeadMarked(fl) && Refers(fl, s, i, r) && r != NONE
    ensures KeyAt(fl, s) in dir && dir[KeyAt(fl, s)] == s && RefLeads(g, fl, KeyAt(fl, s), i, r)
    ensures UsedPage(fl.pages[s]) && Live(fl.lu[r]) && GoodPage(g, fl.lu[r], fl.pages[r])
  {
    OnlyLiveUsed(g, fl, dir, s);
    var k := KeyAt(fl, s);
    assert RefsAt(fl, dir, k) == RefsOf(fl.pages[s].body) && RefAt(fl, dir, k, i) == r;
    assert RefLeads(g, fl, k, i, RefAt(fl, dir, k, i));
  }

  lemma LinkedRefsGood(g: Geometry, fl: Flash, dir: Dir)
    requires Linked(g, fl, dir) && DeadMarked(fl)
    ensures RefsGood(g, fl)
  {
    hide Linked;
    hide RefLeads;
    forall s, i | 0 <= s < |fl.pages| && LiveIndex(fl.pages[s]) && 0 <= i < |RefsOf(fl.pages[s].body)|
      ensures GoodRef(g, fl, fl.pages[s], i)
    {
      LinkedGoodRef(g, fl, dir, s, i);
    }
  }

  lemma LinkedGoodRef(g: Geometry, fl: Flash, dir: Dir, s: int, i: int)
    requires Linked(g, fl, dir) && DeadMarked(fl)
    requires 0 <= s < |fl.pages| && LiveIndex(fl.pages[s]) && 0 <= i < |RefsOf(fl.pages[s].body)|
    ensures GoodRef(g, fl, fl.pages[s], i)
  {
    hide RefsLead;
    hide DataReferred;
    hide Locates;
    hide ErasedFree;
    var r := RefsOf(fl.pages[s].body)[i];
    if r != NONE {
      assert Refers(fl, s, i, r);
      RefersWell(g, fl, dir, s, i, r);
      OnlyLiveUsed(g, fl, dir, s);
      IxCover(g, fl.pages[r].span);
    }
  }

  lemma LinkedRefsOnce(g: Geometry, fl: Flash, dir: Dir)
    requires Linked(g, fl, dir) && DeadMarked(fl)
    ensures RefsOnce(fl)
  {
    hide Linked;
    hide DeadMarked;
    hide GoodPage;
    forall s, i, t, j, r | r != NONE && Refers(fl, s, i, r) && Refers(fl, t, j, r)
      ensures s == t && i == j
    {
      RefersWell(g, fl, dir, s, i, r);
      RefersWell(g, fl, dir, t, j, r);
      OnlyLiveUsed(g, fl, dir, s);
      OnlyLiveUsed(g, fl, dir, t);
      assert KeyAt(fl, s) == KeyAt(fl, t);
    }
  }

  lemma LinkedNoOrphans(g: Geometry, fl: Flash, dir: Dir)
    requires Linked(g, fl, dir) && DeadMarked(fl)
    ensures NoOrphans(fl)
  {
    hide GoodPages;
    hide RefsLead;
    hide ErasedFree;
    forall p | 0 <= p < |fl.pages| && UsedPage(fl.pages[p]) && !LiveIndex(fl.pages[p])
      ensures exists s, i :: Refers(fl, s, i, p)
    {
      OnlyLiveUsed(g, fl, dir, p);
      var k := KeyAt(fl, p);
      assert Referred(g, fl, dir, k);
      var s, i := dir[IndexKey(g, k)], IxEntry(g, k.span);
      assert KeyAt(fl, s) == IndexKey(g, k);
      IndexIsLive(g, fl, dir, s);
      assert Refers(fl, s, i, p);
    }
  }

  lemma IndexIsLive(g: Geometry, fl: Flash, dir: Dir, s: int)
    requires Linked(g, fl, dir) && 0 <= s < |fl.lu| && Live(fl.lu[s]) && IsIndexId(fl.lu[s])
    ensures LiveIndex(fl.pages[s])
  {
    hide RefsLead;
    hide DataReferred;
    hide Locates;
  }

  /** On a consistent medium the check finds nothing to mend: it neither restarts nor writes. */
  lemma LinkedPasses(g: Geometry, fl: Flash, dir: Dir)
    requires Linked(g, fl, dir) && DeadMarked(fl)
    ensures RefsGood(g, fl) && RefsOnce(fl) && NoOrphans(fl)
  {
    LinkedRefsGood(g, fl, dir);
    LinkedRefsOnce(g, fl, dir);
    LinkedNoOrphans(g, fl, dir);
  }

  // And what a quiet check means.

  /** No live index page is there twice. */
  ghost predicate IndexOnce(fl: Flash)
    requires |fl.lu| == |fl.pages|
  {
    forall s, t :: 0 <= s < |fl.lu| && 0 <= t < |fl.lu| && Live(fl.lu[s]) && IsIndexId(fl.lu[s]) && KeyAt(fl, s) == KeyAt(fl, t) ==> s == t
  }

  /** Each live index page has a header page beside it. */
  ghost predicate HeadersThere(fl: Flash)
    requires |fl.lu| == |fl.pages|
  {
    forall s :: 0 <= s < |fl.lu| && Live(fl.lu[s]) && IsIndexId(fl.lu[s]) ==> exists t :: 0 <= t < |fl.lu| && KeyAt(fl, t) == Key(fl.lu[s], 0)
  }

  /** Where pages are laid out as their entries say, a used page is live. */
  lemma UsedLive(g: Geometry, fl: Flash, s: int)
    requires Shaped(g, fl) && ErasedFree(fl) && GoodPages(g, fl) && DeadMarked(fl) && 0 <= s < |fl.lu|
    ensures fl.pages[s].flags.delet && !fl.pages[s].flags.used <==> Live(fl.lu[s])
    ensures Live(fl.lu[s]) ==> GoodPage(g, fl.lu[s], fl.pages[s]) && (LiveIndex(fl.pages[s]) <==> IsIndexId(fl.lu[s]))
  {
  }

  /** A good reference leads to the live data page of its place. */
  lemma GoodLeads(g: Geometry, fl: Flash, s: int, i: int, r: int)
    requires Shaped(g, fl) && ErasedFree(fl) && GoodPages(g, fl) && DeadMarked(fl) && RefsGood(g, fl) && Refers(fl, s, i, r) && r != NONE
    ensures 0 <= s < |fl.lu| && Live(fl.lu[s]) && IsIndexId(fl.lu[s]) && RefLeads(g, fl, KeyAt(fl, s), i, r)
  {
    hide ErasedFree;
    hide DeadMarked;
    hide GoodPages;
    hide IxSpan;
    hide IxEntry;
    UsedLive(g, fl, s);
    assert GoodRef(g, fl, fl.pages[s], i);
    UsedLive(g, fl, r);
    IxRoundTrip(g, SpanOf(fl.pages[s]), i);
  }

  /** Then no live data page is there twice either: both would be referred to from one place. */
  lemma DataOnce(g: Geometry, fl: Flash, s: int, t: int)
    requires Shaped(g, fl) && ErasedFree(fl) && GoodPages(g, fl) && DeadMarked(fl)
    requires RefsGood(g, fl) && NoOrphans(fl) && IndexOnce(fl)
    requires 0 <= s < |fl.lu| && 0 <= t < |fl.lu| && Live(fl.lu[s]) && !IsIndexId(fl.lu[s]) && KeyAt(fl, s) == KeyAt(fl, t)
    ensures s == t
  {
    hide ErasedFree;
    hide DeadMarked;
    hide GoodPages;
    hide RefsGood;
    hide IxSpan;
    hide IxEntry;
    UsedLive(g, fl, s);
    UsedLive(g, fl, t);
    var x, i :| Refers(fl, x, i, s);
    var y, j :| Refers(fl, y, j, t);
    GoodLeads(g, fl, x, i, s);
    GoodLeads(g, fl, y, j, t);
    assert KeyAt(fl, x) == KeyAt(fl, y);
  }

  /** Where every live page is, when none is there twice. */
  ghost function Slots(fl: Flash): (d: Dir)
    requires |fl.lu| == |fl.pages|
    requires forall s, t :: 0 <= s < |fl.lu| && 0 <= t < |fl.lu| && Live(fl.lu[s]) && KeyAt(fl, s) == KeyAt(fl, t) ==> s == t
    ensures Locates(fl, d)
  {
    map s | 0 <= s < |fl.lu| && Live(fl.lu[s]) :: KeyAt(fl, s) := s
  }

  /** A medium whose pages are laid out as their entries say, with one copy of each index page and a header
      for each file, and on which the check finds nothing, is consistent. */
  lemma PassedLinked(g: Geometry, fl: Flash) returns (d: Dir)
    requires Shaped(g, fl) && ErasedFree(fl) && GoodPages(g, fl) && DeadMarked(fl)
    requires RefsGood(g, fl) && NoOrphans(fl) && IndexOnce(fl) && HeadersThere(fl)
    ensures Linked(g, fl, d)
  {
    hide ErasedFree;
    hide DeadMarked;
    hide GoodPages;
    hide RefsGood;
    hide RefLeads;
    hide IxSpan;
    hide IxEntry;
    forall s, t | 0 <= s < |fl.lu| && 0 <= t < |fl.lu| && Live(fl.lu[s]) && KeyAt(fl, s) == KeyAt(fl, t)
      ensures s == t
    {
      if !IsIndexId(fl.lu[s]) {
        DataOnce(g, fl, s, t);
      }
    }
    d := Slots(fl);
    forall k, i | k in d && IsIndexId(k.id) && RefAt(fl, d, k, i) != NONE
      ensures RefLeads(g, fl, k, i, RefAt(fl, d, k, i))
    {
      UsedLive(g, fl, d[k]);
      assert Refers(fl, d[k], i, RefAt(fl, d, k, i));
      GoodLeads(g, fl, d[k], i, RefAt(fl, d, k, i));
    }
    forall k | k in d && !IsIndexId(k.id)
      ensures Referred(g, fl, d, k)
    {
      PassedReferred(g, fl, d, k);
    }
  }

  lemma PassedReferred(g: Geometry, fl: Flash, d: Dir, k: Key)
    requires Shaped(g, fl) && ErasedFree(fl) && GoodPages(g, fl) && DeadMarked(fl)
    requires RefsGood(g, fl) && NoOrphans(fl) && Locates(fl, d) && k in d && !IsIndexId(k.id)
    ensures Referred(g, fl, d, k)
  {
    hide ErasedFree;
    hide DeadMarked;
    hide GoodPages;
    hide RefsGood;
    hide IxSpan;
    hide IxEntry;
    UsedLive(g, fl, d[k]);
    var x, i :| Refers(fl, x, i, d[k]);
    GoodLeads(g, fl, x, i, d[k]);
    assert KeyAt(fl, x) == IndexKey(g, k);
  }

  /** So where pages are laid out as their entries say, a medium is consistent if and only if the check finds
      nothing, no index page is there twice, and no header is missing; for the last two it does not look. */
  lemma CheckedExact(g: Geometry, fl: Flash)
    requires Shaped(g, fl) && ErasedFree(fl) && GoodPages(g, fl) && DeadMarked(fl)
    ensures (exists d :: Linked(g, fl, d)) <==> RefsGood(g, fl) && RefsOnce(fl) && NoOrphans(fl) && IndexOnce(fl) && HeadersThere(fl)
  {
    hide ErasedFree;
    hide DeadMarked;
    hide GoodPages;
    if d :| Linked(g, fl, d) {
      LinkedPasses(g, fl, d);
      LinkedOnce(g, fl, d);
    }
    if RefsGood(g, fl) && NoOrphans(fl) && IndexOnce(fl) && HeadersThere(fl) {
      var d := PassedLinked(g, fl);
    }
  }

  lemma LinkedOnce(g: Geometry, fl: Flash, d: Dir)
    requires Linked(g, fl, d)
    ensures IndexOnce(fl) && HeadersThere(fl)
  {
    hide RefsLead;
    hide DataReferred;
    hide GoodPages;
    forall s | 0 <= s < |fl.lu| && Live(fl.lu[s]) && IsIndexId(fl.lu[s])
      ensures exists t :: 0 <= t < |fl.lu| && KeyAt(fl, t) == Key(fl.lu[s], 0)
    {
      var t := d[Key(KeyAt(fl, s).id, 0)];
      assert KeyAt(fl, t) == Key(fl.lu[s], 0);
    }
  }

  // The lookup check, which comes before.

  /** What the check of one lookup entry against its page header may find. */
  datatype Finding = Fine | GoneOnlyInLookup | OtherObject | OtherKind | GoneOnlyOnPage | NotFinal

  function Validate(entry: int, p: Page): Finding {
    if (entry == DELETED && p.flags.delet) || (entry == FREE && !p.flags.used) then GoneOnlyInLookup
    else if !Live(entry) then Fine
    else if ObjectId(p.id) != ObjectId(entry) then OtherObject
    else if IsIndexId(entry) == p.flags.index then OtherKind
    else if !p.flags.delet then GoneOnlyOnPage
    else if p.flags.final then NotFinal
    else Fine
  }

  /** A lookup entry and the header of its page agree: a deleted entry has a page marked deleted, a free
      one an unused page, any other one a page of the same object and kind, finished and not deleted. */
  predicate Agree(entry: int, p: Page) {
    && (entry == DELETED ==> !p.flags.delet)
    && (entry == FREE ==> p.flags.used)
    && (Live(entry) ==> ObjectId(p.id) == ObjectId(entry) && (IsIndexId(entry) <==> !p.flags.index) && p.flags.delet && !p.flags.final)
  }

  ghost predicate LookupFine(fl: Flash) {
    forall s {:trigger fl.lu[s]} :: 0 <= s < |fl.lu| && s < |fl.pages| ==> Agree(fl.lu[s], fl.pages[s])
  }

  /** Nothing is found exactly where entry and header agree, and what is found is so. */
  lemma ValidateExact(entry: int, p: Page)
    ensures Validate(entry, p) == Fine <==> Agree(entry, p)
    ensures Validate(entry, p) == GoneOnlyInLookup <==> (entry == DELETED && p.flags.delet) || (entry == FREE && !p.flags.used)
    ensures Validate(entry, p) == OtherObject <==> Live(entry) && ObjectId(p.id) != ObjectId(entry)
    ensures Validate(entry, p) == OtherKind ==> Live(entry) && (IsIndexId(entry) <==> p.flags.index)
    ensures Validate(entry, p) == GoneOnlyOnPage ==> Live(entry) && !p.flags.delet
    ensures Validate(entry, p) == NotFinal ==> Live(entry) && p.flags.final
  {
    if entry == DELETED || entry == FREE {
      assert !Live(entry);
    }
  }

  /** Looks through all lookup entries for one that calls for mending. */
  method CheckLookup(g: Geometry, fl: Flash) returns (quiet: bool)
    requires Shaped(g, fl)
    ensures quiet <==> LookupFine(fl)
  {
    hide Validate;
    hide Agree;
    hide Geometry.Total;
    hide Geometry.BlockStart;
    hide Before;
    hide StartSlot;
    var accept := (s: nat) => s < |fl.lu| && s < |fl.pages| && Validate(fl.lu[s], fl.pages[s]) != Fine;
    var found, block, entry;
    ghost var visits;
    found, block, entry, visits := FindEntry(g, 0, 0, accept);
    quiet := !found;
    if found {
      var s := g.BlockStart(block) + entry;
      assert accept(s);
      ValidateExact(fl.lu[s], fl.pages[s]);
    } else {
      forall s: nat | s < |fl.lu|
        ensures Agree(fl.lu[s], fl.pages[s])
      {
        assert !accept(s);
        ValidateExact(fl.lu[s], fl.pages[s]);
      }
    }
  }

  /** A consistent medium passes both checks: neither of them writes anything. */
  lemma LinkedLookupFine(g: Geometry, fl: Flash, dir: Dir)
    requires Linked(g, fl, dir) && DeadMarked(fl)
    ensures LookupFine(fl)
  {
    hide RefsLead;
    hide DataReferred;
    hide Locates;
    forall s | 0 <= s < |fl.lu|
      ensures Agree(fl.lu[s], fl.pages[s])
    {
      assert Live(fl.lu[s]) ==> GoodPage(g, fl.lu[s], fl.pages[s]);
    }
  }

  /** After any history of calls the checks have nothing to mend. */
  lemma ReachedPasses(fs: Spiffs, dir: Dir)
    requires AtRest(fs, dir)
    ensures LookupFine(fs.flash) && RefsGood(fs.g, fs.flash) && RefsOnce(fs.flash) && NoOrphans(fs.flash)
  {
    hide Linked;
    LinkedLookupFine(fs.g, fs.flash, dir);
    LinkedPasses(fs.g, fs.flash, dir);
  }
}
