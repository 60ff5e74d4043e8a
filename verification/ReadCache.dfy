/** The page cache between the file system and the flash chip. */
module ReadCache {
  import opened Words
  import opened Medium

  /** A cache page: a copy of flash page `pix`, or (`wr`) bytes some file has yet to be given. */
  datatype CPage = CPage(used: bool, wr: bool, pix: int, access: nat, data: seq<int>)

  /** What a read or write is for. Second-layer lookups are not worth a cache page; write-through
      writes go past the cache; deletes drop the page. */
  datatype Purpose = Plain | SecondLayer | WriteThrough | Delete | DeleteEntry

  /** `src` put at `at`. */
  function Put(page: seq<int>, at: nat, src: seq<int>): (r: seq<int>)
    requires at + |src| <= |page|
    ensures |r| == |page|
    ensures forall x {:trigger r[x]} :: 0 <= x < |r| ==> r[x] == if at <= x < at + |src| then src[x - at] else page[x]
  {
    page[..at] + src + page[at + |src|..]
  }

  /** What programming `src` at `at` leaves. */
  function Programmed(page: seq<int>, at: nat, src: seq<int>): (r: seq<int>)
    requires at + |src| <= |page|
    ensures |r| == |page|
    ensures forall x {:trigger r[x]} :: 0 <= x < |r| ==> r[x] == if at <= x < at + |src| then And(page[x], src[x - at]) else page[x]
  {
    Put(page, at, AndWords(page[at..at + |src|], src))
  }

  /** The write only clears bits: it stores what it writes. */
  ghost predicate Clears(page: seq<int>, at: nat, src: seq<int>)
    requires at + |src| <= |page|
  {
    forall i :: 0 <= i < |src| ==> Covers(page[at + i], src[i])
  }

  /** A cached copy that was written to stays a copy exactly if the write only cleared bits. */
  lemma CopyAfterWrite(page: seq<int>, at: nat, src: seq<int>)
    requires at + |src| <= |page|
    ensures Put(page, at, src) == Programmed(page, at, src) <==> Clears(page, at, src)
  {
    hide Put;
    hide Programmed;
    var a, b := Put(page, at, src), Programmed(page, at, src);
    if a == b {
      forall i | 0 <= i < |src|
        ensures Covers(page[at + i], src[i])
      {
        assert a[at + i] == b[at + i];
      }
    } else if Clears(page, at, src) {
      forall x | 0 <= x < |page|
        ensures a[x] == b[x]
      {
        if at <= x < at + |src| {
          assert Covers(page[at + (x - at)], src[x - at]);
        }
      }
    }
  }

  /** A write stores exactly what it writes, as the writes of new pages and of lookup entries do,
      exactly if it only clears bits. */
  lemma StoresExactly(page: seq<int>, at: nat, src: seq<int>)
    requires at + |src| <= |page|
    ensures Programmed(page, at, src)[at..at + |src|] == src <==> Clears(page, at, src)
  {
    hide Programmed;
    var r := Programmed(page, at, src);
    if r[at..at + |src|] == src {
      forall i | 0 <= i < |src|
        ensures Covers(page[at + i], src[i])
      {
        assert r[at..at + |src|][i] == r[at + i];
      }
    } else if Clears(page, at, src) {
      forall i | 0 <= i < |src|
        ensures r[at + i] == src[i]
      {
        assert Covers(page[at + i], src[i]);
      }
    }
  }

  // What holds of a set of cache pages.

  /** A cache page is free, holds pending bytes, or is a true copy of its page. */
  ghost predicate TrueCopy(flash: seq<seq<int>>, c: CPage) {
    c.used && !c.wr ==> 0 <= c.pix < |flash| && c.data == flash[c.pix]
  }

  /** Every cached page outside `lo..hi` equals the page on flash. */
  ghost predicate CopiesBut(flash: seq<seq<int>>, s: seq<CPage>, lo: int, hi: int) {
    forall i {:trigger s[i]} :: 0 <= i < |s| && !(lo <= s[i].pix < hi) ==> TrueCopy(flash, s[i])
  }

  /** Every cached page equals the page on flash. */
  ghost predicate Copies(flash: seq<seq<int>>, s: seq<CPage>) {
    forall i {:trigger s[i]} :: 0 <= i < |s| ==> TrueCopy(flash, s[i])
  }

  predicate IsCopyOf(c: CPage, pix: int) {
    c.used && !c.wr && c.pix == pix
  }

  ghost predicate Cached(s: seq<CPage>, pix: int) {
    exists i :: 0 <= i < |s| && IsCopyOf(s[i], pix)
  }

  /** Whole pages, no page cached twice, and no access in the future. */
  ghost predicate Sane(pageLen: nat, flash: seq<seq<int>>, s: seq<CPage>, clock: nat) {
    && (forall p :: 0 <= p < |flash| ==> |flash[p]| == pageLen)
    && (forall i {:trigger s[i]} :: 0 <= i < |s| ==> s[i].access <= clock)
    && (forall i {:trigger s[i]} :: 0 <= i < |s| && s[i].used && !s[i].wr ==> 0 <= s[i].pix < |flash| && |s[i].data| == pageLen)
    && (forall i, j :: 0 <= i < |s| && 0 <= j < |s| && s[i].used && !s[i].wr && IsCopyOf(s[j], s[i].pix) ==> i == j)
  }

  /** One cache page changed, if any; and where it held another copy, every cache page was in use, and no
      copy had gone without access for longer. */
  ghost predicate OneReplaced(s: seq<CPage>, s': seq<CPage>) {
    && |s'| == |s|
    && (forall i, j {:trigger s'[i], s'[j]} :: 0 <= i < |s| && 0 <= j < |s| && s'[i] != s[i] && s'[j] != s[j] ==> i == j)
    && (forall i, j {:trigger s'[i], s[j]} :: 0 <= i < |s| && 0 <= j < |s| && s[i].used && s'[i].pix != s[i].pix ==> s[j].used && (!s[j].wr ==> s[i].access <= s[j].access))
  }

  /** Some cache page holds no pending bytes. */
  ghost predicate Spare(s: seq<CPage>) {
    exists i :: 0 <= i < |s| && !(s[i].used && s[i].wr)
  }

  lemma Unreplaced(s: seq<CPage>)
    ensures OneReplaced(s, s)
  {
  }

  /** The oldest copy was given up if all cache pages were in use, and another took its place. */
  lemma Replaced(s0: seq<CPage>, s: seq<CPage>, freed: bool, gone: nat, ix: nat, c: CPage, pix: nat)
    requires if freed then gone < |s0| && s0[gone].used && !s0[gone].wr && s == s0[gone := s0[gone].(used := false, wr := false)] && OldestIs(s0, gone) else s == s0
    requires ix < |s| && !s[ix].used && IsCopyOf(c, pix)
    ensures OneReplaced(s0, s[ix := c]) && Spare(s0) && Cached(s[ix := c], pix)
  {
    assert !(s0[ix].used && s0[ix].wr);
    assert IsCopyOf(s[ix := c][ix], pix);
  }

  /** All cache pages are in use, and none was accessed before cache page `ix`. */
  ghost predicate OldestIs(s: seq<CPage>, ix: nat)
    requires ix < |s|
  {
    forall i {:trigger s[i]} :: 0 <= i < |s| ==> s[i].used && (!s[i].wr ==> s[ix].access <= s[i].access)
  }

  lemma NoneSpare(s0: seq<CPage>, s: seq<CPage>, freed: bool, gone: nat, clock: nat)
    requires if freed then gone < |s| && !s[gone].used
      else s == s0 && ((exists i :: 0 <= i < |s0| && !s0[i].used) || forall i :: 0 <= i < |s0| && !s0[i].wr ==> s0[i].access == clock)
    requires forall i :: 0 <= i < |s| ==> s[i].used
    ensures !freed && ((forall i :: 0 <= i < |s0| ==> s0[i].access < clock) ==> !Spare(s0))
  {
  }

  /** Pages with pending bytes are where they were. */
  ghost predicate PendingKept(s: seq<CPage>, s': seq<CPage>) {
    |s'| == |s| && forall i {:trigger s'[i]} :: 0 <= i < |s| && s[i].used && s[i].wr ==> s'[i] == s[i]
  }

  lemma OneTouched(pageLen: nat, flash: seq<seq<int>>, s: seq<CPage>, clock: nat, clock': nat, ix: nat, c: CPage)
    requires Sane(pageLen, flash, s, clock) && ix < |s| && clock <= clock' && c.access <= clock'
    requires c.used && !c.wr ==> 0 <= c.pix < |flash| && |c.data| == pageLen
    requires c.used && !c.wr ==> IsCopyOf(s[ix], c.pix) || !Cached(s, c.pix)
    ensures Sane(pageLen, flash, s[ix := c], clock')
    ensures Copies(flash, s) && TrueCopy(flash, c) ==> Copies(flash, s[ix := c])
    ensures !(s[ix].used && s[ix].wr) ==> PendingKept(s, s[ix := c])
  {
    var s' := s[ix := c];
    assert forall j {:trigger s[j]} :: 0 <= j < |s| && j != ix && c.used && !c.wr ==> !IsCopyOf(s[j], c.pix);
    forall i, j | 0 <= i < |s'| && 0 <= j < |s'| && s'[i].used && !s'[i].wr && IsCopyOf(s'[j], s'[i].pix)
      ensures i == j
    {
      assert i != ix ==> s'[i] == s[i];
      assert j != ix ==> s'[j] == s[j];
    }
  }

  /** A write to page `pix`, whose copy, if there is one, is cache page `ix`. */
  lemma SaneWritten(pageLen: nat, flash: seq<seq<int>>, s: seq<CPage>, clock: nat, pix: nat, page: seq<int>)
    requires Sane(pageLen, flash, s, clock) && pix < |flash| && |page| == |flash[pix]|
    ensures Sane(pageLen, flash[pix := page], s, clock)
  {
  }

  lemma PageWritten(flash: seq<seq<int>>, s: seq<CPage>, pix: nat, page: seq<int>, ix: nat, c: CPage)
    requires pix < |flash| && ix < |s| && Copies(flash, s)
    requires forall i :: 0 <= i < |s| && i != ix ==> !IsCopyOf(s[i], pix)
    ensures Copies(flash[pix := page], s[ix := c]) <==> TrueCopy(flash[pix := page], c)
  {
    var s' := s[ix := c];
    forall i | 0 <= i < |s'| && i != ix
      ensures TrueCopy(flash[pix := page], s'[i])
    {
      assert s'[i] == s[i] && TrueCopy(flash, s[i]) && !IsCopyOf(s[i], pix);
    }
    assert s'[ix] == c;
  }

  lemma UncachedWritten(flash: seq<seq<int>>, s: seq<CPage>, pix: nat, page: seq<int>)
    requires pix < |flash| && Copies(flash, s) && !Cached(s, pix)
    ensures Copies(flash[pix := page], s)
  {
    forall i | 0 <= i < |s|
      ensures TrueCopy(flash[pix := page], s[i])
    {
      assert TrueCopy(flash, s[i]) && !IsCopyOf(s[i], pix);
    }
  }

  lemma StillUncached(s: seq<CPage>, ix: nat, pix: int)
    requires ix < |s| && !Cached(s, pix)
    ensures !Cached(s[ix := s[ix].(used := false, wr := false)], pix)
  {
    var s' := s[ix := s[ix].(used := false, wr := false)];
    forall i | 0 <= i < |s'|
      ensures !IsCopyOf(s'[i], pix)
    {
      assert !IsCopyOf(s[i], pix);
    }
  }

  /** Getting a page does not change what is cached. */
  lemma GetKeeps(flash: seq<seq<int>>, s: seq<CPage>, s': seq<CPage>, hit: bool, ix: nat, pix: nat)
    requires |s'| == |s| && if hit then ix < |s| && s' == s[ix := s[ix].(access := s'[ix].access)] else s' == s
    ensures Copies(flash, s) <==> Copies(flash, s')
    ensures forall lo, hi :: CopiesBut(flash, s, lo, hi) ==> CopiesBut(flash, s', lo, hi)
    ensures PendingKept(s, s') || (hit && s[ix].wr)
  {
    forall i | 0 <= i < |s|
      ensures TrueCopy(flash, s[i]) <==> TrueCopy(flash, s'[i])
      ensures s'[i].pix == s[i].pix
    {
    }
  }

  /** A page stays cached unless its one copy, cache page `ix`, is given up. */
  lemma CachedAfter(s0: seq<CPage>, s: seq<CPage>, hit: bool, ix: nat, pix: int, gone: bool)
    requires |s| == |s0| && (hit <==> Cached(s0, pix))
    requires if hit then ix < |s| && (forall i :: 0 <= i < |s| && i != ix ==> s[i] == s0[i] && !IsCopyOf(s0[i], pix)) && (IsCopyOf(s[ix], pix) <==> !gone) else s == s0
    ensures Cached(s, pix) <==> Cached(s0, pix) && (hit ==> !gone)
  {
    if hit && gone {
      forall i | 0 <= i < |s|
        ensures !IsCopyOf(s[i], pix)
      {
        assert i != ix ==> s[i] == s0[i];
      }
    }
  }

  /** A write past the cache. */
  lemma OnlyPage(flash: seq<seq<int>>, s: seq<CPage>, pix: nat, page: seq<int>)
    requires pix < |flash|
    ensures forall lo, hi :: lo <= pix < hi && CopiesBut(flash, s, lo, hi) ==> CopiesBut(flash[pix := page], s, lo, hi)
    ensures Copies(flash, s) && !Cached(s, pix) ==> Copies(flash[pix := page], s)
  {
    if Copies(flash, s) && !Cached(s, pix) {
      UncachedWritten(flash, s, pix, page);
    }
    forall lo, hi | lo <= pix < hi && CopiesBut(flash, s, lo, hi)
      ensures CopiesBut(flash[pix := page], s, lo, hi)
    {
      forall i | 0 <= i < |s| && !(lo <= s[i].pix < hi)
        ensures TrueCopy(flash[pix := page], s[i])
      {
        assert TrueCopy(flash, s[i]);
      }
    }
  }

  lemma OnlyCopy(pageLen: nat, flash: seq<seq<int>>, s: seq<CPage>, clock: nat, ix: nat, pix: nat)
    requires Sane(pageLen, flash, s, clock) && ix < |s| && IsCopyOf(s[ix], pix)
    ensures forall i :: 0 <= i < |s| && i != ix ==> !IsCopyOf(s[i], pix)
    ensures |s[ix].data| == pageLen && pix < |flash|
    ensures Copies(flash, s) ==> s[ix].data == flash[pix]
  {
  }

  /** A write to a page and to its copy, cache page `ix`, which becomes `c`. */
  lemma CopyWritten(flash: seq<seq<int>>, s: seq<CPage>, pix: nat, page: seq<int>, ix: nat, c: CPage)
    requires pix < |flash| && ix < |s| && IsCopyOf(s[ix], pix) && c.pix == pix
    requires forall i :: 0 <= i < |s| && i != ix ==> !IsCopyOf(s[i], pix)
    ensures Copies(flash, s) ==> (Copies(flash[pix := page], s[ix := c]) <==> TrueCopy(flash[pix := page], c))
    ensures forall lo, hi :: lo <= pix < hi && CopiesBut(flash, s, lo, hi) ==> CopiesBut(flash[pix := page], s[ix := c], lo, hi)
  {
    var s' := s[ix := c];
    if Copies(flash, s) {
      PageWritten(flash, s, pix, page, ix, c);
    }
    forall lo, hi | lo <= pix < hi && CopiesBut(flash, s, lo, hi)
      ensures CopiesBut(flash[pix := page], s', lo, hi)
    {
      forall i | 0 <= i < |s'| && !(lo <= s'[i].pix < hi)
        ensures TrueCopy(flash[pix := page], s'[i])
      {
        assert s'[i] == s[i] && TrueCopy(flash, s[i]);
      }
    }
  }

  lemma ErasedUnder(flash: seq<seq<int>>, flash': seq<seq<int>>, s: seq<CPage>, lo: int, hi: int)
    requires |flash'| == |flash| && forall p :: 0 <= p < |flash| && !(lo <= p < hi) ==> flash'[p] == flash[p]
    ensures Copies(flash, s) ==> CopiesBut(flash', s, lo, hi)
  {
    if Copies(flash, s) {
      forall i | 0 <= i < |s| && !(lo <= s[i].pix < hi)
        ensures TrueCopy(flash', s[i])
      {
        assert TrueCopy(flash, s[i]);
      }
    }
  }

  lemma CountWritten(page: seq<int>, at: nat, count: int)
    requires at < |page| && forall x :: 0 <= x < |page| ==> page[x] == -1
    ensures forall x :: 0 <= x < |page| ==> Programmed(page, at, [count])[x] == if x == at then count else -1
  {
    hide Programmed;
  }

  lemma DropKeeps(flash: seq<seq<int>>, s: seq<CPage>, s': seq<CPage>, pix: int, lo: int, hi: int)
    requires |s'| == |s| && forall i {:trigger s'[i]} :: 0 <= i < |s| ==> s'[i] == s[i] || (IsCopyOf(s[i], pix) && !s'[i].used)
    ensures lo <= pix < hi && CopiesBut(flash, s, lo, hi) ==> CopiesBut(flash, s', lo, hi)
    ensures forall j :: !Cached(s, j) ==> !Cached(s', j)
  {
    forall j | !Cached(s, j)
      ensures !Cached(s', j)
    {
      forall i | 0 <= i < |s'|
        ensures !IsCopyOf(s'[i], j)
      {
        assert !IsCopyOf(s[i], j);
      }
    }
    if lo <= pix < hi && CopiesBut(flash, s, lo, hi) {
      forall i | 0 <= i < |s'| && !(lo <= s'[i].pix < hi)
        ensures TrueCopy(flash, s'[i])
      {
        assert s'[i] == s[i] ==> TrueCopy(flash, s[i]);
      }
    }
  }

  lemma NoneUnder(flash: seq<seq<int>>, s: seq<CPage>, lo: int, hi: int)
    requires CopiesBut(flash, s, lo, hi) ==> forall j :: lo <= j < hi ==> !Cached(s, j)
    ensures CopiesBut(flash, s, lo, hi) ==> Copies(flash, s)
  {
    if CopiesBut(flash, s, lo, hi) {
      forall i | 0 <= i < |s|
        ensures TrueCopy(flash, s[i])
      {
        assert IsCopyOf(s[i], s[i].pix) ==> Cached(s, s[i].pix);
      }
    }
  }

  lemma AndStep(a: int, b: int)
    requires a > 0 && b > 0
    ensures And(a, b) == 2 * And(a / 2, b / 2) + (if a % 2 == 1 && b % 2 == 1 then 1 else 0)
  {
  }

  lemma AndZero()
    ensures And(0, 0) == 0
  {
  }

  /** A flags byte written without regard to what is stored: marking a lost header for deletion
      writes 0xbf over 0xf8. The page then reads as unused from the cache, but not from the chip. */
  lemma BlindFlags()
    ensures And(0xf8, 0xbf) == 0xb8 && !Clears([0xf8], 0, [0xbf])
  {
    hide And;
    AndStep(0xf8, 0xbf);
    AndStep(0x7c, 0x5f);
    AndStep(0x3e, 0x2f);
    AndStep(0x1f, 0x17);
    AndStep(0xf, 0xb);
    AndStep(0x7, 0x5);
    AndStep(0x3, 0x2);
    AndStep(0x1, 0x1);
    AndZero();
    assert !Covers([0xf8][0 + 0], [0xbf][0]);
  }

  class Cache {
    const pageLen: nat
    // the chip, page by page
    var flash: seq<seq<int>>
    const slots: array<CPage>
    var clock: nat

    constructor (pageLen: nat, flash: seq<seq<int>>, count: nat)
      requires forall p :: 0 <= p < |flash| ==> |flash[p]| == pageLen
      ensures this.pageLen == pageLen && this.flash == flash && slots.Length == count && fresh(slots)
      ensures Valid() && Coherent()
    {
      this.pageLen, this.flash, clock := pageLen, flash, 0;
      slots := new CPage[count](_ => CPage(false, false, 0, 0, []));
    }

    ghost predicate Valid()
      reads this, slots
    {
      Sane(pageLen, flash, slots[..], clock)
    }

    ghost predicate Coherent()
      reads this, slots
    {
      Copies(flash, slots[..])
    }

    /** The cache page of a flash page, if there is one; getting it counts as an access. */
    method PageGet(pix: nat) returns (hit: bool, ix: nat)
      requires Valid()
      modifies slots
      ensures Valid() && PendingKept(old(slots[..]), slots[..]) && (old(Coherent()) ==> Coherent())
      ensures hit ==> ix < slots.Length && IsCopyOf(slots[ix], pix) && slots[..] == old(slots[..])[ix := old(slots[ix]).(access := clock)]
      ensures !hit ==> slots[..] == old(slots[..]) && !Cached(slots[..], pix)
      ensures hit <==> Cached(old(slots[..]), pix)
    {
      ix := 0;
      while ix < slots.Length
        invariant ix <= slots.Length && slots[..] == old(slots[..])
        invariant forall i :: 0 <= i < ix ==> !IsCopyOf(slots[..][i], pix)
      {
        if slots[ix].used && !slots[ix].wr && slots[ix].pix == pix {
          OneTouched(pageLen, flash, slots[..], clock, clock, ix, slots[ix].(access := clock));
          assert IsCopyOf(slots[..][ix], pix);
          slots[ix] := slots[ix].(access := clock);
          return true, ix;
        }
        ix := ix + 1;
      }
      hit := false;
    }

    method PageFree(ix: nat)
      requires Valid() && ix < slots.Length
      modifies slots
      ensures Valid() && (old(Coherent()) ==> Coherent())
      ensures slots[..] == if old(slots[ix].used) then old(slots[..])[ix := old(slots[ix]).(used := false, wr := false)] else old(slots[..])
    {
      if slots[ix].used {
        OneTouched(pageLen, flash, slots[..], clock, clock, ix, slots[ix].(used := false, wr := false));
        slots[ix] := slots[ix].(used := false, wr := false);
      }
    }

    /** When every cache page is in use, the copy that was not accessed for longest is given up.
        Pages with pending bytes are not. */
    method RemoveOldest() returns (freed: bool, ix: nat)
      requires Valid()
      modifies slots
      ensures Valid() && PendingKept(old(slots[..]), slots[..]) && (old(Coherent()) ==> Coherent())
      ensures freed ==> ix < slots.Length && old(slots[ix].used && !slots[ix].wr)
      ensures freed ==> slots[..] == old(slots[..])[ix := old(slots[ix]).(used := false, wr := false)]
      ensures freed ==> forall i :: 0 <= i < slots.Length ==> old(slots[i].used) && (old(!slots[i].wr) ==> old(slots[ix].access) <= old(slots[i].access))
      ensures !freed ==> slots[..] == old(slots[..])
      ensures !freed ==> (exists i :: 0 <= i < slots.Length && !slots[i].used) || forall i :: 0 <= i < slots.Length && !slots[i].wr ==> slots[i].access == clock
    {
      freed, ix := false, 0;
      var full, i := true, 0;
      while i < slots.Length
        invariant 0 <= i <= slots.Length
        invariant full <==> forall j :: 0 <= j < i ==> slots[j].used
      {
        full := full && slots[i].used;
        i := i + 1;
      }
      if !full {
        return;
      }
      var oldest := 0;
      i := 0;
      assert forall j :: 0 <= j < slots.Length ==> slots[..][j].access <= clock;
      while i < slots.Length
        invariant 0 <= i <= slots.Length
        invariant freed ==> ix < i && !slots[ix].wr && oldest == clock - slots[ix].access
        invariant !freed ==> oldest == 0
        invariant forall j :: 0 <= j < i && !slots[j].wr ==> clock - slots[j].access <= oldest
      {
        if clock - slots[i].access > oldest && !slots[i].wr {
          oldest, ix, freed := clock - slots[i].access, i, true;
        }
        i := i + 1;
      }
      if freed {
        PageFree(ix);
      }
    }

    /** A free cache page; it is in use from now on. */
    method Allocate() returns (got: bool, ix: nat)
      modifies slots
      ensures got ==> ix < slots.Length && !old(slots[ix].used) && slots[..] == old(slots[..])[ix := old(slots[ix]).(used := true, access := clock)]
      ensures !got ==> slots[..] == old(slots[..]) && forall i :: 0 <= i < slots.Length ==> slots[i].used
    {
      ix := 0;
      while ix < slots.Length
        invariant ix <= slots.Length && slots[..] == old(slots[..])
        invariant forall i :: 0 <= i < ix ==> slots[i].used
      {
        if !slots[ix].used {
          slots[ix] := slots[ix].(used := true, access := clock);
          return true, ix;
        }
        ix := ix + 1;
      }
      got := false;
    }

    /** Forgets the copy of a page, and no other. */
    method Drop(pix: nat)
      requires Valid()
      modifies slots
      ensures Valid() && !Cached(slots[..], pix) && PendingKept(old(slots[..]), slots[..])
      ensures forall i {:trigger slots[..][i]} :: 0 <= i < slots.Length ==>
        slots[..][i] == old(slots[i]) || (IsCopyOf(old(slots[i]), pix) && !slots[i].used)
    {
      ghost var s := slots[..];
      var hit, ix := PageGet(pix);
      if hit {
        PageFree(ix);
        assert IsCopyOf(s[ix], pix);
      }
    }

    /** Reads from the cache or the chip. With a coherent cache that is what the chip holds. */
    method Read(purpose: Purpose, pix: nat, at: nat, len: nat) returns (dst: seq<int>)
      requires Valid() && pix < |flash| && at + len <= pageLen
      modifies slots, `clock
      ensures Valid() && PendingKept(old(slots[..]), slots[..])
      ensures old(Coherent()) ==> Coherent() && dst == flash[pix][at..at + len]
      ensures OneReplaced(old(slots[..]), slots[..])
      ensures if purpose == SecondLayer then Cached(slots[..], pix) <==> Cached(old(slots[..]), pix) else Cached(slots[..], pix) <==> Spare(old(slots[..]))
    {
      ghost var s := slots[..];
      var hit, ix := PageGet(pix);
      clock := clock + 1;
      if hit {
        assert TrueCopy(flash, s[ix]) || !old(Coherent());
        OneTouched(pageLen, flash, slots[..], clock - 1, clock, ix, slots[ix].(access := clock));
        slots[ix] := slots[ix].(access := clock);
        assert IsCopyOf(slots[..][ix], pix) && !s[ix].wr;
        return slots[ix].data[at..at + len];
      }
      if purpose == SecondLayer {
        return flash[pix][at..at + len];
      }
      dst := Fetch(pix, at, len);
    }

    /** Takes a page that is not cached into the cache, if there is room, and reads from it. */
    method Fetch(pix: nat, at: nat, len: nat) returns (dst: seq<int>)
      requires Valid() && pix < |flash| && at + len <= pageLen && !Cached(slots[..], pix)
      modifies slots
      ensures Valid() && PendingKept(old(slots[..]), slots[..]) && (old(Coherent()) ==> Coherent())
      ensures dst == flash[pix][at..at + len]
      ensures OneReplaced(old(slots[..]), slots[..])
      ensures (forall i :: 0 <= i < slots.Length ==> old(slots[i]).access < clock) ==> (Cached(slots[..], pix) <==> Spare(old(slots[..])))
    {
      hide OneReplaced;
      hide Spare;
      ghost var before := slots[..];
      var freed, gone := RemoveOldest();
      ghost var s := slots[..];
      if freed {
        StillUncached(before, gone, pix);
      }
      var got, ix := Allocate();
      if got {
        var c := slots[ix].(wr := false, pix := pix, data := flash[pix]);
        OneTouched(pageLen, flash, s, clock, clock, ix, c);
        slots[ix] := c;
        assert slots[..] == s[ix := c];
        Replaced(before, s, freed, gone, ix, c, pix);
        dst := slots[ix].data[at..at + len];
      } else {
        NoneSpare(before, s, freed, gone, clock);
        Unreplaced(s);
        dst := flash[pix][at..at + len];
      }
    }

    /** Writes to the chip, and to the copy of the page if there is one. A coherent cache stays
        coherent exactly if the page is not cached, or its copy is dropped, or the write goes to the
        copy and only clears bits. */
    method Write(purpose: Purpose, pix: nat, at: nat, src: seq<int>)
      requires Valid() && pix < |flash| && at + |src| <= pageLen
      modifies slots, `clock, `flash
      ensures Valid() && PendingKept(old(slots[..]), slots[..])
      ensures flash == old(flash)[pix := Programmed(old(flash[pix]), at, src)]
      ensures forall i {:trigger slots[..][i]} :: 0 <= i < slots.Length && !IsCopyOf(old(slots[i]), pix) ==> slots[..][i] == old(slots[i])
      ensures Cached(slots[..], pix) <==> Cached(old(slots[..]), pix) && purpose != Delete
      ensures old(Coherent()) && purpose != WriteThrough ==>
        (Coherent() <==> !Cached(old(slots[..]), pix) || purpose == Delete || Clears(old(flash[pix]), at, src))
      ensures old(Coherent()) && purpose == WriteThrough && !Cached(old(slots[..]), pix) ==> Coherent()
      ensures forall lo, hi :: lo <= pix < hi && CopiesBut(old(flash), old(slots[..]), lo, hi) ==> CopiesBut(flash, slots[..], lo, hi)
    {
      hide Put;
      hide Programmed;
      hide Clears;
      hide Cached;
      hide Copies;
      hide CopiesBut;
      ghost var s0, chip := slots[..], flash;
      CopyAfterWrite(flash[pix], at, src);
      var hit, ix := PageGet(pix);
      ghost var s := slots[..];
      var page := Programmed(flash[pix], at, src);
      GetKeeps(chip, s0, s, hit, ix, pix);
      if !hit || purpose == WriteThrough {
        OnlyPage(chip, s, pix, page);
      }
      if hit {
        OnlyCopy(pageLen, chip, s, clock, ix, pix);
      }
      if hit && purpose != WriteThrough {
        if purpose == Delete {
          PageFree(ix);
          CopyWritten(chip, s, pix, page, ix, slots[ix]);
          assert slots[..] == s[ix := slots[ix]];
        } else {
          clock := clock + 1;
          ghost var c := slots[ix].(data := Put(slots[ix].data, at, src), access := clock);
          OneTouched(pageLen, flash, slots[..], clock - 1, clock, ix, c);
          CopyWritten(chip, s, pix, page, ix, c);
          slots[ix] := slots[ix].(data := Put(slots[ix].data, at, src), access := clock);
          assert slots[..] == s[ix := c];
        }
      }
      CachedAfter(s0, slots[..], hit, ix, pix, purpose == Delete);
      SaneWritten(pageLen, chip, slots[..], clock, pix, page);
      flash := flash[pix := page];
    }

    /** Erases the pages from `lo` on, notes the erase count past the cache, and then forgets every
        copy of those pages: the cache agrees with the chip again. */
    method EraseBlock(lo: nat, n: nat, countPix: nat, countAt: nat, count: int)
      requires Valid() && lo + n <= |flash| && lo <= countPix < lo + n && countAt < pageLen
      modifies slots, `clock, `flash
      ensures Valid() && PendingKept(old(slots[..]), slots[..])
      ensures |flash| == |old(flash)| && forall p :: 0 <= p < |flash| && !(lo <= p < lo + n) ==> flash[p] == old(flash)[p]
      ensures forall p, x :: lo <= p < lo + n && 0 <= x < pageLen ==> flash[p][x] == if p == countPix && x == countAt then count else -1
      ensures old(Coherent()) ==> Coherent()
      ensures forall i {:trigger slots[..][i]} :: 0 <= i < slots.Length && !(lo <= old(slots[i]).pix < lo + n) ==> slots[..][i] == old(slots[i])
      ensures forall j :: lo <= j < lo + n ==> !Cached(slots[..], j)
    {
      hide Programmed;
      hide Put;
      hide Cached;
      hide Copies;
      hide CopiesBut;
      ghost var chip := flash;
      var was, len := flash, pageLen;
      flash := seq(|was|, p requires 0 <= p < |was| => if lo <= p < lo + n then seq(len, _ => -1) else was[p]);
      ErasedUnder(chip, flash, slots[..], lo, lo + n);
      CountWritten(flash[countPix], countAt, count);
      Write(WriteThrough, countPix, countAt, [count]);
      chip := flash;
      var i := 0;
      while i < n
        invariant 0 <= i <= n && Valid() && PendingKept(old(slots[..]), slots[..]) && flash == chip
        invariant old(Coherent()) ==> CopiesBut(flash, slots[..], lo, lo + n)
        invariant forall j :: lo <= j < lo + i ==> !Cached(slots[..], j)
        invariant forall k {:trigger slots[..][k]} :: 0 <= k < slots.Length && !(lo <= old(slots[k]).pix < lo + n) ==> slots[..][k] == old(slots[k])
      {
        ghost var s := slots[..];
        Drop(lo + i);
        DropKeeps(flash, s, slots[..], lo + i, lo, lo + n);
        i := i + 1;
      }
      NoneUnder(flash, slots[..], lo, lo + n);
    }
  }

  // Histories.

  /** What goes through the cache. */
  datatype Access =
    | Get(purpose: Purpose, pix: nat, at: nat, len: nat)
    | Set(purpose: Purpose, pix: nat, at: nat, src: seq<int>)
    | Erase(lo: nat, n: nat, countPix: nat, countAt: nat, count: int)

  predicate InRange(pageLen: nat, pages: nat, a: Access) {
    match a
    case Get(_, pix, at, len) => pix < pages && at + len <= pageLen
    case Set(_, pix, at, src) => pix < pages && at + |src| <= pageLen
    case Erase(lo, n, countPix, countAt, _) => lo + n <= pages && lo <= countPix < lo + n && countAt < pageLen
  }

  ghost predicate Whole(pageLen: nat, chip: seq<seq<int>>) {
    forall p :: 0 <= p < |chip| ==> |chip[p]| == pageLen
  }

  /** An erased page; the erase count is noted in it if it is the page for that. */
  function ErasedPage(pageLen: nat, noted: bool, at: nat, count: int): (r: seq<int>)
    ensures |r| == pageLen
    ensures forall x {:trigger r[x]} :: 0 <= x < pageLen ==> r[x] == if noted && x == at then count else -1
  {
    seq(pageLen, x => if noted && x == at then count else -1)
  }

  function ErasedPages(pageLen: nat, chip: seq<seq<int>>, lo: nat, n: nat, countPix: nat, countAt: nat, count: int): (r: seq<seq<int>>)
    ensures |r| == |chip|
    ensures forall p {:trigger r[p]} :: 0 <= p < |r| ==> r[p] == if lo <= p < lo + n then ErasedPage(pageLen, p == countPix, countAt, count) else chip[p]
  {
    seq(|chip|, p requires 0 <= p < |chip| => if lo <= p < lo + n then ErasedPage(pageLen, p == countPix, countAt, count) else chip[p])
  }

  /** The chip, if there were no cache. */
  function ChipAfter(pageLen: nat, chip: seq<seq<int>>, a: Access): (r: seq<seq<int>>)
    requires InRange(pageLen, |chip|, a) && Whole(pageLen, chip)
    ensures |r| == |chip| && Whole(pageLen, r)
  {
    match a
    case Get(_, _, _, _) => chip
    case Set(_, pix, at, src) => chip[pix := Programmed(chip[pix], at, src)]
    case Erase(lo, n, countPix, countAt, count) => ErasedPages(pageLen, chip, lo, n, countPix, countAt, count)
  }

  /** A write that is safe whatever is cached: the copy is dropped, or only bits are cleared. */
  ghost predicate Safe(pageLen: nat, chip: seq<seq<int>>, a: Access)
    requires InRange(pageLen, |chip|, a) && Whole(pageLen, chip)
  {
    a.Set? ==> a.purpose == Delete || (a.purpose != WriteThrough && Clears(chip[a.pix], a.at, a.src))
  }

  /** The chip after the first `n` accesses. */
  function ChipAt(pageLen: nat, chip: seq<seq<int>>, accesses: seq<Access>, n: nat): (r: seq<seq<int>>)
    requires n <= |accesses| && Whole(pageLen, chip) && forall i :: 0 <= i < |accesses| ==> InRange(pageLen, |chip|, accesses[i])
    ensures |r| == |chip| && Whole(pageLen, r)
  {
    if n == 0 then chip else ChipAfter(pageLen, ChipAt(pageLen, chip, accesses, n - 1), accesses[n - 1])
  }

  /** Serves any history of accesses, none of which writes what is not safe: the chip is written, and
      every read gives, what it would be without a cache. */
  method Serve(c: Cache, accesses: seq<Access>) returns (got: seq<seq<int>>)
    requires c.Valid() && c.Coherent() && Whole(c.pageLen, c.flash)
    requires forall i :: 0 <= i < |accesses| ==> InRange(c.pageLen, |c.flash|, accesses[i])
    requires forall i :: 0 <= i < |accesses| ==> Safe(c.pageLen, ChipAt(c.pageLen, c.flash, accesses, i), accesses[i])
    modifies c, c.slots
    ensures c.Valid() && c.Coherent() && PendingKept(old(c.slots[..]), c.slots[..])
    ensures c.flash == ChipAt(c.pageLen, old(c.flash), accesses, |accesses|)
    ensures |got| == |accesses|
    ensures forall i :: 0 <= i < |accesses| && accesses[i].Get? ==>
      got[i] == ChipAt(c.pageLen, old(c.flash), accesses, i)[accesses[i].pix][accesses[i].at..accesses[i].at + accesses[i].len]
  {
    hide Sane;
    hide Copies;
    hide CopiesBut;
    hide Cached;
    hide Clears;
    hide Programmed;
    hide ChipAfter;
    hide PendingKept;
    PendingSelf(c.slots[..]);
    var n := 0;
    ghost var chip := c.flash;
    got := [];
    while n < |accesses|
      invariant n <= |accesses| && |got| == n
      invariant c.Valid() && c.Coherent() && PendingKept(old(c.slots[..]), c.slots[..])
      invariant c.flash == ChipAt(c.pageLen, chip, accesses, n)
      invariant forall i :: 0 <= i < n && accesses[i].Get? ==>
        got[i] == ChipAt(c.pageLen, chip, accesses, i)[accesses[i].pix][accesses[i].at..accesses[i].at + accesses[i].len]
    {
      ghost var slots := c.slots[..];
      var dst := ServeOne(c, accesses[n]);
      PendingChain(old(c.slots[..]), slots, c.slots[..]);
      got := got + [dst];
      n := n + 1;
    }
  }

  lemma PendingSelf(s: seq<CPage>)
    ensures PendingKept(s, s)
  {
  }

  lemma PendingChain(s: seq<CPage>, s': seq<CPage>, s'': seq<CPage>)
    requires PendingKept(s, s') && PendingKept(s', s'')
    ensures PendingKept(s, s'')
  {
  }

  method ServeOne(c: Cache, a: Access) returns (dst: seq<int>)
    requires c.Valid() && c.Coherent() && Whole(c.pageLen, c.flash) && InRange(c.pageLen, |c.flash|, a) && Safe(c.pageLen, c.flash, a)
    modifies c, c.slots
    ensures c.Valid() && c.Coherent() && PendingKept(old(c.slots[..]), c.slots[..])
    ensures c.flash == ChipAfter(c.pageLen, old(c.flash), a)
    ensures a.Get? ==> dst == old(c.flash)[a.pix][a.at..a.at + a.len]
  {
    hide Sane;
    hide Copies;
    hide CopiesBut;
    hide Clears;
    hide Programmed;
    hide Cached;
    dst := [];
    match a {
      case Get(purpose, pix, at, len) =>
        dst := c.Read(purpose, pix, at, len);
      case Set(purpose, pix, at, src) =>
        c.Write(purpose, pix, at, src);
      case Erase(lo, n, countPix, countAt, count) =>
        c.EraseBlock(lo, n, countPix, countAt, count);
        SaneWhole(c.pageLen, c.flash, c.slots[..], c.clock);
        SameChip(c.pageLen, old(c.flash), c.flash, a);
    }
  }

  lemma SaneWhole(pageLen: nat, chip: seq<seq<int>>, s: seq<CPage>, clock: nat)
    requires Sane(pageLen, chip, s, clock)
    ensures Whole(pageLen, chip)
  {
  }

  lemma SameChip(pageLen: nat, chip: seq<seq<int>>, after: seq<seq<int>>, a: Access)
    requires a.Erase? && InRange(pageLen, |chip|, a) && Whole(pageLen, chip) && |after| == |chip| && Whole(pageLen, after)
    requires forall p :: 0 <= p < |chip| && !(a.lo <= p < a.lo + a.n) ==> after[p] == chip[p]
    requires forall p, x :: a.lo <= p < a.lo + a.n && 0 <= x < pageLen ==> after[p][x] == if p == a.countPix && x == a.countAt then a.count else -1
    ensures after == ChipAfter(pageLen, chip, a)
  {
    var r := ChipAfter(pageLen, chip, a);
    forall p | 0 <= p < |chip|
      ensures after[p] == r[p]
    {
      if a.lo <= p < a.lo + a.n {
        assert |after[p]| == |r[p]|;
        assert forall x {:trigger r[p][x]} :: 0 <= x < pageLen ==> after[p][x] == r[p][x];
      }
    }
  }
}
