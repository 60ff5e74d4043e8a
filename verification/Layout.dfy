/** Where things are: blocks, lookup entries, pages, and the two-level object index. */
module Layout {
  import opened Words

  /** The figures the source derives from its configuration.
      blocks   number of logical blocks
      n        lookup entries (so object pages) in a block
      luPages  pages in front of a block that hold its lookup entries
      dps      bytes of file data in a data page
      hdrLen   page references in an object index header page
      ixLen    page references in any further object index page
      nameLen  bytes of a stored name */
  datatype Geometry = Geometry(blocks: nat, n: nat, luPages: nat, dps: nat, hdrLen: nat, ixLen: nat, nameLen: nat)
  {
    predicate Valid() {
      blocks > 0 && n > 0 && luPages > 0 && dps > 0 && hdrLen > 0 && ixLen > 0 && nameLen > 0
    }

    function PagesPerBlock(): nat { n + luPages }

    /** Number of object pages on the medium; they are numbered 0..Total() block by block. */
    function Total(): nat { blocks * n }

    function BlockStart(b: nat): nat { b * n }
  }

  predicate InBlock(g: Geometry, b: nat, s: int) {
    g.BlockStart(b) <= s < g.BlockStart(b) + g.n
  }

  lemma Spread(a: nat, b: nat, n: nat)
    requires a < b
    ensures a * n + n <= b * n
    ensures a * n + n == (a + 1) * n
  {
    assert b * n == (a + 1) * n + (b - a - 1) * n;
  }

  lemma BlockFits(g: Geometry, b: nat)
    requires b < g.blocks
    ensures g.BlockStart(b) + g.n == g.BlockStart(b + 1) <= g.Total()
    ensures g.BlockStart(0) == 0 && g.BlockStart(g.blocks) == g.Total()
  {
    Spread(b, g.blocks, g.n);
  }

  lemma BlocksOrdered(g: Geometry, b: nat, c: nat)
    requires b < c
    ensures g.BlockStart(b) + g.n <= g.BlockStart(c)
  {
    Spread(b, c, g.n);
  }

  lemma BlocksApart(g: Geometry, b: nat, c: nat, s: nat)
    requires InBlock(g, b, s) && InBlock(g, c, s)
    ensures b == c
  {
    if b < c {
      BlocksOrdered(g, b, c);
    }
    if c < b {
      BlocksOrdered(g, c, b);
    }
  }

  // The page number the source stores for object page s, and the way back.

  function PageNumber(g: Geometry, block: nat, entry: nat): nat {
    block * g.PagesPerBlock() + (g.luPages + entry)
  }

  function BlockForPage(g: Geometry, pix: nat): nat
    requires g.Valid()
  {
    pix / g.PagesPerBlock()
  }

  function EntryForPage(g: Geometry, pix: nat): int
    requires g.Valid()
  {
    pix % g.PagesPerBlock() - g.luPages
  }

  predicate IsLookupPage(g: Geometry, pix: nat)
    requires g.Valid()
  {
    pix % g.PagesPerBlock() < g.luPages
  }

  /** Page numbers of lookup entries are exactly the numbers that are not lookup pages, and
      each determines its block and entry: so the model may number object pages by
      BlockStart(block) + entry instead. */
  lemma PageNumberRoundTrip(g: Geometry, block: nat, entry: nat)
    requires g.Valid() && entry < g.n
    ensures BlockForPage(g, PageNumber(g, block, entry)) == block
    ensures EntryForPage(g, PageNumber(g, block, entry)) == entry
    ensures !IsLookupPage(g, PageNumber(g, block, entry))
  {
    var p := g.PagesPerBlock();
    QuotRemOf(block, g.luPages + entry, p);
    QuotRemDivMod(PageNumber(g, block, entry), p);
  }

  lemma PageNumberOnto(g: Geometry, pix: nat)
    requires g.Valid() && !IsLookupPage(g, pix)
    ensures 0 <= EntryForPage(g, pix) < g.n
    ensures PageNumber(g, BlockForPage(g, pix), EntryForPage(g, pix)) == pix
  {
    var p := g.PagesPerBlock();
    assert pix == (pix / p) * p + pix % p;
  }

  // The two-level index: which index page, and which entry of it, covers a data span.

  function IxSpan(g: Geometry, span: nat): (k: nat)
    requires g.Valid()
    ensures k == 0 <==> span < g.hdrLen
  {
    if span < g.hdrLen then 0 else 1 + Quot(span - g.hdrLen, g.ixLen)
  }

  function IxEntry(g: Geometry, span: nat): (i: nat)
    requires g.Valid()
    ensures i < IxLen(g, IxSpan(g, span))
  {
    if span < g.hdrLen then span else Rem(span - g.hdrLen, g.ixLen)
  }

  function IxLen(g: Geometry, k: nat): nat {
    if k == 0 then g.hdrLen else g.ixLen
  }

  /** The first data span an index page covers. */
  function FirstSpan(g: Geometry, k: nat): nat {
    if k == 0 then 0 else g.hdrLen + (k - 1) * g.ixLen
  }

  lemma IxRoundTrip(g: Geometry, k: nat, i: nat)
    requires g.Valid() && i < IxLen(g, k)
    ensures IxSpan(g, FirstSpan(g, k) + i) == k && IxEntry(g, FirstSpan(g, k) + i) == i
  {
    if k > 0 {
      QuotRemOf(k - 1, i, g.ixLen);
      assert (k - 1) * g.ixLen >= 0;
    }
  }

  lemma IxCover(g: Geometry, span: nat)
    requires g.Valid()
    ensures FirstSpan(g, IxSpan(g, span)) + IxEntry(g, span) == span
  {
    if span >= g.hdrLen {
      QuotRem(span - g.hdrLen, g.ixLen);
    }
  }

  /** Two data spans with the same place in the index are the same span. */
  lemma IxInjective(g: Geometry, a: nat, b: nat)
    requires g.Valid()
    requires IxSpan(g, a) == IxSpan(g, b) && IxEntry(g, a) == IxEntry(g, b)
    ensures a == b
  {
    IxCover(g, a);
    IxCover(g, b);
  }

  /** The next span lies in the same index page, one entry on, or opens the next page. */
  lemma IxNext(g: Geometry, a: nat)
    requires g.Valid()
    ensures (IxSpan(g, a + 1) == IxSpan(g, a) && IxEntry(g, a + 1) == IxEntry(g, a) + 1) ||
            (IxSpan(g, a + 1) == IxSpan(g, a) + 1 && IxEntry(g, a + 1) == 0)
  {
    IxCover(g, a);
    var k, i := IxSpan(g, a), IxEntry(g, a);
    if i + 1 < IxLen(g, k) {
      IxRoundTrip(g, k, i + 1);
    } else {
      IxRoundTrip(g, k + 1, 0);
      if k > 0 {
        assert k * g.ixLen == (k - 1) * g.ixLen + g.ixLen;
      }
      assert FirstSpan(g, k + 1) == a + 1;
    }
  }

  lemma {:induction false} IxMonotone(g: Geometry, a: nat, b: nat)
    requires g.Valid() && a <= b
    ensures IxSpan(g, a) <= IxSpan(g, b)
    decreases b
  {
    if a < b {
      IxMonotone(g, a, b - 1);
      IxNext(g, b - 1);
    }
  }
}
