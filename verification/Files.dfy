/** Files as byte sequences: what the pages of an object say, read off the meaning of the medium. */
module Files {
  import opened Words
  import opened Layout
  import opened Medium
  import opened Directory

  type Image = map<Key, Body>

  /** How many data pages `n` bytes take. */
  function PageCount(g: Geometry, n: nat): nat
    requires g.Valid()
  {
    if n == 0 then 0 else Quot(n - 1, g.dps) + 1
  }

  /** The last index page a file of `n` bytes has. */
  function TopIx(g: Geometry, n: nat): nat
    requires g.Valid()
  {
    if n == 0 then 0 else IxSpan(g, PageCount(g, n) - 1)
  }

  /** Byte `p` of object `o`. */
  function ByteAt(g: Geometry, m: Image, o: int, p: nat): int
    requires g.Valid()
  {
    var k := Key(o, Quot(p, g.dps));
    if k in m && m[k].Data? && Rem(p, g.dps) < |m[k].bytes| then m[k].bytes[Rem(p, g.dps)] else -1
  }

  /** Object `o` has exactly the data pages 0..count. */
  ghost predicate DataPages(g: Geometry, m: Image, o: int, count: nat) {
    forall j {:trigger Key(o, j)} ::
      && (Key(o, j) in m <==> 0 <= j < count)
      && (Key(o, j) in m ==> m[Key(o, j)].Data? && |m[Key(o, j)].bytes| == g.dps)
  }

  /** Object `o` has exactly the index pages 0..top, the first being its header. */
  ghost predicate IndexPages(m: Image, o: int, top: nat) {
    && (forall k {:trigger Key(IndexId(o), k)} :: Key(IndexId(o), k) in m <==> 0 <= k <= top)
    && Key(IndexId(o), 0) in m && m[Key(IndexId(o), 0)].Header?
  }

  /** Behind the last byte of object `o` its last page is still erased. */
  ghost predicate TailErased(g: Geometry, m: Image, o: int, n: nat)
    requires g.Valid()
  {
    var k := Key(o, Quot(n, g.dps));
    Rem(n, g.dps) > 0 && k in m && m[k].Data? ==>
      forall x :: Rem(n, g.dps) <= x < |m[k].bytes| ==> m[k].bytes[x] == -1
  }

  /** Object `o` has the pages of a file of `n` bytes, with index pages up to `top`. */
  ghost predicate ExtentTop(g: Geometry, m: Image, o: int, n: nat, top: nat)
    requires g.Valid()
  {
    DataPages(g, m, o, PageCount(g, n)) && IndexPages(m, o, top) && TailErased(g, m, o, n)
  }

  ghost predicate Extent(g: Geometry, m: Image, o: int, n: nat)
    requires g.Valid()
  {
    ExtentTop(g, m, o, n, TopIx(g, n))
  }

  /** The content of object `o`, `n` bytes long. */
  ghost function Contents(g: Geometry, m: Image, o: int, n: nat): (r: seq<int>)
    requires g.Valid()
    ensures |r| == n
  {
    seq(n, p requires 0 <= p < n => ByteAt(g, m, o, p))
  }

  ghost predicate SameOthers(m: Image, m': Image, o: int) {
    forall k: Key :: ObjectId(k.id) != o ==> (k in m <==> k in m') && (k in m && k in m' ==> m[k] == m'[k])
  }

  // Arithmetic of positions.

  lemma {:induction false} InPage(g: Geometry, n: nat, p: nat)
    requires g.Valid() && n <= p < n + (g.dps - Rem(n, g.dps))
    ensures Quot(p, g.dps) == Quot(n, g.dps) && Rem(p, g.dps) == Rem(n, g.dps) + (p - n)
    decreases p
  {
    if p > n {
      InPage(g, n, p - 1);
      QuotRemNext(p - 1, g.dps);
    }
  }

  lemma PagePosition(g: Geometry, n: nat, w: nat)
    requires g.Valid() && 0 < w <= g.dps - Rem(n, g.dps)
    ensures PageCount(g, n + w) == Quot(n, g.dps) + 1
    ensures PageCount(g, n) == Quot(n, g.dps) + (if Rem(n, g.dps) == 0 then 0 else 1)
    ensures w < g.dps - Rem(n, g.dps) ==> Quot(n + w, g.dps) == Quot(n, g.dps) && Rem(n + w, g.dps) == Rem(n, g.dps) + w
    ensures w == g.dps - Rem(n, g.dps) ==> Quot(n + w, g.dps) == Quot(n, g.dps) + 1 && Rem(n + w, g.dps) == 0
  {
    hide Quot;
    hide Rem;
    InPage(g, n, n + w - 1);
    QuotRemNext(n + w - 1, g.dps);
    if n > 0 {
      QuotRemNext(n - 1, g.dps);
    } else {
      QuotRemOf(0, 0, g.dps);
    }
  }

  /** Bytes in front of position `n` lie in earlier pages, or earlier in the same page. */
  lemma {:induction false} PageOrder(g: Geometry, p: nat, n: nat)
    requires g.Valid() && p < n
    ensures Quot(p, g.dps) < Quot(n, g.dps) || (Quot(p, g.dps) == Quot(n, g.dps) && Rem(p, g.dps) < Rem(n, g.dps))
  {
    QuotRem(p, g.dps);
    QuotRem(n, g.dps);
    var a, b := Quot(p, g.dps), Quot(n, g.dps);
    if b < a {
      Spread(b, a, g.dps);
    }
  }

  /** The header of object `o` as the meaning of the medium has it. */
  ghost predicate Named(m: Image, o: int, name: seq<int>) {
    var x := Key(IndexId(o), 0);
    x in m && m[x].Header? && m[x].name == name
  }

  /** Object `o` is a well-formed file of `n` bytes; an empty one has its length word erased. */
  ghost predicate IsFile(g: Geometry, m: Image, o: int, n: nat)
    requires g.Valid()
  {
    var x := Key(IndexId(o), 0);
    && 1 <= o <= MAX_ID
    && Extent(g, m, o, n)
    && m[x].size == (if n == 0 then NONE else n)
  }

  // Growing a file.

  /** In the middle of an append: of object `o`, `n` bytes are in place, `off` of them from
      before, the others from `data`. */
  ghost predicate Grown(g: Geometry, m0: Image, m: Image, o: int, off: nat, data: seq<int>, n: nat, top: nat)
    requires g.Valid()
  {
    && off <= n <= off + |data|
    && SameOthers(m0, m, o)
    && ExtentTop(g, m, o, n, top)
    && Key(IndexId(o), 0) in m0 && m0[Key(IndexId(o), 0)].Header? && Named(m, o, m0[Key(IndexId(o), 0)].name)
    && (forall p: nat :: p < n ==> ByteAt(g, m, o, p) == if p < off then ByteAt(g, m0, o, p) else data[p - off])
  }

  /** The bytes of a data page with `data` written at `r`. */
  function Overlay(bytes: seq<int>, r: nat, data: seq<int>): (b: seq<int>)
    requires r + |data| <= |bytes|
    ensures |b| == |bytes|
    ensures forall x {:trigger b[x]} :: 0 <= x < |b| ==> b[x] == if r <= x < r + |data| then data[x - r] else bytes[x]
  {
    bytes[..r] + data + bytes[r + |data|..]
  }

  function Ones(n: nat): (s: seq<int>)
    ensures |s| == n && forall x :: 0 <= x < n ==> s[x] == -1
  {
    seq(n, _ => -1)
  }

  /** The page that holds position `n` with `data` written there. */
  function GrownPage(g: Geometry, m: Image, o: int, n: nat, data: seq<int>): Body
    requires g.Valid() && |data| <= g.dps - Rem(n, g.dps)
  {
    var k := Key(o, Quot(n, g.dps));
    Data(Overlay(if k in m && m[k].Data? && |m[k].bytes| == g.dps then m[k].bytes else Ones(g.dps), Rem(n, g.dps), data))
  }

  lemma GrownPageBytes(g: Geometry, m: Image, o: int, n: nat, data: seq<int>)
    requires g.Valid() && |data| <= g.dps - Rem(n, g.dps)
    requires var k := Key(o, Quot(n, g.dps)); k in m ==> m[k].Data? && |m[k].bytes| == g.dps
    ensures
      var k, r, b := Key(o, Quot(n, g.dps)), Rem(n, g.dps), GrownPage(g, m, o, n, data);
      && b.Data? && |b.bytes| == g.dps
      && (forall x {:trigger b.bytes[x]} :: r <= x < r + |data| ==> b.bytes[x] == data[x - r])
      && (forall x {:trigger b.bytes[x]} :: 0 <= x < r || r + |data| <= x < g.dps ==> b.bytes[x] == if k in m then m[k].bytes[x] else -1)
  {
    hide Quot;
    hide Rem;
    hide Overlay;
  }

  lemma GrownTail(g: Geometry, m: Image, o: int, n: nat, data: seq<int>)
    requires g.Valid() && 0 < |data| <= g.dps - Rem(n, g.dps) && TailErased(g, m, o, n)
    requires var k := Key(o, Quot(n, g.dps)); (k in m ==> m[k].Data? && |m[k].bytes| == g.dps) && (k in m <==> Rem(n, g.dps) > 0)
    ensures TailErased(g, m[Key(o, Quot(n, g.dps)) := GrownPage(g, m, o, n, data)], o, n + |data|)
  {
    GrownPageBytes(g, m, o, n, data);
    PagePosition(g, n, |data|);
  }

  lemma GrowData(g: Geometry, m: Image, o: int, n: nat, top: nat, data: seq<int>)
    requires g.Valid() && ExtentTop(g, m, o, n, top) && 0 < |data| <= g.dps - Rem(n, g.dps)
    ensures DataPages(g, m[Key(o, Quot(n, g.dps)) := GrownPage(g, m, o, n, data)], o, PageCount(g, n + |data|))
  {
    hide Quot;
    hide Rem;
    hide IxSpan;
    hide TailErased;
    hide GrownPage;
    hide PageCount;
    PagePosition(g, n, |data|);
    LastPage(g, m, o, n, top);
    GrownPageBytes(g, m, o, n, data);
  }

  lemma GrowExtent(g: Geometry, m: Image, o: int, n: nat, top: nat, data: seq<int>)
    requires g.Valid() && 1 <= o <= MAX_ID && ExtentTop(g, m, o, n, top)
    requires 0 < |data| <= g.dps - Rem(n, g.dps)
    ensures ExtentTop(g, m[Key(o, Quot(n, g.dps)) := GrownPage(g, m, o, n, data)], o, n + |data|, top)
  {
    hide Quot;
    hide Rem;
    hide IxSpan;
    hide TailErased;
    hide GrownPage;
    hide DataPages;
    LastPage(g, m, o, n, top);
    GrowData(g, m, o, n, top, data);
    GrownTail(g, m, o, n, data);
  }

  /** The page that holds position `n` is there exactly if `n` is inside it. */
  lemma LastPage(g: Geometry, m: Image, o: int, n: nat, top: nat)
    requires g.Valid() && ExtentTop(g, m, o, n, top)
    ensures var k := Key(o, Quot(n, g.dps)); (k in m ==> m[k].Data? && |m[k].bytes| == g.dps) && (k in m <==> Rem(n, g.dps) > 0)
  {
    hide Quot;
    hide Rem;
    hide TailErased;
    PagePosition(g, n, g.dps - Rem(n, g.dps));
  }

  lemma GrowBytes(g: Geometry, m0: Image, m: Image, o: int, off: nat, data: seq<int>, n: nat, top: nat, w: nat)
    requires g.Valid() && Grown(g, m0, m, o, off, data, n, top)
    requires 0 < w <= g.dps - Rem(n, g.dps) && n + w <= off + |data|
    ensures forall p: nat :: p < n + w ==>
      ByteAt(g, m[Key(o, Quot(n, g.dps)) := GrownPage(g, m, o, n, data[n - off..n - off + w])], o, p)
      == if p < off then ByteAt(g, m0, o, p) else data[p - off]
  {
    hide Quot;
    hide Rem;
    hide IxSpan;
    hide GrownPage;
    hide ExtentTop;
    hide ByteAt;
    var chunk := data[n - off..n - off + w];
    var k, b := Key(o, Quot(n, g.dps)), GrownPage(g, m, o, n, chunk);
    LastPage(g, m, o, n, top);
    GrownPageBytes(g, m, o, n, chunk);
    forall p: nat | p < n + w
      ensures ByteAt(g, m[k := b], o, p) == if p < off then ByteAt(g, m0, o, p) else data[p - off]
    {
      GrownByte(g, m, o, n, w, b, p);
    }
  }

  /** The data page that holds position `n`, erased from there on or not there yet, receives the
      next `w` bytes of `data`. */
  lemma GrowPage(g: Geometry, m0: Image, m: Image, o: int, off: nat, data: seq<int>, n: nat, top: nat, w: nat)
    requires g.Valid() && 1 <= o <= MAX_ID
    requires Grown(g, m0, m, o, off, data, n, top)
    requires 0 < w <= g.dps - Rem(n, g.dps) && n + w <= off + |data|
    ensures Grown(g, m0, m[Key(o, Quot(n, g.dps)) := GrownPage(g, m, o, n, data[n - off..n - off + w])], o, off, data, n + w, top)
  {
    hide Quot;
    hide Rem;
    hide IxSpan;
    hide GrownPage;
    hide ExtentTop;
    GrowBytes(g, m0, m, o, off, data, n, top, w);
    GrowExtent(g, m, o, n, top, data[n - off..n - off + w]);
    var m' := m[Key(o, Quot(n, g.dps)) := GrownPage(g, m, o, n, data[n - off..n - off + w])];
    assert ExtentTop(g, m', o, n + w, top);
    assert forall p: nat :: p < n + w ==> ByteAt(g, m', o, p) == if p < off then ByteAt(g, m0, o, p) else data[p - off];
  }

  /** The index page that covers the byte written last is the last one of the file. */
  lemma TopAfter(g: Geometry, n: nat, w: nat)
    requires g.Valid() && 0 < w <= g.dps - Rem(n, g.dps)
    ensures TopIx(g, n + w) == IxSpan(g, Quot(n, g.dps))
  {
    PagePosition(g, n, w);
  }

  /** A new index page behind the last one, still without references. */
  lemma GrowIndex(g: Geometry, m0: Image, m: Image, o: int, off: nat, data: seq<int>, n: nat, top: nat)
    requires g.Valid() && 1 <= o <= MAX_ID && Grown(g, m0, m, o, off, data, n, top)
    ensures Key(IndexId(o), top + 1) !in m
    ensures Grown(g, m0, m[Key(IndexId(o), top + 1) := Index([])], o, off, data, n, top + 1)
  {
    hide Quot;
    hide Rem;
    hide PageCount;
    var m' := m[Key(IndexId(o), top + 1) := Index([])];
    assert forall p: nat :: ByteAt(g, m', o, p) == ByteAt(g, m, o, p);
  }

  /** Only the length in the header changes. */
  lemma GrowSize(g: Geometry, m0: Image, m: Image, o: int, off: nat, data: seq<int>, n: nat, top: nat, size: int)
    requires g.Valid() && 1 <= o <= MAX_ID && Grown(g, m0, m, o, off, data, n, top)
    ensures var x := Key(IndexId(o), 0); Grown(g, m0, m[x := m[x].(size := size)], o, off, data, n, top)
  {
    hide Quot;
    hide Rem;
    hide PageCount;
    var x := Key(IndexId(o), 0);
    var m' := m[x := m[x].(size := size)];
    forall p: nat
      ensures ByteAt(g, m', o, p) == ByteAt(g, m, o, p)
    {
    }
    assert DataPages(g, m', o, PageCount(g, n));
    assert IndexPages(m', o, top);
    assert TailErased(g, m', o, n);
  }

  lemma GrownStart(g: Geometry, m: Image, o: int, n: nat, data: seq<int>)
    requires g.Valid() && IsFile(g, m, o, n)
    ensures Grown(g, m, m, o, n, data, n, TopIx(g, n))
  {
  }

  /** The bytes after a page was written: the new ones at `n`, and the old ones in front. */
  lemma GrownByte(g: Geometry, m: Image, o: int, n: nat, w: nat, b: Body, p: nat)
    requires g.Valid() && 0 < w <= g.dps - Rem(n, g.dps) && p < n + w
    requires b.Data? && |b.bytes| == g.dps
    requires var k := Key(o, Quot(n, g.dps)); forall x :: 0 <= x < Rem(n, g.dps) ==> k in m && m[k].Data? && |m[k].bytes| == g.dps && b.bytes[x] == m[k].bytes[x]
    ensures p < n ==> ByteAt(g, m[Key(o, Quot(n, g.dps)) := b], o, p) == ByteAt(g, m, o, p)
    ensures p >= n ==> ByteAt(g, m[Key(o, Quot(n, g.dps)) := b], o, p) == b.bytes[Rem(n, g.dps) + (p - n)]
  {
    hide Quot;
    hide Rem;
    if p < n {
      PageOrder(g, p, n);
    } else {
      InPage(g, n, p);
    }
  }

  // Changing bytes of a file.

  /** In the middle of a change: of the `len` bytes of object `o`, those from `off` to `n` are
      from `data`, the others as before. */
  ghost predicate Altered(g: Geometry, m0: Image, m: Image, o: int, len: nat, off: nat, data: seq<int>, n: nat)
    requires g.Valid()
  {
    && off <= n <= off + |data| <= len
    && SameOthers(m0, m, o)
    && IsFile(g, m, o, len)
    && (forall k :: k in m0 && k.id == IndexId(o) ==> k in m && m[k] == m0[k])
    && (forall p: nat :: p < len ==> ByteAt(g, m, o, p) == if off <= p < n then data[p - off] else ByteAt(g, m0, o, p))
  }

  lemma AlterStart(g: Geometry, m: Image, o: int, len: nat, off: nat, data: seq<int>)
    requires g.Valid() && IsFile(g, m, o, len) && off + |data| <= len
    ensures Altered(g, m, m, o, len, off, data, off)
  {
  }

  lemma AlterDone(g: Geometry, m0: Image, m: Image, o: int, len: nat, off: nat, data: seq<int>)
    requires g.Valid() && Altered(g, m0, m, o, len, off, data, off + |data|)
    ensures Contents(g, m, o, len) == Contents(g, m0, o, len)[..off] + data + Contents(g, m0, o, len)[off + |data|..]
  {
    hide ByteAt;
    hide IsFile;
  }

  /** A position inside a file lies in one of its data pages, in front of its erased tail. */
  lemma InsideFile(g: Geometry, m: Image, o: int, len: nat, p: nat)
    requires g.Valid() && DataPages(g, m, o, PageCount(g, len)) && p < len
    ensures Key(o, Quot(p, g.dps)) in m && m[Key(o, Quot(p, g.dps))].Data? && |m[Key(o, Quot(p, g.dps))].bytes| == g.dps
    ensures Quot(p, g.dps) == Quot(len, g.dps) ==> Rem(p, g.dps) < Rem(len, g.dps)
  {
    hide Quot;
    hide Rem;
    PageOrder(g, p, len);
    if p < len - 1 {
      PageOrder(g, p, len - 1);
    }
  }

  lemma AlterKeepsFile(g: Geometry, m: Image, o: int, len: nat, n: nat, w: nat, b: Body)
    requires g.Valid() && IsFile(g, m, o, len) && 0 < w <= g.dps - Rem(n, g.dps) && n + w <= len
    requires var k := Key(o, Quot(n, g.dps));
      && k in m && m[k].Data? && b.Data? && |b.bytes| == |m[k].bytes| == g.dps
      && forall x :: Rem(n, g.dps) + w <= x < g.dps ==> b.bytes[x] == m[k].bytes[x]
    ensures IsFile(g, m[Key(o, Quot(n, g.dps)) := b], o, len)
  {
    hide Quot;
    hide Rem;
    hide IxSpan;
    hide PageCount;
    hide TailErased;
    var k := Key(o, Quot(n, g.dps));
    var m' := m[k := b];
    InPage(g, n, n + w - 1);
    AlterEnd(g, len, n, w);
    assert DataPages(g, m', o, PageCount(g, len));
    assert IndexPages(m', o, TopIx(g, len));
    AlterTail(g, m, o, len, k, b, Rem(n, g.dps) + w);
  }

  /** Inside the last page a change ends in front of the end of the file. */
  lemma AlterEnd(g: Geometry, len: nat, n: nat, w: nat)
    requires g.Valid() && 0 < w <= g.dps - Rem(n, g.dps) && n + w <= len
    ensures Quot(n, g.dps) == Quot(len, g.dps) ==> Rem(n, g.dps) + w <= Rem(len, g.dps)
  {
    hide Quot;
    hide Rem;
    InPage(g, n, n + w - 1);
    PageOrder(g, n + w - 1, len);
  }

  /** The `w` bytes from position `n` on, all in one page, are replaced. */
  lemma AlterPage(g: Geometry, m0: Image, m: Image, o: int, len: nat, off: nat, data: seq<int>, n: nat, w: nat)
    requires g.Valid() && Altered(g, m0, m, o, len, off, data, n)
    requires 0 < w <= g.dps - Rem(n, g.dps) && n + w <= off + |data|
    ensures var k := Key(o, Quot(n, g.dps)); k in m && m[k].Data? && |m[k].bytes| == g.dps
    ensures
      var k := Key(o, Quot(n, g.dps));
      Altered(g, m0, m[k := Data(Overlay(m[k].bytes, Rem(n, g.dps), data[n - off..n - off + w]))], o, len, off, data, n + w)
  {
    hide Quot;
    hide Rem;
    hide IxSpan;
    hide PageCount;
    hide Overlay;
    hide DataPages;
    hide IndexPages;
    hide TailErased;
    hide ByteAt;
    InsideFile(g, m, o, len, n);
    InsideFile(g, m, o, len, n + w - 1);
    InPage(g, n, n + w - 1);
    var k, r := Key(o, Quot(n, g.dps)), Rem(n, g.dps);
    var b := Data(Overlay(m[k].bytes, r, data[n - off..n - off + w]));
    var m' := m[k := b];
    AlterKeepsFile(g, m, o, len, n, w, b);
    forall p: nat | p < len
      ensures ByteAt(g, m', o, p) == if n <= p < n + w then data[p - off] else ByteAt(g, m, o, p)
    {
      AlteredByte(g, m, o, n, w, b, p);
    }
  }

  lemma AlterTail(g: Geometry, m: Image, o: int, len: nat, k: Key, b: Body, end: nat)
    requires g.Valid() && TailErased(g, m, o, len) && k in m && m[k].Data? && b.Data? && |b.bytes| == |m[k].bytes|
    requires forall x :: end <= x < |b.bytes| ==> b.bytes[x] == m[k].bytes[x]
    requires k == Key(o, Quot(len, g.dps)) ==> end <= Rem(len, g.dps)
    ensures TailErased(g, m[k := b], o, len)
  {
    hide Quot;
    hide Rem;
  }

  lemma AlteredByte(g: Geometry, m: Image, o: int, n: nat, w: nat, b: Body, p: nat)
    requires g.Valid() && 0 < w <= g.dps - Rem(n, g.dps)
    requires var k, r := Key(o, Quot(n, g.dps)), Rem(n, g.dps);
      && k in m && m[k].Data? && |m[k].bytes| == g.dps && b.Data? && |b.bytes| == g.dps
      && forall x :: 0 <= x < g.dps && !(r <= x < r + w) ==> b.bytes[x] == m[k].bytes[x]
    ensures ByteAt(g, m[Key(o, Quot(n, g.dps)) := b], o, p)
      == if n <= p < n + w then b.bytes[Rem(n, g.dps) + (p - n)] else ByteAt(g, m, o, p)
  {
    hide Quot;
    hide Rem;
    if n <= p < n + w {
      InPage(g, n, p);
    } else if Quot(p, g.dps) == Quot(n, g.dps) {
      if p < n {
        PageOrder(g, p, n);
      } else {
        PageOrder(g, n, p);
        SamePage(g, n, p);
      }
    }
  }

  lemma SamePage(g: Geometry, n: nat, p: nat)
    requires g.Valid() && n <= p && Quot(p, g.dps) == Quot(n, g.dps)
    ensures Rem(p, g.dps) == Rem(n, g.dps) + (p - n)
  {
    QuotRem(n, g.dps);
    QuotRem(p, g.dps);
  }
}
