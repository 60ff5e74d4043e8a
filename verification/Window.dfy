/** The index map of a descriptor: a window of data page numbers kept in memory, so that reads need
    not go through the object index. */
module Window {
  import opened Words
  import opened Layout
  import opened Medium
  import opened Directory

  /** The data pages of spans `start` and following, one entry each. An entry that is not populated
      is NONE. */
  datatype Frame = Frame(start: nat, entries: seq<int>)

  type Window = w: Frame | |w.entries| > 0 witness Frame(0, [NONE])

  predicate Unbroken(refs: seq<int>, a: int, b: int) {
    forall j :: a <= j <= b ==> 0 <= j < |refs| && refs[j] != NONE
  }

  /** An index page whose first span is `first` and whose references are `refs` fills the entry of
      `span` in a window from `start` on, unless an empty reference comes before. */
  predicate Reached(start: nat, first: nat, refs: seq<int>, span: nat) {
    first <= span < first + |refs| && Unbroken(refs, (if start < first then first else start) - first, span - first)
  }

  /** What an index page makes of a window. */
  function TakeOver(w: Window, first: nat, refs: seq<int>): (r: Window)
    ensures r.start == w.start && |r.entries| == |w.entries|
    ensures forall i {:trigger r.entries[i]} :: 0 <= i < |r.entries| ==>
      r.entries[i] == if Reached(w.start, first, refs, w.start + i) then refs[w.start + i - first] else w.entries[i]
  {
    Frame(w.start, seq(|w.entries|, i requires 0 <= i < |w.entries| =>
      if Reached(w.start, first, refs, w.start + i) then refs[w.start + i - first] else w.entries[i]))
  }

  /** The spans of an index page are those between its first one and the first of the next. */
  lemma IxRange(g: Geometry, k: nat, span: nat)
    requires g.Valid()
    ensures FirstSpan(g, k) <= span < FirstSpan(g, k) + IxLen(g, k) ==> IxSpan(g, span) == k && IxEntry(g, span) == span - FirstSpan(g, k)
    ensures IxSpan(g, span) == k ==> FirstSpan(g, k) <= span < FirstSpan(g, k) + IxLen(g, k)
  {
    if FirstSpan(g, k) <= span < FirstSpan(g, k) + IxLen(g, k) {
      IxRoundTrip(g, k, span - FirstSpan(g, k));
    }
    IxCover(g, span);
  }

  lemma OutOfReach(g: Geometry, w: Window, k: nat, refs: seq<int>)
    requires g.Valid() && |refs| == IxLen(g, k)
    requires k < IxSpan(g, w.start) || k > IxSpan(g, w.start + |w.entries| - 1)
    ensures TakeOver(w, FirstSpan(g, k), refs) == w
  {
    hide IxSpan;
    hide IxEntry;
    hide FirstSpan;
    hide IxLen;
    var r := TakeOver(w, FirstSpan(g, k), refs);
    forall i | 0 <= i < |w.entries|
      ensures r.entries[i] == w.entries[i]
    {
      IxMonotone(g, w.start, w.start + i);
      IxMonotone(g, w.start + i, w.start + |w.entries| - 1);
      IxRange(g, k, w.start + i);
    }
    assert r.entries == w.entries;
  }

  /** Takes the references of index page `k` over into a window. */
  method UpdateMap(g: Geometry, w: Window, k: nat, refs: seq<int>) returns (r: Window)
    requires g.Valid() && |refs| == IxLen(g, k)
    ensures r == TakeOver(w, FirstSpan(g, k), refs)
  {
    hide IxSpan;
    hide IxEntry;
    hide FirstSpan;
    hide IxLen;
    r := w;
    var start, end := w.start, w.start + |w.entries| - 1;
    var first := FirstSpan(g, k);
    var last := first + IxLen(g, k);
    forall s: nat
      ensures first <= s < last <==> IxSpan(g, s) == k
      ensures first <= s < last ==> IxEntry(g, s) == s - first
    {
      IxRange(g, k, s);
    }
    if k < IxSpan(g, start) || k > IxSpan(g, end) {
      OutOfReach(g, w, k, refs);
      return;
    }
    var span := if start < first then first else start;
    var stop := if end + 1 < last then end + 1 else last;
    while span < stop
      invariant first <= span && start <= span && span <= (if stop < first then first else if stop < start then start else stop)
      invariant r.start == start && |r.entries| == |w.entries|
      invariant Unbroken(refs, (if start < first then first else start) - first, span - 1 - first)
      invariant forall i :: 0 <= i < |w.entries| ==>
        r.entries[i] == if first <= start + i < span then refs[start + i - first] else w.entries[i]
    {
      var pix := refs[IxEntry(g, span)];
      if pix == NONE {
        break;
      }
      r := Frame(start, r.entries[span - start := pix]);
      span := span + 1;
    }
    assert r.entries == TakeOver(w, first, refs).entries;
  }

  // Agreement with the medium.

  /** The entry of a window for data page `span`. */
  ghost predicate EntryOk(dir: Dir, o: int, span: nat, entry: int) {
    entry == NONE || (Key(o, span) in dir && dir[Key(o, span)] == entry)
  }

  /** Every entry is unpopulated or the live data page of its span. */
  ghost predicate Agrees(dir: Dir, o: int, start: nat, buf: seq<int>) {
    forall i {:trigger buf[i]} :: 0 <= i < |buf| ==> EntryOk(dir, o, start + i, buf[i])
  }

  /** The data pages of an object come one after the other from span 0. */
  ghost predicate Contiguous(dir: Dir, o: int) {
    forall a: nat, b: nat {:trigger Key(o, a), Key(o, b)} :: a < b && Key(o, b) in dir ==> Key(o, a) in dir
  }

  /** References `refs` are those of index page `k` of object `o`. */
  ghost predicate RefsOfIx(g: Geometry, dir: Dir, o: int, k: nat, refs: seq<int>)
    requires g.Valid()
  {
    && |refs| == IxLen(g, k)
    && forall span: nat {:trigger Key(o, span)} :: IxSpan(g, span) == k ==>
      refs[IxEntry(g, span)] == if Key(o, span) in dir then dir[Key(o, span)] else NONE
  }

  /** On a consistent medium the references of an index page are those of its data pages. */
  lemma LinkedRefs(g: Geometry, fl: Flash, dir: Dir, o: int, k: nat)
    requires Linked(g, fl, dir) && 1 <= o <= MAX_ID && Key(IndexId(o), k) in dir
    ensures RefsOfIx(g, dir, o, k, RefsAt(fl, dir, Key(IndexId(o), k)))
    ensures forall span: nat :: Key(o, span) in dir ==> dir[Key(o, span)] != NONE
  {
    hide IxSpan;
    hide IxEntry;
    var x := Key(IndexId(o), k);
    assert KeyAt(fl, dir[x]) == x && GoodPage(g, fl.lu[dir[x]], fl.pages[dir[x]]);
    forall span: nat | IxSpan(g, span) == k
      ensures IxEntry(g, span) < |RefsAt(fl, dir, x)|
      ensures RefsAt(fl, dir, x)[IxEntry(g, span)] == if Key(o, span) in dir then dir[Key(o, span)] else NONE
    {
      var i := IxEntry(g, span);
      var r := RefAt(fl, dir, x, i);
      if r != NONE {
        assert RefLeads(g, fl, x, i, r);
        IxInjective(g, fl.pages[r].span, span);
        assert KeyAt(fl, r) == Key(o, span) && Live(fl.lu[r]);
      }
      if Key(o, span) in dir {
        assert Referred(g, fl, dir, Key(o, span));
      }
    }
  }

  /** A window that agrees everywhere but under index page `k` agrees everywhere once it was told the
      references of that page. */
  lemma ToldAgrees(g: Geometry, dir: Dir, o: int, k: nat, refs: seq<int>, w: Window)
    requires g.Valid() && Contiguous(dir, o) && RefsOfIx(g, dir, o, k, refs)
    requires forall span: nat :: Key(o, span) in dir ==> dir[Key(o, span)] != NONE
    requires forall i :: 0 <= i < |w.entries| && IxSpan(g, w.start + i) != k ==> EntryOk(dir, o, w.start + i, w.entries[i])
    requires forall i :: 0 <= i < |w.entries| && w.entries[i] != NONE ==> Key(o, w.start + i) in dir
    ensures Agrees(dir, o, w.start, TakeOver(w, FirstSpan(g, k), refs).entries)
    ensures forall i :: 0 <= i < |w.entries| && IxSpan(g, w.start + i) == k && Key(o, w.start + i) in dir ==>
      TakeOver(w, FirstSpan(g, k), refs).entries[i] == dir[Key(o, w.start + i)]
  {
    hide IxSpan;
    hide IxEntry;
    hide FirstSpan;
    hide IxLen;
    hide Contiguous;
    var first, r := FirstSpan(g, k), TakeOver(w, FirstSpan(g, k), refs);
    forall i | 0 <= i < |w.entries|
      ensures EntryOk(dir, o, w.start + i, r.entries[i])
      ensures IxSpan(g, w.start + i) == k && Key(o, w.start + i) in dir ==> r.entries[i] == dir[Key(o, w.start + i)]
    {
      var span := w.start + i;
      IxRange(g, k, span);
      if IxSpan(g, span) == k && Key(o, span) in dir {
        ReachedThere(g, dir, o, k, refs, w.start, span);
      }
    }
  }

  lemma ReachedThere(g: Geometry, dir: Dir, o: int, k: nat, refs: seq<int>, start: nat, span: nat)
    requires g.Valid() && Contiguous(dir, o) && RefsOfIx(g, dir, o, k, refs) && start <= span
    requires forall s: nat :: Key(o, s) in dir ==> dir[Key(o, s)] != NONE
    requires IxSpan(g, span) == k && Key(o, span) in dir
    ensures Reached(start, FirstSpan(g, k), refs, span)
  {
    hide IxSpan;
    hide IxEntry;
    hide FirstSpan;
    hide IxLen;
    var first := FirstSpan(g, k);
    IxRange(g, k, span);
    forall j | (if start < first then first else start) - first <= j <= span - first
      ensures 0 <= j < |refs| && refs[j] != NONE
    {
      var s: nat := first + j;
      IxRange(g, k, s);
      assert Key(o, s) in dir;
    }
  }
}
