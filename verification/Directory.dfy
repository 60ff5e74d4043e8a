/** What a consistent medium is: every live page has one place, and the object index and
    the lookup entries agree on it. */
module Directory {
  import opened Words
  import opened Layout
  import opened Medium

  /** A live page is known by its lookup id and its span. */
  datatype Key = Key(id: int, span: int)

  /** Where each live page is. */
  type Dir = map<Key, int>

  function KeyAt(fl: Flash, s: int): Key
    requires 0 <= s < |fl.lu| && s < |fl.pages|
  {
    Key(fl.lu[s], fl.pages[s].span)
  }

  /** The key of the index page that refers to the data page with key `k`. */
  function IndexKey(g: Geometry, k: Key): Key
    requires g.Valid()
  {
    Key(IndexId(k.id), if k.span < 0 then 0 else IxSpan(g, k.span))
  }

  ghost predicate IndexBody(g: Geometry, span: int, b: Body) {
    if span == 0 then b.Header? && |b.refs| == g.hdrLen && |b.name| == g.nameLen
    else b.Index? && |b.refs| == g.ixLen
  }

  /** A live page is finalized and laid out as its lookup id and span say. */
  ghost predicate GoodPage(g: Geometry, entry: int, p: Page) {
    && p.id == entry
    && p.span >= 0
    && 1 <= ObjectId(entry) <= MAX_ID
    && if IsIndexId(entry) then p.flags == INDEX_FLAGS && IndexBody(g, p.span, p.body)
       else p.flags == DATA_FLAGS && p.body.Data? && |p.body.bytes| == g.dps
  }

  ghost predicate ErasedFree(fl: Flash)
    requires |fl.lu| == |fl.pages|
  {
    forall s :: 0 <= s < |fl.lu| && fl.lu[s] == FREE ==> fl.pages[s] == ERASED
  }

  /** A deleted page is marked deleted in its header too. */
  ghost predicate DeadMarked(fl: Flash)
    requires |fl.lu| == |fl.pages|
  {
    forall s :: 0 <= s < |fl.lu| && fl.lu[s] == DELETED ==> !fl.pages[s].flags.delet
  }

  ghost predicate GoodPages(g: Geometry, fl: Flash)
    requires |fl.lu| == |fl.pages|
  {
    forall s :: 0 <= s < |fl.lu| && Live(fl.lu[s]) ==> GoodPage(g, fl.lu[s], fl.pages[s])
  }

  /** `dir` locates exactly the live pages. */
  ghost predicate Locates(fl: Flash, dir: Dir)
    requires |fl.lu| == |fl.pages|
  {
    && (forall s :: 0 <= s < |fl.lu| && Live(fl.lu[s]) ==> KeyAt(fl, s) in dir && dir[KeyAt(fl, s)] == s)
    && (forall k :: k in dir ==> 0 <= dir[k] < |fl.lu| && Live(k.id) && KeyAt(fl, dir[k]) == k)
  }

  function BodyAt(fl: Flash, dir: Dir, k: Key): Body
    requires k in dir
  {
    if 0 <= dir[k] < |fl.pages| then fl.pages[dir[k]].body else Clash
  }

  function RefsOf(b: Body): seq<int> {
    if b.Header? || b.Index? then b.refs else []
  }

  /** The page references of the index page with key `k`. */
  function RefsAt(fl: Flash, dir: Dir, k: Key): seq<int>
    requires k in dir
  {
    RefsOf(BodyAt(fl, dir, k))
  }

  function RefAt(fl: Flash, dir: Dir, k: Key, i: int): int
    requires k in dir
  {
    if 0 <= i < |RefsAt(fl, dir, k)| then RefsAt(fl, dir, k)[i] else NONE
  }

  /** A page reference `r` in entry `i` of index page `k` leads to the live data page of that place. */
  ghost predicate RefLeads(g: Geometry, fl: Flash, k: Key, i: int, r: int)
    requires g.Valid()
  {
    && 0 <= r < |fl.lu| && r < |fl.pages|
    && fl.lu[r] == ObjectId(k.id)
    && fl.pages[r].span >= 0
    && IxSpan(g, fl.pages[r].span) == k.span
    && IxEntry(g, fl.pages[r].span) == i
  }

  ghost predicate RefsLead(g: Geometry, fl: Flash, dir: Dir)
    requires g.Valid()
  {
    forall k, i :: k in dir && IsIndexId(k.id) && RefAt(fl, dir, k, i) != NONE ==>
      RefLeads(g, fl, k, i, RefAt(fl, dir, k, i))
  }

  /** The data page `k` is referred to from its place in the index. */
  ghost predicate Referred(g: Geometry, fl: Flash, dir: Dir, k: Key)
    requires g.Valid() && k in dir
  {
    && k.span >= 0
    && IndexKey(g, k) in dir
    && RefAt(fl, dir, IndexKey(g, k), IxEntry(g, k.span)) == dir[k]
  }

  ghost predicate DataReferred(g: Geometry, fl: Flash, dir: Dir)
    requires g.Valid()
  {
    forall k {:trigger Referred(g, fl, dir, k)} :: k in dir && !IsIndexId(k.id) ==> Referred(g, fl, dir, k)
  }

  ghost predicate Headed(dir: Dir) {
    forall k :: k in dir && IsIndexId(k.id) ==> Key(k.id, 0) in dir
  }

  /** The medium is consistent and `dir` is its directory. */
  ghost predicate Linked(g: Geometry, fl: Flash, dir: Dir) {
    && Shaped(g, fl)
    && ErasedFree(fl)
    && GoodPages(g, fl)
    && Locates(fl, dir)
    && RefsLead(g, fl, dir)
    && DataReferred(g, fl, dir)
    && Headed(dir)
  }

  // What the medium means, whatever slots the pages are in.

  /** A page body without its page references. */
  function Strip(b: Body): Body {
    match b
    case Header(size, name, _) => Header(size, name, [])
    case Index(_) => Index([])
    case _ => b
  }

  /** Every live page's key with its bytes (data), its length and name (header) or nothing (index). */
  function Meaning(fl: Flash, dir: Dir): (m: map<Key, Body>)
    ensures m.Keys == dir.Keys
  {
    map k | k in dir :: Strip(BodyAt(fl, dir, k))
  }

  // The elementary changes.

  /** The medium with the body of page `t` replaced: what the flash would be if the index page
      in the work buffer had been stored over the one it was loaded from. */
  function Patch(fl: Flash, t: int, body: Body): Flash
    requires 0 <= t < |fl.pages|
  {
    fl.(pages := fl.pages[t := fl.pages[t].(body := body)])
  }

  /** What an operation that stopped in the middle left behind: nothing, or the body of an index page
      that was changed in the work buffer but never stored over page `t`. */
  datatype Loss = NoLoss | Unstored(t: int, body: Body)

  /** What the medium would be with the lost index page. */
  function Mended(fl: Flash, loss: Loss): Flash {
    if loss.Unstored? && 0 <= loss.t < |fl.pages| then Patch(fl, loss.t, loss.body) else fl
  }

  /** The index page in slot `t` refers to other pages than the lost one. */
  ghost predicate RealLoss(fl: Flash, loss: Loss) {
    loss.Unstored? ==>
      && 0 <= loss.t < |fl.pages| == |fl.lu| && Live(fl.lu[loss.t]) && IsIndexId(fl.lu[loss.t])
      && RefsOf(loss.body) != RefsOf(fl.pages[loss.t].body)
  }

  /** An index page body with entry `i` set to `r`; a body that is no index page stays as it is. */
  function PutRef(b: Body, i: int, r: int): Body {
    if (b.Header? || b.Index?) && 0 <= i < |b.refs| then b.(refs := b.refs[i := r]) else b
  }

  /** Page `page` written to slot `f` and entered in the lookup under `id`. */
  function Placed(fl: Flash, f: int, id: int, page: Page): Flash
    requires 0 <= f < |fl.lu| && f < |fl.pages|
  {
    fl.(lu := fl.lu[f := id], pages := fl.pages[f := page])
  }

  /** Slot `s` marked deleted in the lookup and in the page header. */
  function Dropped(fl: Flash, s: int): Flash
    requires 0 <= s < |fl.lu| && s < |fl.pages|
  {
    fl.(lu := fl.lu[s := DELETED],
        pages := fl.pages[s := fl.pages[s].(flags := AndFlags(fl.pages[s].flags, Flags(false, true, true, false, true)))])
  }

  function Moved(fl: Flash, s: int, f: int, id: int, page: Page): Flash
    requires 0 <= f < |fl.lu| && f < |fl.pages|
    requires 0 <= s < |fl.lu| && s < |fl.pages|
  {
    Dropped(Placed(fl, f, id, page), s)
  }

  ghost predicate SameSize(v: Flash, w: Flash) {
    |w.lu| == |v.lu| == |w.pages| == |v.pages| && |w.counts| == |v.counts|
  }

  /** A live page with key `k` occupies slot `f`, free in `v`; the page of slot `s` is gone
      (`s` is NONE when none is); index page `t` has `f` in entry `i` (`t` is NONE when no
      reference changes); everything else is as it was. */
  ghost predicate Changed(v: Flash, w: Flash, f: int, k: Key, s: int, t: int, i: int) {
    && SameSize(v, w)
    && 0 <= f < |v.lu| && v.lu[f] == FREE && Live(k.id) && KeyAt(w, f) == k
    && s != f && t != f && (s != NONE ==> 0 <= s < |v.lu| && KeyAt(v, s) == k && w.lu[s] == DELETED)
    && (t != NONE ==>
         0 <= t < |v.lu| && (v.pages[t].body.Header? || v.pages[t].body.Index?) &&
         0 <= i < |v.pages[t].body.refs| && w.pages[t] == v.pages[t].(body := PutRef(v.pages[t].body, i, f)))
    && (forall x :: 0 <= x < |v.lu| && x != s && x != f ==> w.lu[x] == v.lu[x])
    && (forall x :: 0 <= x < |v.lu| && x != s && x != f && x != t ==> w.pages[x] == v.pages[x])
  }

  // One new or relocated page. Data pages come with their reference.

  /** The reference that a data page `k` would have, and where it is. */
  ghost predicate RefPlace(g: Geometry, fl: Flash, dir: Dir, k: Key, t: int, i: int)
    requires g.Valid()
  {
    && k.span >= 0 && i == IxEntry(g, k.span)
    && IndexKey(g, k) in dir && t == dir[IndexKey(g, k)]
  }

  /** Every page reference but the one in entry `i` of index page `t` is as it was. */
  ghost predicate RefsFollow(v: Flash, dir: Dir, w: Flash, k: Key, f: int, t: int, i: int) {
    forall q :: q in dir && q != k ==>
      && (dir[q] != t ==> RefsAt(w, dir[k := f], q) == RefsAt(v, dir, q))
      && (dir[q] == t ==> 0 <= i < |RefsAt(v, dir, q)| && RefsAt(w, dir[k := f], q) == RefsAt(v, dir, q)[i := f])
  }

  lemma ChangedLocates(g: Geometry, v: Flash, w: Flash, dir: Dir, f: int, k: Key, s: int, t: int, i: int)
    requires Linked(g, v, dir) && Changed(v, w, f, k, s, t, i)
    requires GoodPage(g, k.id, w.pages[f])
    requires s == NONE <==> k !in dir
    requires t != NONE ==> s != t && IsIndexId(v.lu[t])
    ensures Shaped(g, w) && ErasedFree(w) && GoodPages(g, w) && Locates(w, dir[k := f])
  {
    hide RefsLead;
    hide DataReferred;
    hide Headed;
    assert k in dir ==> dir[k] == s;
  }

  ghost predicate BodiesFollow(v: Flash, dir: Dir, w: Flash, k: Key, f: int, t: int, i: int) {
    forall q :: q in dir && q != k ==>
      && (dir[q] != t ==> BodyAt(w, dir[k := f], q) == BodyAt(v, dir, q))
      && (dir[q] == t ==> 0 <= i < |RefsAt(v, dir, q)| && BodyAt(w, dir[k := f], q) == PutRef(BodyAt(v, dir, q), i, f))
  }

  lemma ChangedBodies(g: Geometry, v: Flash, w: Flash, dir: Dir, f: int, k: Key, s: int, t: int, i: int)
    requires Linked(g, v, dir) && Changed(v, w, f, k, s, t, i)
    requires s == NONE <==> k !in dir
    ensures BodiesFollow(v, dir, w, k, f, t, i)
  {
    hide RefsLead;
    hide DataReferred;
    hide Headed;
    hide GoodPages;
    hide ErasedFree;
    forall q | q in dir && q != k
      ensures dir[q] != t ==> BodyAt(w, dir[k := f], q) == BodyAt(v, dir, q)
      ensures dir[q] == t ==> 0 <= i < |RefsAt(v, dir, q)| && BodyAt(w, dir[k := f], q) == PutRef(BodyAt(v, dir, q), i, f)
    {
      assert KeyAt(v, dir[q]) == q;
    }
  }

  lemma ChangedMeaning(v: Flash, w: Flash, dir: Dir, f: int, k: Key, t: int, i: int)
    requires BodiesFollow(v, dir, w, k, f, t, i) && 0 <= f < |w.pages|
    ensures Meaning(w, dir[k := f]) == Meaning(v, dir)[k := Strip(w.pages[f].body)]
    ensures RefsFollow(v, dir, w, k, f, t, i)
  {
  }

  lemma RefsStillLead(g: Geometry, v: Flash, w: Flash, dir: Dir, f: int, k: Key, s: int, t: int, i: int)
    requires Linked(g, v, dir) && Changed(v, w, f, k, s, t, i)
    requires !IsIndexId(k.id) && RefPlace(g, v, dir, k, t, i)
    requires s == NONE <==> k !in dir
    requires RefsFollow(v, dir, w, k, f, t, i)
    ensures RefsLead(g, w, dir[k := f])
  {
    hide RefsAt;
    hide GoodPages;
    hide DataReferred;
    var d := dir[k := f];
    forall q, j | q in d && IsIndexId(q.id) && RefAt(w, d, q, j) != NONE
      ensures RefLeads(g, w, q, j, RefAt(w, d, q, j))
    {
      if !(dir[q] == t && j == i) {
        assert RefLeads(g, v, q, j, RefAt(v, dir, q, j));
      }
    }
  }

  lemma DataStillReferred(g: Geometry, v: Flash, w: Flash, dir: Dir, f: int, k: Key, t: int, i: int)
    requires Linked(g, v, dir)
    requires !IsIndexId(k.id) && RefPlace(g, v, dir, k, t, i) && 1 <= k.id <= MAX_ID
    requires RefsFollow(v, dir, w, k, f, t, i)
    ensures DataReferred(g, w, dir[k := f])
  {
    hide RefsAt;
    hide RefsLead;
    var d := dir[k := f];
    var x := IndexKey(g, k);
    assert RefsAt(w, d, x) == RefsAt(v, dir, x)[i := f];
    forall q | q in d && !IsIndexId(q.id)
      ensures Referred(g, w, d, q)
    {
      if q != k {
        var y := IndexKey(g, q);
        assert Referred(g, v, dir, q);
        assert KeyAt(v, dir[q]) == q;
        if dir[y] == t {
          assert y == x;
          if IxEntry(g, q.span) == i {
            IxInjective(g, q.span, k.span);
          }
        }
      }
    }
  }

  /** A data page is written to a free slot and its reference set to it; it replaces the page
      of that key, if there is one. */
  lemma PutData(g: Geometry, v: Flash, w: Flash, dir: Dir, f: int, k: Key, s: int, t: int, i: int)
    requires Linked(g, v, dir) && Changed(v, w, f, k, s, t, i)
    requires !IsIndexId(k.id) && RefPlace(g, v, dir, k, t, i)
    requires GoodPage(g, k.id, w.pages[f])
    requires s == NONE <==> k !in dir
    ensures Linked(g, w, dir[k := f])
    ensures Meaning(w, dir[k := f]) == Meaning(v, dir)[k := w.pages[f].body]
  {
    hide RefsFollow;
    hide BodiesFollow;
    ChangedLocates(g, v, w, dir, f, k, s, t, i);
    ChangedBodies(g, v, w, dir, f, k, s, t, i);
    ChangedMeaning(v, w, dir, f, k, t, i);
    RefsStillLead(g, v, w, dir, f, k, s, t, i);
    DataStillReferred(g, v, w, dir, f, k, t, i);
  }

  // Index pages.

  lemma IndexRefsLead(g: Geometry, v: Flash, w: Flash, dir: Dir, f: int, k: Key, s: int)
    requires Linked(g, v, dir) && Changed(v, w, f, k, s, NONE, 0)
    requires IsIndexId(k.id) && GoodPage(g, k.id, w.pages[f]) && (s == NONE <==> k !in dir)
    requires BodiesFollow(v, dir, w, k, f, NONE, 0)
    requires s != NONE ==> RefsOf(w.pages[f].body) == RefsOf(v.pages[s].body)
    requires s == NONE ==> forall j :: 0 <= j < |RefsOf(w.pages[f].body)| ==> RefsOf(w.pages[f].body)[j] == NONE
    ensures RefsLead(g, w, dir[k := f])
  {
    hide DataReferred;
    hide Headed;
    var d := dir[k := f];
    forall q, j | q in d && IsIndexId(q.id) && RefAt(w, d, q, j) != NONE
      ensures RefLeads(g, w, q, j, RefAt(w, d, q, j))
    {
      assert q in dir;
      assert RefsAt(w, d, q) == RefsAt(v, dir, q);
      assert RefLeads(g, v, q, j, RefAt(v, dir, q, j));
    }
  }

  lemma IndexDataReferred(g: Geometry, v: Flash, w: Flash, dir: Dir, f: int, k: Key, s: int)
    requires Linked(g, v, dir) && Changed(v, w, f, k, s, NONE, 0)
    requires IsIndexId(k.id) && (s == NONE <==> k !in dir)
    requires BodiesFollow(v, dir, w, k, f, NONE, 0)
    requires s != NONE ==> RefsOf(w.pages[f].body) == RefsOf(v.pages[s].body)
    ensures DataReferred(g, w, dir[k := f])
  {
    hide RefsLead;
    var d := dir[k := f];
    forall q | q in d && !IsIndexId(q.id)
      ensures Referred(g, w, d, q)
    {
      assert Referred(g, v, dir, q);
      var y := IndexKey(g, q);
      assert RefsAt(w, d, y) == RefsAt(v, dir, y);
    }
  }

  /** An index page is written to a free slot: a new copy of page `k` with the same references,
      or a new page without any. */
  lemma PutIndex(g: Geometry, v: Flash, w: Flash, dir: Dir, f: int, k: Key, s: int)
    requires Linked(g, v, dir) && Changed(v, w, f, k, s, NONE, 0)
    requires IsIndexId(k.id) && GoodPage(g, k.id, w.pages[f]) && (s == NONE <==> k !in dir)
    requires s != NONE ==> RefsOf(w.pages[f].body) == RefsOf(v.pages[s].body)
    requires s == NONE ==> forall j :: 0 <= j < |RefsOf(w.pages[f].body)| ==> RefsOf(w.pages[f].body)[j] == NONE
    requires k.span == 0 || Key(k.id, 0) in dir
    ensures Linked(g, w, dir[k := f])
    ensures Meaning(w, dir[k := f]) == Meaning(v, dir)[k := Strip(w.pages[f].body)]
  {
    hide RefsFollow;
    hide BodiesFollow;
    ChangedLocates(g, v, w, dir, f, k, s, NONE, 0);
    ChangedBodies(g, v, w, dir, f, k, s, NONE, 0);
    ChangedMeaning(v, w, dir, f, k, NONE, 0);
    IndexRefsLead(g, v, w, dir, f, k, s);
    IndexDataReferred(g, v, w, dir, f, k, s);
  }

  // Changes in place.

  /** Only the body of page `s` changed, and not its references. */
  ghost predicate Rewritten(v: Flash, w: Flash, s: int) {
    && SameSize(v, w) && w.lu == v.lu
    && 0 <= s < |v.lu|
    && w.pages[s] == v.pages[s].(body := w.pages[s].body)
    && RefsOf(w.pages[s].body) == RefsOf(v.pages[s].body)
    && (forall x :: 0 <= x < |v.lu| && x != s ==> w.pages[x] == v.pages[x])
  }

  lemma RewritePages(g: Geometry, v: Flash, w: Flash, dir: Dir, s: int)
    requires Linked(g, v, dir) && Rewritten(v, w, s) && Live(v.lu[s])
    requires GoodPage(g, v.lu[s], w.pages[s])
    ensures KeyAt(v, s) in dir
    ensures Shaped(g, w) && ErasedFree(w) && GoodPages(g, w) && Locates(w, dir)
    ensures Meaning(w, dir) == Meaning(v, dir)[KeyAt(v, s) := Strip(w.pages[s].body)]
    ensures forall q :: q in dir ==> RefsAt(w, dir, q) == RefsAt(v, dir, q)
  {
    hide RefsLead;
    hide DataReferred;
    hide GoodPage;
    var k := KeyAt(v, s);
    assert k in dir && dir[k] == s;
    forall q | q in dir
      ensures RefsAt(w, dir, q) == RefsAt(v, dir, q)
      ensures q != k ==> BodyAt(w, dir, q) == BodyAt(v, dir, q)
    {
      assert KeyAt(v, dir[q]) == q;
    }
  }

  lemma RewriteRefs(g: Geometry, v: Flash, w: Flash, dir: Dir, s: int)
    requires Linked(g, v, dir) && Rewritten(v, w, s)
    requires forall q :: q in dir ==> RefsAt(w, dir, q) == RefsAt(v, dir, q)
    ensures RefsLead(g, w, dir) && DataReferred(g, w, dir)
  {
    hide RefsAt;
    hide IxSpan;
    hide IxEntry;
    hide GoodPages;
    forall q, j | q in dir && IsIndexId(q.id) && RefAt(w, dir, q, j) != NONE
      ensures RefLeads(g, w, q, j, RefAt(w, dir, q, j))
    {
      assert RefLeads(g, v, q, j, RefAt(v, dir, q, j));
    }
    forall q | q in dir && !IsIndexId(q.id)
      ensures Referred(g, w, dir, q)
    {
      assert Referred(g, v, dir, q);
    }
  }

  lemma Rewrite(g: Geometry, v: Flash, w: Flash, dir: Dir, s: int)
    requires Linked(g, v, dir) && Rewritten(v, w, s) && Live(v.lu[s])
    requires GoodPage(g, v.lu[s], w.pages[s])
    ensures KeyAt(v, s) in dir
    ensures Linked(g, w, dir)
    ensures Meaning(w, dir) == Meaning(v, dir)[KeyAt(v, s) := Strip(w.pages[s].body)]
  {
    hide RefsLead;
    hide DataReferred;
    hide Locates;
    hide GoodPages;
    hide Meaning;
    RewritePages(g, v, w, dir, s);
    RewriteRefs(g, v, w, dir, s);
  }

  // Removals.

  /** The live page of slot `s` is deleted; entry `i` of index page `t` (`t` is NONE when there
      is none) is cleared with it. */
  ghost predicate Shed(v: Flash, w: Flash, s: int, t: int, i: int) {
    && SameSize(v, w)
    && 0 <= s < |v.lu| && s != t && Live(v.lu[s]) && w.lu[s] == DELETED
    && (t != NONE ==>
         0 <= t < |v.lu| && (v.pages[t].body.Header? || v.pages[t].body.Index?) &&
         0 <= i < |v.pages[t].body.refs| && w.pages[t] == v.pages[t].(body := PutRef(v.pages[t].body, i, NONE)))
    && (forall x :: 0 <= x < |v.lu| && x != s ==> w.lu[x] == v.lu[x])
    && (forall x :: 0 <= x < |v.lu| && x != s && x != t ==> w.pages[x] == v.pages[x])
  }

  function Without(dir: Dir, k: Key): Dir {
    map q | q in dir && q != k :: dir[q]
  }

  lemma ShedLocates(g: Geometry, v: Flash, w: Flash, dir: Dir, s: int, t: int, i: int)
    requires Linked(g, v, dir) && Shed(v, w, s, t, i)
    requires t != NONE ==> IsIndexId(v.lu[t])
    ensures Shaped(g, w) && ErasedFree(w) && GoodPages(g, w) && Locates(w, Without(dir, KeyAt(v, s)))
    ensures KeyAt(v, s) in dir && dir[KeyAt(v, s)] == s
  {
    hide RefsLead;
    hide DataReferred;
    hide Headed;
  }

  ghost predicate RefsShed(v: Flash, dir: Dir, w: Flash, d: Dir, t: int, i: int)
    requires d.Keys <= dir.Keys
  {
    forall q :: q in d ==>
      && (d[q] != t ==> RefsAt(w, d, q) == RefsAt(v, dir, q))
      && (d[q] == t ==> 0 <= i < |RefsAt(v, dir, q)| && RefsAt(w, d, q) == RefsAt(v, dir, q)[i := NONE])
  }

  lemma ShedBodies(g: Geometry, v: Flash, w: Flash, dir: Dir, s: int, t: int, i: int)
    requires Linked(g, v, dir) && Shed(v, w, s, t, i)
    ensures var k, d := KeyAt(v, s), Without(dir, KeyAt(v, s));
      && Meaning(w, d) == Meaning(v, dir) - {k}
      && RefsShed(v, dir, w, d, t, i)
  {
    hide RefsLead;
    hide DataReferred;
    hide Headed;
    hide GoodPages;
    hide ErasedFree;
    var k, d := KeyAt(v, s), Without(dir, KeyAt(v, s));
    forall q | q in d
      ensures d[q] != t ==> BodyAt(w, d, q) == BodyAt(v, dir, q)
      ensures d[q] == t ==> 0 <= i < |RefsAt(v, dir, q)| && BodyAt(w, d, q) == PutRef(BodyAt(v, dir, q), i, NONE)
    {
      assert KeyAt(v, dir[q]) == q;
    }
  }

  lemma ShedRefsLead(g: Geometry, v: Flash, w: Flash, dir: Dir, s: int, t: int, i: int)
    requires Linked(g, v, dir) && Shed(v, w, s, t, i)
    requires IsIndexId(v.lu[s]) || (RefPlace(g, v, dir, KeyAt(v, s), t, i) && KeyAt(v, s) in dir && Referred(g, v, dir, KeyAt(v, s)))
    requires RefsShed(v, dir, w, Without(dir, KeyAt(v, s)), t, i)
    ensures RefsLead(g, w, Without(dir, KeyAt(v, s)))
  {
    hide RefsAt;
    hide DataReferred;
    var d := Without(dir, KeyAt(v, s));
    forall q, j | q in d && IsIndexId(q.id) && RefAt(w, d, q, j) != NONE
      ensures RefLeads(g, w, q, j, RefAt(w, d, q, j))
    {
      assert RefLeads(g, v, q, j, RefAt(v, dir, q, j));
    }
  }

  lemma ShedReferred(g: Geometry, v: Flash, w: Flash, dir: Dir, s: int, t: int, i: int)
    requires Linked(g, v, dir) && Shed(v, w, s, t, i)
    requires !IsIndexId(v.lu[s]) && RefPlace(g, v, dir, KeyAt(v, s), t, i)
    requires RefsShed(v, dir, w, Without(dir, KeyAt(v, s)), t, i)
    ensures DataReferred(g, w, Without(dir, KeyAt(v, s)))
  {
    hide RefsLead;
    hide RefsAt;
    hide Headed;
    hide ErasedFree;
    var d, k := Without(dir, KeyAt(v, s)), KeyAt(v, s);
    forall q | q in d && !IsIndexId(q.id)
      ensures Referred(g, w, d, q)
    {
      var y := IndexKey(g, q);
      assert Referred(g, v, dir, q);
      assert KeyAt(v, dir[q]) == q && KeyAt(v, dir[y]) == y;
      if d[y] == t && IxEntry(g, q.span) == i {
        assert y == IndexKey(g, k);
        IxInjective(g, q.span, k.span);
      }
    }
  }

  /** A data page and its reference go. */
  lemma DropData(g: Geometry, v: Flash, w: Flash, dir: Dir, s: int, t: int, i: int)
    requires Linked(g, v, dir) && Shed(v, w, s, t, i)
    requires !IsIndexId(v.lu[s]) && RefPlace(g, v, dir, KeyAt(v, s), t, i)
    ensures Linked(g, w, Without(dir, KeyAt(v, s)))
    ensures Meaning(w, Without(dir, KeyAt(v, s))) == Meaning(v, dir) - {KeyAt(v, s)}
  {
    hide Meaning;
    hide RefsLead;
    hide RefsAt;
    var k := KeyAt(v, s);
    assert k in dir && dir[k] == s;
    assert KeyAt(v, t) == IndexKey(g, k) && Referred(g, v, dir, k);
    ShedLocates(g, v, w, dir, s, t, i);
    ShedBodies(g, v, w, dir, s, t, i);
    ShedRefsLead(g, v, w, dir, s, t, i);
    ShedReferred(g, v, w, dir, s, t, i);
  }

  /** An index page without references goes; the header goes last. */
  lemma DropIndex(g: Geometry, v: Flash, w: Flash, dir: Dir, s: int)
    requires Linked(g, v, dir) && Shed(v, w, s, NONE, 0)
    requires IsIndexId(v.lu[s])
    requires forall j :: 0 <= j < |RefsOf(v.pages[s].body)| ==> RefsOf(v.pages[s].body)[j] == NONE
    requires v.pages[s].span == 0 ==> forall q :: q in dir && q.id == v.lu[s] ==> q.span == 0
    ensures Linked(g, w, Without(dir, KeyAt(v, s)))
    ensures Meaning(w, Without(dir, KeyAt(v, s))) == Meaning(v, dir) - {KeyAt(v, s)}
  {
    var k, d := KeyAt(v, s), Without(dir, KeyAt(v, s));
    ShedLocates(g, v, w, dir, s, NONE, 0);
    ShedBodies(g, v, w, dir, s, NONE, 0);
    ShedRefsLead(g, v, w, dir, s, NONE, 0);
    forall q | q in d && !IsIndexId(q.id)
      ensures Referred(g, w, d, q)
    {
      assert Referred(g, v, dir, q);
      assert IndexKey(g, q) != k;
    }
  }

  // Changes that no live page takes part in.

  /** The live entries and their pages are the same in both media. */
  ghost predicate SameLive(v: Flash, w: Flash) {
    && SameSize(v, w)
    && (forall x :: 0 <= x < |v.lu| ==> Live(w.lu[x]) == Live(v.lu[x]))
    && (forall x :: 0 <= x < |v.lu| && Live(v.lu[x]) ==> w.lu[x] == v.lu[x] && w.pages[x] == v.pages[x])
  }

  lemma LiveSamePages(g: Geometry, v: Flash, w: Flash, dir: Dir)
    requires Linked(g, v, dir) && SameLive(v, w)
    ensures Shaped(g, w) && GoodPages(g, w) && Locates(w, dir) && Meaning(w, dir) == Meaning(v, dir)
    ensures forall q :: q in dir ==> BodyAt(w, dir, q) == BodyAt(v, dir, q)
  {
    hide RefsLead;
    hide DataReferred;
    hide GoodPage;
    hide Strip;
    forall q | q in dir
      ensures BodyAt(w, dir, q) == BodyAt(v, dir, q)
      ensures KeyAt(w, dir[q]) == q
    {
      assert KeyAt(v, dir[q]) == q;
    }
  }

  lemma LiveSameRefs(g: Geometry, v: Flash, w: Flash, dir: Dir)
    requires Linked(g, v, dir) && SameLive(v, w)
    requires forall q :: q in dir ==> BodyAt(w, dir, q) == BodyAt(v, dir, q)
    ensures RefsLead(g, w, dir) && DataReferred(g, w, dir)
  {
    hide BodyAt;
    hide IxSpan;
    hide IxEntry;
    forall q, j | q in dir && IsIndexId(q.id) && RefAt(w, dir, q, j) != NONE
      ensures RefLeads(g, w, q, j, RefAt(w, dir, q, j))
    {
      assert RefLeads(g, v, q, j, RefAt(v, dir, q, j));
      assert GoodPage(g, v.lu[dir[q]], v.pages[dir[q]]);
    }
    forall q | q in dir && !IsIndexId(q.id)
      ensures Referred(g, w, dir, q)
    {
      assert Referred(g, v, dir, q);
    }
  }

  lemma LiveSame(g: Geometry, v: Flash, w: Flash, dir: Dir)
    requires Linked(g, v, dir) && SameLive(v, w) && ErasedFree(w)
    ensures Linked(g, w, dir)
    ensures Meaning(w, dir) == Meaning(v, dir)
  {
    hide RefsLead;
    hide DataReferred;
    hide SameLive;
    hide Locates;
    hide GoodPages;
    LiveSamePages(g, v, w, dir);
    LiveSameRefs(g, v, w, dir);
  }

  // Losses.

  lemma SameLocations(g: Geometry, v: Flash, w: Flash, dir: Dir, d: Dir)
    requires Linked(g, v, dir) && Linked(g, w, d) && v.lu == w.lu
    requires forall s :: 0 <= s < |v.pages| && s < |w.pages| ==> v.pages[s].span == w.pages[s].span
    ensures dir == d
  {
    hide RefsLead;
    hide DataReferred;
    hide Headed;
    hide GoodPages;
    hide ErasedFree;
    forall k | k in dir
      ensures k in d && d[k] == dir[k]
    {
      assert KeyAt(w, dir[k]) == k;
    }
    forall k | k in d
      ensures k in dir
    {
      assert KeyAt(v, d[k]) == k;
    }
  }

  lemma RefsSettled(g: Geometry, v: Flash, w: Flash, dir: Dir, t: int, i: int)
    requires Linked(g, v, dir) && Linked(g, w, dir) && v.lu == w.lu && |v.pages| == |w.pages|
    requires forall s :: 0 <= s < |v.pages| && !IsIndexId(v.lu[s]) ==> v.pages[s] == w.pages[s]
    requires 0 <= t < |v.lu| && Live(v.lu[t]) && IsIndexId(v.lu[t]) && v.pages[t].span == w.pages[t].span
    requires 0 <= i < |RefsOf(v.pages[t].body)| == |RefsOf(w.pages[t].body)|
    ensures RefsOf(v.pages[t].body)[i] != NONE ==> RefsOf(w.pages[t].body)[i] == RefsOf(v.pages[t].body)[i]
  {
    var x, r := KeyAt(v, t), RefsOf(v.pages[t].body)[i];
    assert x in dir && dir[x] == t;
    if r != NONE {
      assert RefAt(v, dir, x, i) == r && RefLeads(g, v, x, i, r);
      assert GoodPage(g, v.lu[t], v.pages[t]) && Live(v.lu[r]);
      var k := KeyAt(v, r);
      assert k in dir && dir[k] == r && Referred(g, w, dir, k);
      assert IndexKey(g, k) == x;
    }
  }

  /** A loss shows: without the lost index page there is no directory that makes the medium
      consistent. */
  lemma LossShows(g: Geometry, fl: Flash, dir: Dir, loss: Loss, d: Dir)
    requires Linked(g, Mended(fl, loss), dir) && loss.Unstored? && RealLoss(fl, loss)
    ensures !Linked(g, fl, d)
  {
    if Linked(g, fl, d) {
      var v, t := Mended(fl, loss), loss.t;
      SameLocations(g, v, fl, dir, d);
      assert GoodPage(g, fl.lu[t], v.pages[t]) && GoodPage(g, fl.lu[t], fl.pages[t]);
      forall i | 0 <= i < |RefsOf(loss.body)|
        ensures RefsOf(loss.body)[i] == RefsOf(fl.pages[t].body)[i]
      {
        RefsSettled(g, v, fl, dir, t, i);
        RefsSettled(g, fl, v, dir, t, i);
      }
    }
  }

  /** The object that lost an index page. */
  function Loser(fl: Flash, loss: Loss): int {
    if loss.Unstored? && 0 <= loss.t < |fl.lu| then ObjectId(fl.lu[loss.t]) else NONE
  }

  /** The live page `k` is as a consistent medium has it: a data page is referred to; an index page is
      laid out as it should be, and its references lead to the data pages of their places. */
  ghost predicate InPlace(g: Geometry, fl: Flash, dir: Dir, k: Key)
    requires g.Valid() && k in dir
  {
    if IsIndexId(k.id) then
      && 0 <= dir[k] < |fl.pages| && GoodPage(g, k.id, fl.pages[dir[k]])
      && forall i :: RefAt(fl, dir, k, i) != NONE ==> RefLeads(g, fl, k, i, RefAt(fl, dir, k, i))
    else Referred(g, fl, dir, k)
  }

  /** All pages of object `o` are in place. */
  ghost predicate Intact(g: Geometry, fl: Flash, dir: Dir, o: int)
    requires g.Valid()
  {
    forall k {:trigger InPlace(g, fl, dir, k)} :: k in dir && ObjectId(k.id) == o ==> InPlace(g, fl, dir, k)
  }

  /** On a consistent medium every object is intact. */
  lemma LinkedIntact(g: Geometry, fl: Flash, dir: Dir, o: int)
    requires Linked(g, fl, dir)
    ensures Intact(g, fl, dir, o)
  {
    forall k | k in dir && ObjectId(k.id) == o
      ensures InPlace(g, fl, dir, k)
    {
      assert !IsIndexId(k.id) ==> Referred(g, fl, dir, k);
      assert KeyAt(fl, dir[k]) == k;
    }
  }

  /** The loss of an index page harms one object and no other: its owner. */
  lemma LossBreaks(g: Geometry, fl: Flash, dir: Dir, loss: Loss, o: int)
    requires Linked(g, Mended(fl, loss), dir) && loss.Unstored? && RealLoss(fl, loss)
    ensures Intact(g, fl, dir, o) <==> o != Loser(fl, loss)
  {
    if o != Loser(fl, loss) {
      OthersIntact(g, fl, dir, loss, o);
    } else {
      LoserBroken(g, fl, dir, loss);
    }
  }

  lemma OthersIntact(g: Geometry, fl: Flash, dir: Dir, loss: Loss, o: int)
    requires g.Valid() && Linked(g, Mended(fl, loss), dir) && loss.Unstored? && RealLoss(fl, loss) && o != Loser(fl, loss)
    ensures Intact(g, fl, dir, o)
  {
    hide ErasedFree;
    hide GoodPage;
    var v := Mended(fl, loss);
    forall k | k in dir && ObjectId(k.id) == o
      ensures InPlace(g, fl, dir, k)
    {
      assert KeyAt(v, dir[k]) == k;
      if IsIndexId(k.id) {
        assert forall i :: RefAt(v, dir, k, i) == RefAt(fl, dir, k, i);
      } else {
        assert Referred(g, v, dir, k);
        var x := IndexKey(g, k);
        assert KeyAt(v, dir[x]) == x;
      }
    }
  }

  lemma LoserBroken(g: Geometry, fl: Flash, dir: Dir, loss: Loss)
    requires g.Valid() && Linked(g, Mended(fl, loss), dir) && loss.Unstored? && RealLoss(fl, loss)
    ensures !Intact(g, fl, dir, Loser(fl, loss))
  {
    hide ErasedFree;
    var v, t, o := Mended(fl, loss), loss.t, Loser(fl, loss);
    var x := KeyAt(fl, t);
    assert x == KeyAt(v, t) && x in dir && dir[x] == t;
    assert GoodPage(g, v.lu[t], v.pages[t]);
    if Intact(g, fl, dir, o) {
      assert InPlace(g, fl, dir, x);
      var i :| 0 <= i < |RefsOf(loss.body)| && RefsOf(loss.body)[i] != RefsOf(fl.pages[t].body)[i];
      var r, s := RefsOf(loss.body)[i], RefsOf(fl.pages[t].body)[i];
      assert RefAt(v, dir, x, i) == r && RefAt(fl, dir, x, i) == s;
      if r != NONE {
        RefReferred(g, fl, v, dir, x, i, r);
      } else {
        RefReferred(g, v, fl, dir, x, i, s);
      }
    }
  }

  /** Where a reference leads, the data page is referred to from there alone. */
  lemma RefReferred(g: Geometry, v: Flash, w: Flash, dir: Dir, x: Key, i: int, r: int)
    requires g.Valid() && |v.lu| == |v.pages| && w.lu == v.lu && |w.pages| == |v.pages|
    requires forall s :: 0 <= s < |v.pages| ==> v.pages[s].span == w.pages[s].span
    requires Locates(v, dir) && x in dir && IsIndexId(x.id) && 1 <= ObjectId(x.id) <= MAX_ID
    requires RefLeads(g, w, x, i, r)
    requires Intact(g, v, dir, ObjectId(x.id)) || DataReferred(g, v, dir)
    ensures RefAt(v, dir, x, i) == r
  {
    assert Live(v.lu[r]);
    var k := KeyAt(v, r);
    assert k in dir && dir[k] == r && ObjectId(k.id) == ObjectId(x.id);
    assert IndexKey(g, k) == x;
    if Intact(g, v, dir, ObjectId(x.id)) {
      assert InPlace(g, v, dir, k);
    } else {
      assert Referred(g, v, dir, k);
    }
  }
}
