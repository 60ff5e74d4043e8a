/** The work buffer: one index page of an object is loaded, changed in memory and stored back.
    Consistency is stated of the flash as it would be if the buffer were stored over the page it
    came from. */
module Holding {
  import opened Words
  import opened Layout
  import opened Medium
  import opened Directory
  import opened Store
  import opened Collector
  import opened Files

  /** Index page `k` of object `o`, in slot `t`, is in the work buffer; the medium is consistent
      when the buffer is taken for the page. */
  ghost predicate Held(g: Geometry, fl: Flash, dir: Dir, o: int, k: nat, t: nat, work: Page) {
    && Shaped(g, fl) && t < |fl.lu|
    && fl.lu[t] == IndexId(o) && 1 <= o <= MAX_ID
    && work == fl.pages[t].(body := work.body) && work.span == k
    && Linked(g, Patch(fl, t, work.body), dir)
  }

  /** What the medium means with the buffer in place. */
  function Seen(fl: Flash, dir: Dir, t: nat, work: Page): Image
    requires t < |fl.pages|
  {
    Meaning(Patch(fl, t, work.body), dir)
  }

  /** The checks made on a page reference before the data page is used. */
  function DataCheck(g: Geometry, fl: Flash, pix: int, id: int, span: int): Status {
    if pix == NONE then ERR_INDEX_REF_FREE
    else if pix < 0 || pix >= |fl.pages| then ERR_INDEX_REF_INVALID
    else ValidateData(fl.pages[pix], id, span)
  }

  /** The checks made on an index page before it is written over. */
  function IndexCheck(g: Geometry, fl: Flash, pix: int, id: int, span: int): Status {
    if pix == NONE then ERR_INDEX_FREE
    else if pix < 0 || pix >= |fl.pages| then ERR_INDEX_INVALID
    else ValidateObjIx(fl.pages[pix], id, span)
  }

  /** What is in the buffer is the page of its key. */
  lemma HeldPage(g: Geometry, fl: Flash, dir: Dir, o: int, k: nat, t: nat, work: Page)
    requires Held(g, fl, dir, o, k, t, work)
    ensures var x := Key(IndexId(o), k);
      && x in dir && dir[x] == t && KeyAt(fl, t) == x
      && GoodPage(g, IndexId(o), work)
      && Seen(fl, dir, t, work)[x] == Strip(work.body)
      && RefsAt(Patch(fl, t, work.body), dir, x) == RefsOf(work.body)
      && |RefsOf(work.body)| == IxLen(g, k) && (k == 0 ==> work.body.Header?)
      && IndexCheck(g, fl, t, IndexId(o), k) == OK
  {
    hide RefsLead;
    hide DataReferred;
    assert KeyAt(Patch(fl, t, work.body), t) == Key(IndexId(o), k);
    assert Live(IndexId(o));
  }

  lemma HeldLoad(g: Geometry, fl: Flash, dir: Dir, o: int, k: nat)
    requires Linked(g, fl, dir) && 1 <= o <= MAX_ID && Key(IndexId(o), k) in dir
    ensures 0 <= dir[Key(IndexId(o), k)] < |fl.pages| == |fl.lu|
    ensures var t := dir[Key(IndexId(o), k)];
      && Held(g, fl, dir, o, k, t, fl.pages[t])
      && Seen(fl, dir, t, fl.pages[t]) == Meaning(fl, dir)
  {
    hide RefsLead;
    hide DataReferred;
    var t := dir[Key(IndexId(o), k)];
    assert KeyAt(fl, t) == Key(IndexId(o), k);
    assert Patch(fl, t, fl.pages[t].body) == fl;
  }

  /** Erasing a block without live entries in between changes nothing. */
  lemma QuickKeeps(g: Geometry, v: Flash, w: Flash, dir: Dir)
    requires Linked(g, v, dir) && QuickStep(v, w)
    ensures Shaped(g, w) && Linked(g, w, dir) && Meaning(w, dir) == Meaning(v, dir)
  {
    hide RefsLead;
    hide DataReferred;
    hide GoodPages;
    hide Locates;
    LiveSame(g, v, w, dir);
  }

  lemma HeldQuick(g: Geometry, v: Flash, w: Flash, dir: Dir, o: int, k: nat, t: nat, work: Page)
    requires Held(g, v, dir, o, k, t, work) && QuickStep(v, w)
    ensures Held(g, w, dir, o, k, t, work)
    ensures Seen(w, dir, t, work) == Seen(v, dir, t, work)
    ensures w.pages[t] == v.pages[t]
  {
    hide Linked;
    QuickKeeps(g, Patch(v, t, work.body), Patch(w, t, work.body), dir);
  }

  /** The reference of data page `q`, and that there is none for a page that is not there. */
  lemma HeldRef(g: Geometry, fl: Flash, dir: Dir, o: int, k: nat, t: nat, work: Page, q: nat)
    requires Held(g, fl, dir, o, k, t, work) && IxSpan(g, q) == k
    ensures IxEntry(g, q) < |RefsOf(work.body)| && (work.body.Header? || work.body.Index?)
    ensures Key(o, q) in dir ==> RefsOf(work.body)[IxEntry(g, q)] == dir[Key(o, q)] && 0 <= dir[Key(o, q)] < |fl.lu| && KeyAt(fl, dir[Key(o, q)]) == Key(o, q)
    ensures Key(o, q) !in dir ==> RefsOf(work.body)[IxEntry(g, q)] == NONE
    ensures forall s :: 0 <= s < |fl.lu| && fl.lu[s] == o ==> s != t
  {
    hide GoodPages;
    hide ErasedFree;
    hide DeadMarked;
    HeldPage(g, fl, dir, o, k, t, work);
    var v, x, i := Patch(fl, t, work.body), Key(IndexId(o), k), IxEntry(g, q);
    var r := RefAt(v, dir, x, i);
    if r != NONE {
      assert RefLeads(g, v, x, i, r);
      IxInjective(g, v.pages[r].span, q);
      assert KeyAt(v, r) == Key(o, q) && Live(v.lu[r]);
    }
    if Key(o, q) in dir {
      assert Referred(g, v, dir, Key(o, q));
      assert KeyAt(v, dir[Key(o, q)]) == Key(o, q);
    }
  }

  /** A data page under the index page in the buffer, as it stands on flash. */
  lemma HeldData(g: Geometry, fl: Flash, dir: Dir, o: int, k: nat, t: nat, work: Page, q: nat)
    requires Held(g, fl, dir, o, k, t, work) && Key(o, q) in dir
    ensures 0 <= dir[Key(o, q)] < |fl.pages| && dir[Key(o, q)] != t
    ensures fl.lu[dir[Key(o, q)]] == o && GoodPage(g, o, fl.pages[dir[Key(o, q)]]) && fl.pages[dir[Key(o, q)]].span == q
    ensures Seen(fl, dir, t, work)[Key(o, q)] == fl.pages[dir[Key(o, q)]].body
    ensures DataCheck(g, fl, dir[Key(o, q)], o, q) == OK
  {
    hide RefsLead;
    hide DataReferred;
    var v := Patch(fl, t, work.body);
    assert KeyAt(v, dir[Key(o, q)]) == Key(o, q);
  }

  lemma AddChanges(fl: Flash, t: int, body: Body, f: int, id: int, page: Page, i: int)
    requires |fl.lu| == |fl.pages| && 0 <= t < |fl.lu| && 0 <= f < |fl.lu| && f != t
    requires Live(id) && fl.lu[f] == FREE && (body.Header? || body.Index?) && 0 <= i < |body.refs|
    ensures Changed(Patch(fl, t, body), Patch(Placed(fl, f, id, page), t, PutRef(body, i, f)), f, Key(id, page.span), NONE, t, i)
  {
  }

  /** Setting an empty reference only fills an erased word. */
  lemma RefExtends(was: Body, body: Body, i: nat, f: int)
    requires Extends(was, body) && i < |RefsOf(body)| && RefsOf(body)[i] == NONE
    ensures Extends(was, PutRef(body, i, f))
  {
  }

  /** A new data page and its reference. */
  lemma HeldAdd(g: Geometry, fl: Flash, dir: Dir, o: int, k: nat, t: nat, work: Page, f: nat, q: nat, bytes: seq<int>)
    requires Held(g, fl, dir, o, k, t, work) && IxSpan(g, q) == k
    requires f < |fl.lu| && fl.lu[f] == FREE && Key(o, q) !in dir && |bytes| == g.dps
    ensures
      var w := Placed(fl, f, o, Page(o, q, DATA_FLAGS, Data(bytes)));
      var work' := work.(body := PutRef(work.body, IxEntry(g, q), f));
      && Held(g, w, dir[Key(o, q) := f], o, k, t, work')
      && Seen(w, dir[Key(o, q) := f], t, work') == Seen(fl, dir, t, work)[Key(o, q) := Data(bytes)]
      && (Extends(fl.pages[t].body, work.body) ==> Extends(w.pages[t].body, work'.body))
  {
    hide Linked;
    var i, x := IxEntry(g, q), Key(o, q);
    HeldPage(g, fl, dir, o, k, t, work);
    HeldRef(g, fl, dir, o, k, t, work, q);
    var page := Page(o, q, DATA_FLAGS, Data(bytes));
    var v, w := Patch(fl, t, work.body), Patch(Placed(fl, f, o, page), t, PutRef(work.body, i, f));
    assert f != t;
    AddChanges(fl, t, work.body, f, o, page, i);
    if Extends(fl.pages[t].body, work.body) {
      RefExtends(fl.pages[t].body, work.body, i, f);
    }
    PutData(g, v, w, dir, f, x, NONE, t, i);
  }

  /** A data page is replaced: the new one has its reference, the old one is gone. */
  lemma HeldReplace(g: Geometry, fl: Flash, dir: Dir, o: int, k: nat, t: nat, work: Page, s: nat, f: nat, q: nat, bytes: seq<int>)
    requires Held(g, fl, dir, o, k, t, work) && IxSpan(g, q) == k
    requires f < |fl.lu| && fl.lu[f] == FREE && Key(o, q) in dir && dir[Key(o, q)] == s && |bytes| == g.dps
    ensures s < |fl.lu| == |fl.pages|
    ensures
      var w := Moved(fl, s, f, o, Page(o, q, DATA_FLAGS, Data(bytes)));
      var work' := work.(body := PutRef(work.body, IxEntry(g, q), f));
      && Held(g, w, dir[Key(o, q) := f], o, k, t, work')
      && Seen(w, dir[Key(o, q) := f], t, work') == Seen(fl, dir, t, work)[Key(o, q) := Data(bytes)]
  {
    hide Linked;
    var i, x := IxEntry(g, q), Key(o, q);
    HeldPage(g, fl, dir, o, k, t, work);
    HeldRef(g, fl, dir, o, k, t, work, q);
    var page := Page(o, q, DATA_FLAGS, Data(bytes));
    assert f != t;
    MoveChanges(fl, t, work.body, s, f, page, i);
    var v, w := Patch(fl, t, work.body), Patch(Moved(fl, s, f, o, page), t, PutRef(work.body, i, f));
    PutData(g, v, w, dir, f, x, s, t, i);
  }

  /** A data page gets other bytes in place. */
  lemma HeldRewrite(g: Geometry, fl: Flash, dir: Dir, o: int, k: nat, t: nat, work: Page, s: nat, q: nat, bytes: seq<int>)
    requires Held(g, fl, dir, o, k, t, work) && IxSpan(g, q) == k
    requires Key(o, q) in dir && dir[Key(o, q)] == s && |bytes| == g.dps
    ensures s < |fl.pages| && s != t
    ensures
      var w := Patch(fl, s, Data(bytes));
      && Held(g, w, dir, o, k, t, work)
      && Seen(w, dir, t, work) == Seen(fl, dir, t, work)[Key(o, q) := Data(bytes)]
  {
    HeldRef(g, fl, dir, o, k, t, work, q);
    var v, w := Patch(fl, t, work.body), Patch(Patch(fl, s, Data(bytes)), t, work.body);
    assert v.lu[s] == o && Live(o);
    assert GoodPage(g, o, v.pages[s]) by {
      hide RefsLead;
      hide DataReferred;
      hide Locates;
    }
    assert RefsOf(v.pages[s].body) == RefsOf(w.pages[s].body) == [];
    Rewrite(g, v, w, dir, s);
  }

  /** The length in the header changes in the buffer. */
  lemma HeldSize(g: Geometry, fl: Flash, dir: Dir, o: int, t: nat, work: Page, size: int)
    requires Held(g, fl, dir, o, 0, t, work)
    ensures work.body.Header?
    ensures
      var x, m, work' := Key(IndexId(o), 0), Seen(fl, dir, t, work), work.(body := work.body.(size := size));
      && x in m && m[x].Header?
      && Held(g, fl, dir, o, 0, t, work')
      && Seen(fl, dir, t, work') == m[x := m[x].(size := size)]
      && (Extends(fl.pages[t].body, work.body) && HeaderSize(fl.pages[t]) == -1 ==> Extends(fl.pages[t].body, work'.body))
  {
    HeldPage(g, fl, dir, o, 0, t, work);
    var work' := work.(body := work.body.(size := size));
    Rewrite(g, Patch(fl, t, work.body), Patch(fl, t, work'.body), dir, t);
  }

  /** The page an index page allocation leaves, and what the buffer is set to with it. */
  function FreshIndex(g: Geometry, o: int, k: nat): Page {
    Page(IndexId(o), k, INDEX_FLAGS, Index(Ones(g.ixLen)))
  }

  /** A new index page, laid out only in the buffer. */
  lemma HeldNew(g: Geometry, fl: Flash, dir: Dir, o: int, k: nat, f: nat)
    requires Linked(g, fl, dir) && 1 <= o <= MAX_ID && k > 0
    requires f < |fl.lu| && fl.lu[f] == FREE && Key(IndexId(o), k) !in dir && Key(IndexId(o), 0) in dir
    ensures
      var w, d := Placed(fl, f, IndexId(o), FreshIndex(g, o, k).(body := Blank)), dir[Key(IndexId(o), k) := f];
      && Held(g, w, d, o, k, f, FreshIndex(g, o, k))
      && Seen(w, d, f, FreshIndex(g, o, k)) == Meaning(fl, dir)[Key(IndexId(o), k) := Index([])]
  {
    var x, page := Key(IndexId(o), k), FreshIndex(g, o, k);
    var w := Patch(Placed(fl, f, IndexId(o), page.(body := Blank)), f, page.body);
    assert Changed(fl, w, f, x, NONE, NONE, 0);
    PutIndex(g, fl, w, dir, f, x, NONE);
  }

  /** The header page goes to a new slot, with its name or its length changed where one is given. */
  lemma HeldHeader(g: Geometry, v: Flash, mid: Flash, dir: Dir, o: int, t: nat, work: Page, dst: nat, name: Option<seq<int>>, size: int)
    requires Held(g, v, dir, o, 0, t, work) && QuickStep(v, mid)
    requires dst < |mid.lu| && mid.lu[dst] == FREE && (name.Some? ==> |name.value| == g.nameLen)
    ensures t < |mid.lu| == |mid.pages| && mid.lu[t] == IndexId(o)
    ensures
      var page, x, m, d := EditHeader(work, name, size), Key(IndexId(o), 0), Seen(v, dir, t, work), dir[Key(IndexId(o), 0) := dst];
      var w := Moved(mid, t, dst, IndexId(o), page.(flags := AsUsed(page.flags)));
      && page.span == 0 && page.body.Header? && x in dir && dir[x] == t && x in m && m[x].Header? && m[x] == Strip(work.body)
      && HeaderSize(page) == (if size != 0 then size else m[x].size)
      && Linked(g, w, d)
      && Meaning(w, d) == m[x := Header(HeaderSize(page), if name.Some? then name.value else m[x].name, [])]
  {
    hide Linked;
    hide QuickStep;
    HeldPage(g, v, dir, o, 0, t, work);
    HeldQuick(g, v, mid, dir, o, 0, t, work);
    var page := EditHeader(work, name, size);
    assert page.(flags := AsUsed(page.flags)) == page;
    assert Live(IndexId(o)) && IsIndexId(IndexId(o));
    IndexMoveStep(g, mid, dir, t, work.body, dst, page);
  }

  /** Any index page goes to a new slot as the buffer has it. */
  lemma HeldMove(g: Geometry, v: Flash, mid: Flash, dir: Dir, o: int, k: nat, t: nat, work: Page, dst: nat)
    requires Held(g, v, dir, o, k, t, work) && QuickStep(v, mid)
    requires dst < |mid.lu| && mid.lu[dst] == FREE
    ensures t < |mid.lu| == |mid.pages| && mid.lu[t] == IndexId(o)
    ensures
      var d, w := dir[Key(IndexId(o), k) := dst], Moved(mid, t, dst, IndexId(o), work.(flags := AsUsed(work.flags)));
      && Linked(g, w, d)
      && Meaning(w, d) == Seen(v, dir, t, work)
  {
    hide Linked;
    hide QuickStep;
    hide Strip;
    HeldPage(g, v, dir, o, k, t, work);
    HeldQuick(g, v, mid, dir, o, k, t, work);
    assert work.(flags := AsUsed(work.flags)) == work;
    assert Live(IndexId(o)) && IsIndexId(IndexId(o));
    IndexMoveStep(g, mid, dir, t, work.body, dst, work);
    var m, x := Seen(v, dir, t, work), Key(IndexId(o), k);
    assert m[x := Strip(work.body)] == m;
  }

  /** The buffer is programmed over the page it came from, which it only extends: the flash then
      is what the model took it for. */
  lemma HeldStore(g: Geometry, fl: Flash, dir: Dir, o: int, k: nat, t: nat, work: Page)
    requires Held(g, fl, dir, o, k, t, work) && Extends(fl.pages[t].body, work.body)
    ensures
      var w := Apply(g, fl, PageWrite(t, work));
      && w == Patch(fl, t, work.body) && Linked(g, w, dir) && Meaning(w, dir) == Seen(fl, dir, t, work)
  {
    hide Linked;
    ProgramExact(fl.pages[t], work);
  }

  // Which pages of an object are still where they were.

  /** Where the pages of object `o` are. */
  ghost function OwnSlots(dir: Dir, o: int): set<int> {
    set k | k in dir && ObjectId(k.id) == o :: dir[k]
  }

  ghost function OwnKeys(dir: Dir, o: int): set<Key> {
    set k | k in dir && ObjectId(k.id) == o
  }

  lemma {:induction false} OwnPlaces(dir: Dir, keys: set<Key>)
    requires keys <= dir.Keys
    ensures |set k | k in keys :: dir[k]| <= |keys|
  {
    if keys != {} {
      var x :| x in keys;
      OwnPlaces(dir, keys - {x});
      assert (set k | k in keys :: dir[k]) == (set k | k in keys - {x} :: dir[k]) + {dir[x]};
    }
  }

  /** An object has no more places than pages. */
  lemma OwnFew(dir0: Dir, dir: Dir, o: int)
    requires dir.Keys == dir0.Keys
    ensures |OwnSlots(dir, o)| <= |OwnKeys(dir0, o)|
  {
    var keys := OwnKeys(dir0, o);
    assert OwnSlots(dir, o) == set k | k in keys :: dir[k];
    OwnPlaces(dir, keys);
  }

  /** The data pages of object `o` from `s` on and its index pages from `k` on are where they were in
      `base`. */
  ghost predicate Ahead(base: Dir, dir: Dir, o: int, s: int, k: int) {
    && (forall q {:trigger Key(o, q)} :: s <= q && Key(o, q) in dir ==> Key(o, q) in base && base[Key(o, q)] == dir[Key(o, q)])
    && (forall j {:trigger Key(IndexId(o), j)} :: k <= j && Key(IndexId(o), j) in dir ==> Key(IndexId(o), j) in base && base[Key(IndexId(o), j)] == dir[Key(IndexId(o), j)])
  }

  lemma AheadOwn(base: Dir, dir: Dir, o: int, s: int, k: int)
    requires Ahead(base, dir, o, s, k) && 1 <= o <= MAX_ID
    ensures Key(o, s) in dir ==> dir[Key(o, s)] in OwnSlots(base, o)
    ensures Key(IndexId(o), k) in dir ==> dir[Key(IndexId(o), k)] in OwnSlots(base, o)
    ensures forall f: int {:trigger dir[Key(o, s) := f]} :: Ahead(base, dir[Key(o, s) := f], o, s + 1, k)
    ensures forall f: int {:trigger dir[Key(IndexId(o), k) := f]} :: Ahead(base, dir[Key(IndexId(o), k) := f], o, s, k + 1)
  {
  }

  lemma AheadOn(base: Dir, dir: Dir, o: int, s: int, k: int, s': int, k': int)
    requires Ahead(base, dir, o, s, k) && s <= s' && k <= k'
    ensures Ahead(base, dir, o, s', k')
  {
  }

  /** A page still where it was, and one that goes away. */
  lemma AheadAt(base: Dir, dir: Dir, o: int, s: int, k: int, x: Key)
    requires Ahead(base, dir, o, s, k) && 1 <= o <= MAX_ID && ((x.id == o && x.span >= s) || (x.id == IndexId(o) && x.span >= k))
    ensures x in dir ==> dir[x] in OwnSlots(base, o)
    ensures Ahead(base, Without(dir, x), o, s, k)
  {
  }

  lemma AheadAll(dir: Dir, o: int)
    ensures Ahead(dir, dir, o, 0, 1)
  {
  }

  /** The header of the object may be anywhere. */
  lemma AheadHeader(base: Dir, dir: Dir, o: int, f: int)
    requires Ahead(base, dir, o, 0, 1) && 1 <= o <= MAX_ID
    ensures Ahead(base, dir[Key(IndexId(o), 0) := f], o, 0, 1)
  {
  }
}
