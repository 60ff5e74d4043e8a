/** Small media, drawn slot by slot: one file, and empty ones beside it. */
module Media {
  import opened Words
  import opened Layout
  import opened Medium
  import opened Directory
  import opened Tally
  import opened Store
  import opened Collector
  import opened Files
  import opened FileSystem
  import opened Api
  import opened Appending
  import opened Plans
  import opened Removal
  import Mount

  /** What a slot holds: nothing, an index page or a data page of the file, or the header of an empty
      file. */
  datatype Slot = Vacant | IndexOf(span: nat) | DataOf(span: nat) | Other

  /** The slots, where the file's index pages and data pages are among them, and the erase counts. */
  datatype Plot = Plot(slots: seq<Slot>, ix: seq<nat>, data: seq<nat>, counts: seq<int>)

  /** Each index page refers to one data page, and names have one letter. */
  predicate Plain(g: Geometry) {
    g.Valid() && g.hdrLen == 1 && g.ixLen == 1 && g.nameLen == 2
  }

  ghost predicate Plotted(g: Geometry, p: Plot) {
    && Plain(g) && |p.slots| == g.Total() <= MAX_ID - 2 && |p.counts| == g.blocks
    && |p.ix| == (if |p.data| == 0 then 1 else |p.data|)
    && (forall i :: 0 <= i < |p.ix| ==> p.ix[i] < |p.slots| && p.slots[p.ix[i]] == IndexOf(i))
    && (forall i :: 0 <= i < |p.data| ==> p.data[i] < |p.slots| && p.slots[p.data[i]] == DataOf(i))
    && (forall s :: 0 <= s < |p.slots| && p.slots[s].IndexOf? ==> p.slots[s].span < |p.ix| && p.ix[p.slots[s].span] == s)
    && (forall s :: 0 <= s < |p.slots| && p.slots[s].DataOf? ==> p.slots[s].span < |p.data| && p.data[p.slots[s].span] == s)
  }

  function EntryOf(slot: Slot, s: nat): int {
    match slot
    case Vacant => FREE
    case IndexOf(_) => IndexId(1)
    case DataOf(_) => 1
    case Other => IndexId(s + 2)
  }

  /** The length word of the file. */
  function SizeWord(g: Geometry, p: Plot): int {
    if |p.data| == 0 then NONE else |p.data| * g.dps
  }

  function PageOf(g: Geometry, p: Plot, slot: Slot, s: nat): Page {
    match slot
    case Vacant => ERASED
    case IndexOf(i) =>
      var refs := [if i < |p.data| then p.data[i] else NONE];
      Page(IndexId(1), i, INDEX_FLAGS, if i == 0 then Header(SizeWord(g, p), [1, 0], refs) else Index(refs))
    case DataOf(i) => Page(1, i, DATA_FLAGS, Data(seq(g.dps, _ => 0)))
    case Other => Page(IndexId(s + 2), 0, INDEX_FLAGS, Header(NONE, [s + 2, 0], [NONE]))
  }

  /** The medium: the file has id 1, and every empty file an id of its own. */
  function Drawn(g: Geometry, p: Plot): (fl: Flash)
    ensures |fl.lu| == |fl.pages| == |p.slots|
    ensures forall s {:trigger fl.lu[s]} :: 0 <= s < |p.slots| ==> fl.lu[s] == EntryOf(p.slots[s], s)
    ensures forall s {:trigger fl.pages[s]} :: 0 <= s < |p.slots| ==> fl.pages[s] == PageOf(g, p, p.slots[s], s)
  {
    Flash(
      seq(|p.slots|, s requires 0 <= s < |p.slots| => EntryOf(p.slots[s], s)),
      seq(|p.slots|, s requires 0 <= s < |p.slots| => PageOf(g, p, p.slots[s], s)),
      p.counts)
  }

  ghost function KeyOf(slot: Slot, s: int): Key {
    match slot
    case Vacant => Key(FREE, -1)
    case IndexOf(i) => Key(IndexId(1), i)
    case DataOf(i) => Key(1, i)
    case Other => Key(IndexId(s + 2), 0)
  }

  ghost function Places(g: Geometry, p: Plot): (d: Dir)
    requires Plotted(g, p)
    ensures forall s :: 0 <= s < |p.slots| && p.slots[s] != Vacant ==> KeyOf(p.slots[s], s) in d && d[KeyOf(p.slots[s], s)] == s
    ensures forall k :: k in d ==> 0 <= d[k] < |p.slots| && p.slots[d[k]] != Vacant && k == KeyOf(p.slots[d[k]], d[k])
  {
    map s | 0 <= s < |p.slots| && p.slots[s] != Vacant :: KeyOf(p.slots[s], s) := s
  }

  lemma DrawnPages(g: Geometry, p: Plot)
    requires Plotted(g, p)
    ensures var fl := Drawn(g, p);
      Shaped(g, fl) && AllWords(fl.lu) && ErasedFree(fl) && DeadMarked(fl) && GoodPages(g, fl)
  {
    hide Geometry.Total;
    var fl := Drawn(g, p);
    forall s | 0 <= s < |fl.lu|
      ensures IsWord(fl.lu[s]) && fl.lu[s] != DELETED && (fl.lu[s] == FREE ==> fl.pages[s] == ERASED)
      ensures Live(fl.lu[s]) ==> GoodPage(g, fl.lu[s], fl.pages[s])
    {
      SlotGood(g, p, p.slots[s], s);
    }
  }

  lemma SlotGood(g: Geometry, p: Plot, slot: Slot, s: nat)
    requires Plain(g) && s < MAX_ID - 2
    ensures var e := EntryOf(slot, s);
      && IsWord(e) && e != DELETED && (e == FREE <==> slot == Vacant) && (slot == Vacant ==> PageOf(g, p, slot, s) == ERASED)
      && (slot != Vacant ==> GoodPage(g, e, PageOf(g, p, slot, s)) && KeyOf(slot, s) == Key(e, PageOf(g, p, slot, s).span))
  {
  }

  lemma DrawnPlaces(g: Geometry, p: Plot)
    requires Plotted(g, p)
    ensures Locates(Drawn(g, p), Places(g, p))
  {
    hide Geometry.Total;
    hide PageOf;
    hide EntryOf;
    hide KeyOf;
    hide GoodPage;
    var fl, d := Drawn(g, p), Places(g, p);
    forall s | 0 <= s < |fl.lu|
      ensures fl.lu[s] == FREE <==> p.slots[s] == Vacant
      ensures fl.lu[s] != DELETED && (Live(fl.lu[s]) ==> KeyAt(fl, s) == KeyOf(p.slots[s], s))
    {
      SlotGood(g, p, p.slots[s], s);
    }
  }

  /** With one reference in each index page, data page `a` is under index page `a`. */
  lemma SpanOne(g: Geometry, a: nat)
    requires Plain(g)
    ensures IxSpan(g, a) == a && IxEntry(g, a) == 0
  {
    if a > 0 {
      QuotOne(a - 1);
    }
  }

  lemma {:induction false} QuotOne(a: nat)
    ensures Quot(a, 1) == a
  {
    if a > 0 {
      QuotOne(a - 1);
    }
  }

  lemma DrawnLeads(g: Geometry, p: Plot)
    requires Plotted(g, p)
    ensures RefsLead(g, Drawn(g, p), Places(g, p))
  {
    hide Geometry.Total;
    hide IxSpan;
    hide IxEntry;
    var fl, d := Drawn(g, p), Places(g, p);
    forall k, i | k in d && IsIndexId(k.id) && RefAt(fl, d, k, i) != NONE
      ensures RefLeads(g, fl, k, i, RefAt(fl, d, k, i))
    {
      var slot := p.slots[d[k]];
      assert i == 0 && slot.IndexOf? && slot.span < |p.data|;
      SpanOne(g, slot.span);
    }
  }

  lemma DrawnReferred(g: Geometry, p: Plot)
    requires Plotted(g, p)
    ensures DataReferred(g, Drawn(g, p), Places(g, p)) && Headed(Places(g, p))
  {
    hide Geometry.Total;
    hide IxSpan;
    hide IxEntry;
    var fl, d := Drawn(g, p), Places(g, p);
    forall k | k in d && !IsIndexId(k.id)
      ensures Referred(g, fl, d, k)
    {
      var slot := p.slots[d[k]];
      assert slot.DataOf?;
      SpanOne(g, slot.span);
      var s := p.ix[slot.span];
      assert KeyOf(p.slots[s], s) == IndexKey(g, k);
      assert RefsAt(fl, d, IndexKey(g, k)) == [p.data[slot.span]];
    }
    forall k | k in d && IsIndexId(k.id)
      ensures Key(k.id, 0) in d
    {
      assert KeyOf(p.slots[p.ix[0]], p.ix[0]) == Key(IndexId(1), 0);
    }
  }

  lemma DrawnLinked(g: Geometry, p: Plot)
    requires Plotted(g, p)
    ensures Linked(g, Drawn(g, p), Places(g, p))
  {
    hide RefsLead;
    hide DataReferred;
    hide Headed;
    hide GoodPages;
    hide Locates;
    hide ErasedFree;
    hide Plotted;
    DrawnPages(g, p);
    DrawnPlaces(g, p);
    DrawnLeads(g, p);
    DrawnReferred(g, p);
  }

  /** What the pages mean. */
  lemma DrawnMeaning(g: Geometry, p: Plot)
    requires Plotted(g, p)
    ensures var m, d := Meaning(Drawn(g, p), Places(g, p)), Places(g, p);
      && m.Keys == d.Keys
      && (forall k :: k in m ==> m[k] == Strip(PageOf(g, p, p.slots[d[k]], d[k]).body))
  {
    hide Geometry.Total;
  }

  lemma FileData(g: Geometry, p: Plot)
    requires Plotted(g, p)
    ensures DataPages(g, Meaning(Drawn(g, p), Places(g, p)), 1, |p.data|)
    ensures var m := Meaning(Drawn(g, p), Places(g, p));
      forall i: nat {:trigger Key(1, i)} :: i < |p.data| ==> Key(1, i) in m && m[Key(1, i)] == Data(seq(g.dps, _ => 0))
  {
    hide Geometry.Total;
    var m := Meaning(Drawn(g, p), Places(g, p));
    DrawnMeaning(g, p);
    forall i: nat | i < |p.data|
      ensures Key(1, i) in m && m[Key(1, i)] == Data(seq(g.dps, _ => 0))
    {
      assert KeyOf(p.slots[p.data[i]], p.data[i]) == Key(1, i);
    }
    forall j | Key(1, j) in m
      ensures 0 <= j < |p.data|
    {
      assert p.slots[Places(g, p)[Key(1, j)]] == DataOf(j);
    }
  }

  lemma FileIndex(g: Geometry, p: Plot)
    requires Plotted(g, p)
    ensures var m := Meaning(Drawn(g, p), Places(g, p));
      IndexPages(m, 1, |p.ix| - 1) && Key(IndexId(1), 0) in m && m[Key(IndexId(1), 0)] == Header(SizeWord(g, p), [1, 0], [])
  {
    hide Geometry.Total;
    var m := Meaning(Drawn(g, p), Places(g, p));
    DrawnMeaning(g, p);
    forall i: nat | i < |p.ix|
      ensures Key(IndexId(1), i) in m
    {
      assert KeyOf(p.slots[p.ix[i]], p.ix[i]) == Key(IndexId(1), i);
    }
    forall j | Key(IndexId(1), j) in m
      ensures 0 <= j < |p.ix|
    {
      assert p.slots[Places(g, p)[Key(IndexId(1), j)]] == IndexOf(j);
    }
  }

  lemma DrawnFile(g: Geometry, p: Plot)
    requires Plotted(g, p)
    ensures |p.data| * g.dps >= 0 && IsFile(g, Meaning(Drawn(g, p), Places(g, p)), 1, |p.data| * g.dps)
  {
    hide Geometry.Total;
    hide Quot;
    hide Rem;
    hide PageCount;
    hide TopIx;
    hide DataPages;
    hide Drawn;
    hide Meaning;
    hide IxSpan;
    var c := |p.data|;
    FileData(g, p);
    FileIndex(g, p);
    PageStart(g, c);
    if c > 0 {
      SpanOne(g, c - 1);
    }
  }

  lemma DrawnOther(g: Geometry, p: Plot, s: nat)
    requires Plotted(g, p) && s < |p.slots| && p.slots[s] == Other
    ensures var m := Meaning(Drawn(g, p), Places(g, p));
      && IsFile(g, m, s + 2, 0) && Key(IndexId(s + 2), 0) in m && m[Key(IndexId(s + 2), 0)] == Header(NONE, [s + 2, 0], [])
  {
    hide Geometry.Total;
    var m := Meaning(Drawn(g, p), Places(g, p));
    DrawnMeaning(g, p);
    assert KeyOf(p.slots[s], s) == Key(IndexId(s + 2), 0);
    assert DataPages(g, m, s + 2, 0);
    assert IndexPages(m, s + 2, 0);
  }

  /** Which objects there are. */
  lemma DrawnIds(g: Geometry, p: Plot, o: int)
    requires Plotted(g, p) && o in Ids(Meaning(Drawn(g, p), Places(g, p)))
    ensures o == 1 || (2 <= o < |p.slots| + 2 && p.slots[o - 2] == Other)
  {
    hide Geometry.Total;
    hide PageOf;
    hide EntryOf;
    hide Drawn;
    hide Meaning;
    hide Places;
    hide Plain;
    var m := Meaning(Drawn(g, p), Places(g, p));
    var k :| k in m && IsIndexId(k.id) && k.span == 0 && ObjectId(k.id) == o;
    var s := Places(g, p)[k];
    assert k == KeyOf(p.slots[s], s);
  }

  /** The name is the one letter that is the id. */
  lemma DrawnNamed(g: Geometry, p: Plot, o: int)
    requires Plotted(g, p) && o in Ids(Meaning(Drawn(g, p), Places(g, p)))
    ensures var m, x := Meaning(Drawn(g, p), Places(g, p)), Key(IndexId(o), 0);
      && 1 <= o <= MAX_ID && x in m && m[x].Header? && IsFile(g, m, o, Length(m[x].size)) && FileOf(g, m, o).name == [o]
      && (o != 1 ==> m[x].size == NONE)
  {
    hide IsFile;
    hide Meaning;
    DrawnIds(g, p, o);
    StrUnique([o, 0], [o]);
    if o == 1 {
      DrawnFile(g, p);
      FileIndex(g, p);
    } else {
      DrawnOther(g, p, o - 2);
    }
  }

  lemma PlotPlain(g: Geometry, p: Plot)
    requires Plotted(g, p)
    ensures Plain(g)
  {
  }

  lemma DrawnFiles(g: Geometry, p: Plot)
    requires Plotted(g, p)
    ensures var m := Meaning(Drawn(g, p), Places(g, p)); AllFiles(g, m) && NamesDiffer(Disk(g, m))
  {
    hide Plotted;
    hide IsFile;
    hide Meaning;
    hide FileOf;
    PlotPlain(g, p);
    var m := Meaning(Drawn(g, p), Places(g, p));
    forall o | o in Ids(m)
      ensures 1 <= o <= MAX_ID && Key(IndexId(o), 0) in m && m[Key(IndexId(o), 0)].Header? && IsFile(g, m, o, Length(m[Key(IndexId(o), 0)].size))
      ensures FileOf(g, m, o).name == [o]
    {
      DrawnNamed(g, p, o);
    }
  }

  /** The content of the file. */
  lemma DrawnBytes(g: Geometry, p: Plot)
    requires Plotted(g, p)
    ensures var m, len := Meaning(Drawn(g, p), Places(g, p)), |p.data| * g.dps;
      && 1 in Ids(m) && FileOf(g, m, 1).name == [1]
      && len >= 0 && FileOf(g, m, 1) == File([1], seq(len, _ => 0))
  {
    hide Plotted;
    hide IsFile;
    hide Meaning;
    hide Quot;
    hide Rem;
    hide Ids;
    hide DataPages;
    hide IndexPages;
    PlotPlain(g, p);
    var m, c := Meaning(Drawn(g, p), Places(g, p)), |p.data|;
    FileIndex(g, p);
    HeadOf(m);
    DrawnNamed(g, p, 1);
    FileData(g, p);
    PageStart(g, c);
    forall q: nat | q < c * g.dps
      ensures ByteAt(g, m, 1, q) == 0
    {
      QuotRem(q, g.dps);
      Product(c, Quot(q, g.dps), g.dps);
    }
    assert Contents(g, m, 1, c * g.dps) == seq(c * g.dps, _ => 0);
  }

  lemma HeadOf(m: Image)
    ensures Key(IndexId(1), 0) in m ==> 1 in Ids(m)
  {
    InIds(m, 1);
  }

  /** The medium can be mounted. */
  lemma DrawnSound(g: Geometry, p: Plot)
    requires Plotted(g, p)
    ensures |p.ix| > 0 && p.ix[0] < |p.slots| && |p.data| * g.dps >= 0
    ensures var fl, d, x := Drawn(g, p), Places(g, p), Key(IndexId(1), 0);
      && Shaped(g, fl) && AllWords(fl.lu) && ErasedFree(fl) && DeadMarked(fl)
      && Linked(g, fl, d) && AllFiles(g, Meaning(fl, d)) && NamesDiffer(Disk(g, Meaning(fl, d)))
      && fl.lu[p.ix[0]] == IndexId(1) && x in d && d[x] == p.ix[0]
      && IsFile(g, Meaning(fl, d), 1, |p.data| * g.dps) && FileOf(g, Meaning(fl, d), 1) == File([1], seq(|p.data| * g.dps, _ => 0))
  {
    hide AllWords;
    hide ErasedFree;
    hide DeadMarked;
    hide GoodPages;
    hide Linked;
    hide AllFiles;
    hide NamesDiffer;
    hide Disk;
    hide Meaning;
    hide IsFile;
    hide FileOf;
    hide Ids;
    DrawnPages(g, p);
    DrawnLinked(g, p);
    DrawnFiles(g, p);
    DrawnFile(g, p);
    DrawnBytes(g, p);
    assert KeyOf(p.slots[p.ix[0]], p.ix[0]) == Key(IndexId(1), 0);
  }

  lemma OneLength(g: Geometry, m: Image, o: int, a: nat, b: nat)
    requires g.Valid() && IsFile(g, m, o, a) && IsFile(g, m, o, b)
    ensures a == b
  {
    hide Extent;
  }

  /** Mounts a medium and opens the file whose header is in slot `pix`. */
  method Opened(g: Geometry, flash: Flash, pix: nat, ghost o: int, ghost len: nat, ghost dir: Dir) returns (fs: Spiffs)
    requires Shaped(g, flash) && AllWords(flash.lu) && ErasedFree(flash) && DeadMarked(flash) && FreeSuffix(g, flash.lu)
    requires Linked(g, flash, dir) && AllFiles(g, Meaning(flash, dir)) && NamesDiffer(Disk(g, Meaning(flash, dir)))
    requires pix < |flash.lu| && 1 <= o <= MAX_ID && flash.lu[pix] == IndexId(o) && Key(IndexId(o), 0) in dir && dir[Key(IndexId(o), 0)] == pix
    requires IsFile(g, Meaning(flash, dir), o, len)
    ensures fresh(fs) && fs.Valid() && !fs.cleaning && fs.Drift() == 0 && fs.g == g && fs.flash == flash
    ensures Sound(g, flash, dir, fs.fds) && |fs.fds| == 1 && fs.fds[0].score != 0
    ensures OpenFile(g, Meaning(flash, dir), fs.fds, 0) && Owner(dir, fs.fds, 0, o) && Length(fs.fds[0].size) == len
    ensures fs.freeCursorBlock == 0 && fs.freeCursorEntry == 0
    ensures forall most: int :: 0 < most < IX_FLAG && most in flash.counts && (forall b :: 0 <= b < |flash.counts| ==> 0 <= flash.counts[b] <= most) ==> fs.maxEraseCount == most + 1
  {
    hide FreeSuffix;
    hide CursorOk;
    hide All;
    hide FreeBlocks;
    hide AllWords;
    hide ErasedFree;
    hide DeadMarked;
    hide Linked;
    hide AllFiles;
    hide NamesDiffer;
    hide Disk;
    hide FdsOk;
    hide Meaning;
    hide IsFile;
    fs := Mount.Mount(g, flash, 1, dir);
    var res := OpenByPage(fs, 0, pix, HIT_SCORE, dir);
    OneLength(g, Meaning(flash, dir), o, Length(fs.fds[0].size), len);
  }
}
