/** Names and ids: finding a file by name, and finding an id no object has. */
module Names {
  import opened Words
  import opened Layout
  import opened Medium
  import opened Directory
  import opened Tally
  import opened Store
  import opened Collector
  import opened Files
  import opened FileSystem

  /** The entry of a finalized header page that is not being deleted and has the name. */
  predicate NamedHeader(fl: Flash, path: seq<int>, s: nat) {
    && s < |fl.lu| && s < |fl.pages|
    && Live(fl.lu[s]) && IsIndexId(fl.lu[s])
    && fl.pages[s].span == 0
    && fl.pages[s].flags.delet && !fl.pages[s].flags.final && fl.pages[s].flags.ixdele
    && fl.pages[s].body.Header? && CStr(fl.pages[s].body.name) == path
  }

  /** On a consistent medium an entry of that name is the header of a file of that name. */
  lemma HeaderIsNamed(g: Geometry, fl: Flash, dir: Dir, path: seq<int>, s: nat)
    requires Linked(g, fl, dir) && NamedHeader(fl, path, s)
    ensures var o := ObjectId(fl.lu[s]);
      && o in Ids(Meaning(fl, dir)) && FileOf(g, Meaning(fl, dir), o).name == path && 1 <= o <= MAX_ID
      && fl.lu[s] == IndexId(o) && Key(fl.lu[s], 0) in dir && dir[Key(fl.lu[s], 0)] == s
  {
    hide RefsLead;
    hide DataReferred;
    hide Contents;
    hide CStr;
    assert KeyAt(fl, s) == Key(fl.lu[s], 0) && GoodPage(g, fl.lu[s], fl.pages[s]);
    assert Key(fl.lu[s], 0) in Meaning(fl, dir);
    InIds(Meaning(fl, dir), ObjectId(fl.lu[s]));
  }

  /** And a file of that name has such an entry. */
  lemma NameHasHeader(g: Geometry, fl: Flash, dir: Dir, o: int)
    requires Linked(g, fl, dir) && AllFiles(g, Meaning(fl, dir)) && o in Ids(Meaning(fl, dir))
    ensures 1 <= o <= MAX_ID
    ensures var x := Key(IndexId(o), 0); x in dir && 0 <= dir[x] && NamedHeader(fl, FileOf(g, Meaning(fl, dir), o).name, dir[x])
  {
    hide RefsLead;
    hide DataReferred;
    hide IsFile;
    hide Contents;
    hide CStr;
    var x := Key(IndexId(o), 0);
    assert x in Meaning(fl, dir) && KeyAt(fl, dir[x]) == x && GoodPage(g, fl.lu[dir[x]], fl.pages[dir[x]]);
  }

  /** Finding by name does not depend on the search cursor when names differ. */
  lemma NameUnique(g: Geometry, fl: Flash, dir: Dir, path: seq<int>, s: nat, t: nat)
    requires Linked(g, fl, dir) && NamesDiffer(Disk(g, Meaning(fl, dir)))
    requires NamedHeader(fl, path, s) && NamedHeader(fl, path, t)
    ensures s == t
  {
    hide RefsLead;
    hide DataReferred;
    hide FileOf;
    HeaderIsNamed(g, fl, dir, path, s);
    HeaderIsNamed(g, fl, dir, path, t);
    var d := Disk(g, Meaning(fl, dir));
    assert ObjectId(fl.lu[s]) in d && ObjectId(fl.lu[t]) in d;
  }

  /** Finds the header page of a name, from the search cursor on. */
  method FindByName(fs: Spiffs, path: seq<int>) returns (res: Status, pix: nat)
    requires Shaped(fs.g, fs.flash) && fs.cursorBlock < fs.g.blocks
    modifies fs`cursorBlock, fs`cursorEntry
    ensures fs.cursorBlock < fs.g.blocks
    ensures res == OK || res == ERR_NOT_FOUND
    ensures res == OK ==> pix < fs.g.Total() && NamedHeader(fs.flash, path, pix)
    ensures res != OK ==> forall s: nat :: !NamedHeader(fs.flash, path, s)
  {
    hide NamedHeader;
    hide Before;
    hide StartSlot;
    hide Geometry.Total;
    hide Geometry.BlockStart;
    var fl := fs.flash;
    var accept := (s: nat) => NamedHeader(fl, path, s);
    var found, block, entry;
    ghost var visits;
    found, block, entry, visits := FindEntry(fs.g, fs.cursorBlock, fs.cursorEntry, accept);
    if !found {
      forall s: nat ensures !NamedHeader(fl, path, s) {
        assert accept(s) == NamedHeader(fl, path, s);
        assert s >= fs.g.Total() ==> !NamedHeader(fl, path, s) by { NamedInRange(fl, path, s); }
      }
      return ERR_NOT_FOUND, 0;
    }
    pix := fs.g.BlockStart(block) + entry;
    assert accept(pix);
    BlockFits(fs.g, block);
    fs.cursorBlock := block;
    fs.cursorEntry := entry;
    res := OK;
  }

  lemma NamedInRange(fl: Flash, path: seq<int>, s: nat)
    ensures NamedHeader(fl, path, s) ==> s < |fl.lu|
  {
  }

  // Free ids.

  const MIN_ID := 1

  /** Highest id a medium of this size needs. */
  function TopId(g: Geometry): int {
    var top := g.blocks * g.n / 2 + 1;
    if top >= IX_FLAG then MAX_ID + 1 else top
  }

  /** An id that some live entry carries. */
  predicate Taken(lu: seq<int>, id: int) {
    exists s :: 0 <= s < |lu| && Live(lu[s]) && ObjectId(lu[s]) == id
  }

  /** Marks the ids of all live entries in a bitmap of `marks.Length` ids, and looks for a name
      that is in use. */
  method MarkIds(g: Geometry, fl: Flash, conflicting: Option<seq<int>>, marks: array<bool>) returns (res: Status)
    requires Shaped(g, fl) && forall i :: 0 <= i < marks.Length ==> !marks[i]
    modifies marks
    ensures res == OK || res == ERR_CONFLICTING_NAME
    ensures res == ERR_CONFLICTING_NAME <==> conflicting.Some? && exists s: nat :: NamedHeader(fl, conflicting.value, s)
    ensures res == OK ==> forall k {:trigger Taken(fl.lu, k)} :: MIN_ID <= k < MIN_ID + marks.Length ==> marks[k - MIN_ID] == Taken(fl.lu, k)
  {
    hide NamedHeader;
    res := OK;
    var s := 0;
    while s < g.Total()
      invariant 0 <= s <= g.Total() && res == OK
      invariant forall i :: 0 <= i < marks.Length ==> marks[i] == exists t :: 0 <= t < s && Live(fl.lu[t]) && ObjectId(fl.lu[t]) == MIN_ID + i
      invariant conflicting.Some? ==> forall t: nat :: t < s ==> !NamedHeader(fl, conflicting.value, t)
    {
      if conflicting.Some? && NamedHeader(fl, conflicting.value, s) {
        return ERR_CONFLICTING_NAME;
      }
      if Live(fl.lu[s]) {
        var bit := ObjectId(fl.lu[s]) - MIN_ID;
        if 0 <= bit < marks.Length {
          marks[bit] := true;
        }
      }
      s := s + 1;
    }
    if conflicting.Some? {
      forall t: nat ensures !NamedHeader(fl, conflicting.value, t) {
        NamedInRange(fl, conflicting.value, t);
      }
    }
  }

  /** Finds an id that no object has, with a bitmap of eight times `width` ids. */
  method FindFreeId(g: Geometry, fl: Flash, width: nat, conflicting: Option<seq<int>>) returns (res: Status, id: int)
    requires Shaped(g, fl) && TopId(g) - MIN_ID <= width * 8
    ensures res == OK || res == ERR_FULL || res == ERR_CONFLICTING_NAME
    ensures res == ERR_CONFLICTING_NAME <==> conflicting.Some? && exists s: nat :: NamedHeader(fl, conflicting.value, s)
    ensures res == OK ==> MIN_ID <= id < MIN_ID + width * 8 && !Taken(fl.lu, id) && forall k :: MIN_ID <= k < id ==> Taken(fl.lu, k)
    ensures res == ERR_FULL ==> forall k :: MIN_ID <= k < MIN_ID + width * 8 ==> Taken(fl.lu, k)
  {
    hide Taken;
    hide NamedHeader;
    id := FREE;
    var marks := new bool[width * 8](_ => false);
    res := MarkIds(g, fl, conflicting, marks);
    if res != OK {
      return;
    }
    var i := 0;
    while i < width
      invariant i <= width
      invariant forall k {:trigger Taken(fl.lu, k)} :: MIN_ID <= k < MIN_ID + i * 8 ==> Taken(fl.lu, k)
    {
      var j := 0;
      while j < 8
        invariant j <= 8
        invariant forall k {:trigger Taken(fl.lu, k)} :: MIN_ID <= k < MIN_ID + i * 8 + j ==> Taken(fl.lu, k)
      {
        assert marks[i * 8 + j] == Taken(fl.lu, i * 8 + j + MIN_ID);
        if !marks[i * 8 + j] {
          return OK, i * 8 + j + MIN_ID;
        }
        j := j + 1;
      }
      i := i + 1;
    }
    res := ERR_FULL;
  }

  /** On a consistent medium an id that no entry carries is an id that no page, no file has. */
  lemma FreshId(g: Geometry, fl: Flash, dir: Dir, id: int)
    requires Linked(g, fl, dir) && !Taken(fl.lu, id) && 1 <= id <= MAX_ID
    ensures forall k: Key :: k in dir ==> k.id != id && k.id != IndexId(id)
    ensures id !in Ids(Meaning(fl, dir))
  {
    hide RefsLead;
    hide DataReferred;
    forall k: Key | k in dir
      ensures k.id != id && k.id != IndexId(id)
    {
      assert KeyAt(fl, dir[k]) == k && Live(fl.lu[dir[k]]);
    }
    InIds(Meaning(fl, dir), id);
  }
}
