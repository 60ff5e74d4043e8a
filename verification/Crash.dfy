/** Power loss in the middle of a page move, and so of a rename. */
module Crash {
  import opened Words
  import opened Layout
  import opened Medium
  import opened Directory
  import opened Tally
  import opened Store
  import opened FileSystem
  import opened Names
  import opened Files
  import opened Holding
  import opened Collector

  /** A write of one byte of flags: it happens or it does not. */
  predicate FlagsOnly(op: WriteOp) {
    op.PageWrite? && op.page.id == -1 && op.page.span == -1 && op.page.body.Blank?
  }

  /** What a write that was cut off may leave: of a lookup entry any word, of a page anything. A
      flags byte is written or not, and a block erased or not. */
  ghost predicate Torn(g: Geometry, v: Flash, op: WriteOp, w: Flash) {
    && SameSize(v, w)
    && match op
       case EntryWrite(s, _) => s < |v.lu| && w == v.(lu := v.lu[s := w.lu[s]])
       case PageWrite(s, _) => s < |v.pages| && w == if FlagsOnly(op) then v else v.(pages := v.pages[s := w.pages[s]])
       case BlockErase(_) => w == v
       case CountWrite(_, _) => w.lu == v.lu && w.pages == v.pages
  }

  /** The medium after `ops` were cut off somewhere, cleanly or in the middle of a write. */
  ghost predicate CutOff(g: Geometry, v: Flash, ops: seq<WriteOp>, w: Flash) {
    exists j :: 0 <= j <= |ops| && CutAt(g, v, ops, j, w)
  }

  ghost predicate CutAt(g: Geometry, v: Flash, ops: seq<WriteOp>, j: int, w: Flash)
    requires 0 <= j <= |ops|
  {
    w == Run(g, v, ops[..j]) || (j < |ops| && Torn(g, Run(g, v, ops[..j]), ops[j], w))
  }

  /** A page may be replaced by `page`: it is the only one of its key, it and the new one are
      finalized and not deleted, and the target is erased. */
  ghost predicate Replaces(fl: Flash, src: nat, dst: nat, id: int, page: Page) {
    && src < |fl.lu| == |fl.pages| && dst < |fl.lu| && src != dst && Live(id)
    && fl.lu[dst] == FREE && fl.pages[dst] == ERASED
    && Matches(fl, id, page.span, src)
    && (forall s: nat :: Matches(fl, id, page.span, s) ==> s == src)
    && page.id == id && !page.flags.final && page.flags.delet && (IsIndexId(id) && page.span == 0 ==> page.flags.ixdele)
  }

  /** Whichever of the two pages a search accepts holds the old or the new content, one of them it
      does accept, and nothing else on the medium changed. */
  ghost predicate OldOrNew(fl: Flash, src: nat, dst: nat, id: int, page: Page, w: Flash)
    requires src < |fl.pages|
  {
    && SameSize(fl, w)
    && (exists s: nat :: Matches(w, id, page.span, s))
    && (forall s: nat :: Matches(w, id, page.span, s) ==>
         || (s == src && w.pages[s].body == fl.pages[src].body)
         || (s == dst && s < |w.pages| && w.pages[s].body == page.body))
    && (forall s :: 0 <= s < |fl.lu| && s != src && s != dst ==> w.lu[s] == fl.lu[s] && w.pages[s] == fl.pages[s])
  }

  // The states between the writes of a move.

  lemma RunStep(g: Geometry, fl: Flash, ops: seq<WriteOp>, j: nat)
    requires j < |ops|
    ensures Run(g, fl, ops[..j + 1]) == Apply(g, Run(g, fl, ops[..j]), ops[j])
  {
    assert ops[..j + 1] == ops[..j] + [ops[j]];
    RunAppend(g, fl, ops[..j], [ops[j]]);
    RunOne(g, Run(g, fl, ops[..j]), ops[j]);
  }

  lemma RunOne(g: Geometry, fl: Flash, op: WriteOp)
    ensures Run(g, fl, [op]) == Apply(g, fl, op)
  {
    assert [op][1..] == [];
  }

  /** The flash after `j` writes of a move with page data. */
  function MoveState(fl: Flash, src: nat, dst: nat, id: int, page: Page, j: nat): Flash
    requires src < |fl.lu| == |fl.pages| && dst < |fl.lu|
  {
    var open := page.(flags := AsUsed(page.flags).(final := true));
    var closed := page.(flags := AsUsed(page.flags));
    if j == 0 then fl
    else if j == 1 then fl.(pages := fl.pages[dst := open])
    else if j == 2 then Placed(fl, dst, id, open)
    else if j == 3 then Placed(fl, dst, id, closed)
    else if j == 4 then Placed(fl, dst, id, closed).(lu := fl.lu[dst := id][src := DELETED])
    else Moved(fl, src, dst, id, closed)
  }

  lemma MoveStates(g: Geometry, fl: Flash, src: nat, dst: nat, id: int, page: Page, j: nat)
    requires Replaces(fl, src, dst, id, page) && j <= 5
    ensures |MoveOps(src, dst, id, page)| == 5 && Run(g, fl, MoveOps(src, dst, id, page)[..j]) == MoveState(fl, src, dst, id, page, j)
  {
    var ops := MoveOps(src, dst, id, page);
    if j == 0 {
      assert ops[..0] == [];
    } else {
      MoveStates(g, fl, src, dst, id, page, j - 1);
      RunStep(g, fl, ops, j - 1);
      ProgramFresh(page.(flags := AsUsed(page.flags).(final := true)));
      ProgramFlags(page.(flags := AsUsed(page.flags).(final := true)), AsUsed(page.flags));
      ProgramFlags(fl.pages[src], DELETE_FLAGS);
      assert And(FREE, id) == id;
    }
  }

  /** After every write, and in the middle of every write, of a move the page is there, old or new. */
  lemma MoveStateOk(g: Geometry, fl: Flash, src: nat, dst: nat, id: int, page: Page, j: nat)
    requires Replaces(fl, src, dst, id, page) && j <= 5
    ensures OldOrNew(fl, src, dst, id, page, MoveState(fl, src, dst, id, page, j))
  {
    var w := MoveState(fl, src, dst, id, page, j);
    assert Matches(w, id, page.span, if j < 4 then src else dst);
    forall s: nat | s != src && s != dst
      ensures Matches(w, id, page.span, s) ==> Matches(fl, id, page.span, s)
    {
    }
  }

  lemma MoveTorn(g: Geometry, fl: Flash, src: nat, dst: nat, id: int, page: Page, j: nat, w: Flash)
    requires Replaces(fl, src, dst, id, page) && j < 5
    requires |MoveOps(src, dst, id, page)| == 5
    requires Torn(g, MoveState(fl, src, dst, id, page, j), MoveOps(src, dst, id, page)[j], w)
    ensures OldOrNew(fl, src, dst, id, page, w)
  {
    var v := MoveState(fl, src, dst, id, page, j);
    var ops := MoveOps(src, dst, id, page);
    assert ops[0] == PageWrite(dst, page.(flags := AsUsed(page.flags).(final := true)));
    assert ops[1] == EntryWrite(dst, id) && FlagsOnly(ops[2]) && ops[3] == EntryWrite(src, DELETED) && FlagsOnly(ops[4]);
    if FlagsOnly(ops[j]) {
      MoveStateOk(g, fl, src, dst, id, page, j);
    } else {
      assert Matches(w, id, page.span, if j < 3 then src else dst);
      forall s: nat | s != src && s != dst
        ensures Matches(w, id, page.span, s) ==> Matches(fl, id, page.span, s)
      {
      }
    }
  }

  /** Crash atomicity of a page move: wherever it is cut off, a search for the page finds one, and
      every page it can find has exactly the old or exactly the new content. */
  lemma MoveAtomic(g: Geometry, fl: Flash, src: nat, dst: nat, id: int, page: Page, w: Flash)
    requires Replaces(fl, src, dst, id, page) && CutOff(g, fl, MoveOps(src, dst, id, page), w)
    ensures OldOrNew(fl, src, dst, id, page, w)
  {
    hide Replaces;
    hide OldOrNew;
    hide Torn;
    hide MoveState;
    MoveStates(g, fl, src, dst, id, page, 0);
    var ops := MoveOps(src, dst, id, page);
    var j :| 0 <= j <= |ops| && CutAt(g, fl, ops, j, w);
    MoveStates(g, fl, src, dst, id, page, j);
    if w == Run(g, fl, ops[..j]) {
      MoveStateOk(g, fl, src, dst, id, page, j);
    } else {
      MoveTorn(g, fl, src, dst, id, page, j, w);
    }
  }

  // A rename, with the quick collection that may come first.

  lemma RunFits(g: Geometry, v: Flash, a: seq<WriteOp>, b: seq<WriteOp>, j: int)
    requires 0 <= j <= |a| + |b|
    ensures j <= |a| ==> (a + b)[..j] == a[..j]
    ensures j >= |a| ==> Run(g, v, (a + b)[..j]) == Run(g, Run(g, v, a), b[..j - |a|])
  {
    if j >= |a| {
      assert (a + b)[..j] == a + b[..j - |a|];
      RunAppend(g, v, a, b[..j - |a|]);
    } else {
      assert (a + b)[..j] == a[..j];
    }
  }

  /** Writes that were cut off were cut off in the first part, or in the second after the first. */
  lemma CutSplit(g: Geometry, v: Flash, a: seq<WriteOp>, b: seq<WriteOp>, w: Flash)
    requires CutOff(g, v, a + b, w)
    ensures CutOff(g, v, a, w) || CutOff(g, Run(g, v, a), b, w)
  {
    hide Torn;
    hide Run;
    var j :| 0 <= j <= |a + b| && CutAt(g, v, a + b, j, w);
    RunFits(g, v, a, b, j);
    if j < |a| {
      assert CutAt(g, v, a, j, w);
    } else {
      assert CutAt(g, Run(g, v, a), b, j - |a|, w);
    }
  }

  /** Cut off during the quick collection, no live page has changed. */
  lemma QuickCut(g: Geometry, v: Flash, q: seq<WriteOp>, w: Flash)
    requires QuickOps(g, v.lu, q) && CutOff(g, v, q, w) && |v.lu| == |v.pages|
    ensures SameSize(v, w) && forall s :: 0 <= s < |v.lu| ==> (Live(v.lu[s]) || Live(w.lu[s]) ==> w.lu[s] == v.lu[s] && w.pages[s] == v.pages[s])
  {
    var j :| 0 <= j <= |q| && CutAt(g, v, q, j, w);
    assert q[..0] == [];
    if j > 0 {
      RunStep(g, v, q, 0);
    }
    if j > 1 {
      RunStep(g, v, q, 1);
    }
  }

  lemma SameHeaders(v: Flash, w: Flash, path: seq<int>, s: nat)
    requires SameSize(v, w) && forall s :: 0 <= s < |v.lu| ==> (Live(v.lu[s]) || Live(w.lu[s]) ==> w.lu[s] == v.lu[s] && w.pages[s] == v.pages[s])
    ensures NamedHeader(w, path, s) <==> NamedHeader(v, path, s)
    ensures NamedHeader(v, path, s) ==> w.lu[s] == v.lu[s]
  {
    hide CStr;
  }

  lemma HeaderReplaces(g: Geometry, mid: Flash, dir: Dir, src: nat, dst: nat, o: int, oldPath: seq<int>, name: seq<int>)
    requires Linked(g, mid, dir) && NamedHeader(mid, oldPath, src) && mid.lu[src] == IndexId(o) && 1 <= o <= MAX_ID
    requires dst < |mid.lu| && mid.lu[dst] == FREE
    ensures src < |mid.pages| && Replaces(mid, src, dst, IndexId(o), EditHeader(mid.pages[src], Some(name), 0))
  {
    hide RefsLead;
    hide DataReferred;
    hide CStr;
    MatchIsFiled(g, mid, dir, IndexId(o), 0);
    assert GoodPage(g, mid.lu[src], mid.pages[src]);
  }

  /** An interrupted rename: wherever it is cut off, the file is found under its old or under its
      new name, and the entries of all other files are as they were. */
  lemma RenameAtomic(g: Geometry, fl: Flash, mid: Flash, dir: Dir, q: seq<WriteOp>, src: nat, dst: nat, o: int, oldPath: seq<int>, newPath: seq<int>, w: Flash)
    requires Linked(g, fl, dir) && 1 <= o <= MAX_ID && IsPath(newPath, g.nameLen)
    requires NamedHeader(fl, oldPath, src) && src < |fl.pages| && fl.lu[src] == IndexId(o)
    requires QuickOps(g, fl.lu, q) && mid == Run(g, fl, q) && QuickStep(fl, mid) && dst < |mid.lu| && mid.lu[dst] == FREE
    requires CutOff(g, fl, q + MoveOps(src, dst, IndexId(o), EditHeader(fl.pages[src], Some(Padded(newPath, g.nameLen)), 0)), w)
    ensures SameSize(fl, w)
    ensures exists s: nat :: s < |w.lu| && w.lu[s] == IndexId(o) && (NamedHeader(w, oldPath, s) || NamedHeader(w, newPath, s))
    ensures forall s: nat, p :: s < |fl.lu| && s != src && s != dst ==> (NamedHeader(w, p, s) <==> NamedHeader(fl, p, s))
  {
    hide CutOff;
    hide Linked;
    hide NamedHeader;
    hide QuickStep;
    hide QuickOps;
    hide Run;
    hide MoveOps;
    hide EditHeader;
    hide CStr;
    hide Padded;
    var page := EditHeader(fl.pages[src], Some(Padded(newPath, g.nameLen)), 0);
    QuickKeeps(g, fl, mid, dir);
    QuickHeaders(g, fl, mid);
    forall s: nat, p
      ensures NamedHeader(mid, p, s) <==> NamedHeader(fl, p, s)
    {
      SameHeaders(fl, mid, p, s);
    }
    SrcKept(fl, mid, src);
    CutSplit(g, fl, q, MoveOps(src, dst, IndexId(o), page), w);
    if CutOff(g, fl, q, w) {
      QuickCut(g, fl, q, w);
      forall s: nat, p
        ensures NamedHeader(w, p, s) <==> NamedHeader(fl, p, s)
      {
        SameHeaders(fl, w, p, s);
      }
      SameHeaders(fl, w, oldPath, src);
    } else {
      HeaderReplaces(g, mid, dir, src, dst, o, oldPath, Padded(newPath, g.nameLen));
      MoveAtomic(g, mid, src, dst, IndexId(o), page, w);
      StoredName(newPath, g.nameLen);
      FoundAgain(mid, src, dst, o, page, oldPath, newPath, w, Padded(newPath, g.nameLen));
    }
  }

  lemma QuickHeaders(g: Geometry, v: Flash, w: Flash)
    requires QuickStep(v, w)
    ensures SameSize(v, w) && forall s :: 0 <= s < |v.lu| ==> (Live(v.lu[s]) || Live(w.lu[s]) ==> w.lu[s] == v.lu[s] && w.pages[s] == v.pages[s])
  {
  }

  lemma SrcKept(v: Flash, w: Flash, s: nat)
    requires QuickStep(v, w) && s < |v.lu| && Live(v.lu[s])
    ensures w.lu[s] == v.lu[s] && w.pages[s] == v.pages[s]
  {
  }

  lemma FoundAgain(mid: Flash, src: nat, dst: nat, o: int, page: Page, oldPath: seq<int>, newPath: seq<int>, w: Flash, name: seq<int>)
    requires src < |mid.pages| == |mid.lu| && 1 <= o <= MAX_ID && NamedHeader(mid, oldPath, src) && CStr(name) == newPath
    requires page == EditHeader(mid.pages[src], Some(name), 0) && OldOrNew(mid, src, dst, IndexId(o), page, w)
    ensures SameSize(mid, w)
    ensures exists s: nat :: s < |w.lu| && w.lu[s] == IndexId(o) && (NamedHeader(w, oldPath, s) || NamedHeader(w, newPath, s))
    ensures forall s: nat, p :: s < |mid.lu| && s != src && s != dst ==> (NamedHeader(w, p, s) <==> NamedHeader(mid, p, s))
  {
    hide CStr;
    var s: nat :| Matches(w, IndexId(o), page.span, s);
    assert NamedHeader(w, oldPath, s) || NamedHeader(w, newPath, s);
  }

  /** What was written since `was` is a rename of object `o`: perhaps a quick collection, then the
      move of its header page to a free slot with the new name. */
  ghost predicate RenameWrites(g: Geometry, v: Flash, was: seq<WriteOp>, now: seq<WriteOp>, o: int, oldPath: seq<int>, newPath: seq<int>) {
    IsPath(newPath, g.nameLen) &&
    exists src: nat, dst: nat, mid: Flash :: RenameMove(g, v, mid, was, now, o, oldPath, newPath, src, dst)
  }

  ghost predicate RenameMove(g: Geometry, v: Flash, mid: Flash, was: seq<WriteOp>, now: seq<WriteOp>, o: int, oldPath: seq<int>, newPath: seq<int>, src: nat, dst: nat)
    requires IsPath(newPath, g.nameLen)
  {
    && src < |v.pages| && src < |v.lu| && NamedHeader(v, oldPath, src) && v.lu[src] == IndexId(o)
    && QuickStep(v, mid) && dst < |mid.lu| && mid.lu[dst] == FREE
    && Logged(g, v, mid, was, now, MoveOps(src, dst, IndexId(o), EditHeader(v.pages[src], Some(Padded(newPath, g.nameLen)), 0)))
  }

  /** A rename that the power failed in: whatever was written of it, the file can be found under
      its old or its new name, and the entries of every other file are as they were. */
  lemma RenameInterrupted(g: Geometry, v: Flash, dir: Dir, was: seq<WriteOp>, now: seq<WriteOp>, o: int, oldPath: seq<int>, newPath: seq<int>, w: Flash)
    requires Linked(g, v, dir) && 1 <= o <= MAX_ID && was <= now
    requires RenameWrites(g, v, was, now, o, oldPath, newPath) && CutOff(g, v, now[|was|..], w)
    ensures SameSize(v, w)
    ensures exists s: nat :: s < |w.lu| && w.lu[s] == IndexId(o) && (NamedHeader(w, oldPath, s) || NamedHeader(w, newPath, s))
    ensures forall s: nat, p :: s < |v.lu| && Live(v.lu[s]) && v.lu[s] != IndexId(o) ==> (NamedHeader(w, p, s) <==> NamedHeader(v, p, s))
  {
    hide CutOff;
    hide Linked;
    hide NamedHeader;
    hide QuickStep;
    hide QuickOps;
    hide Run;
    hide MoveOps;
    hide EditHeader;
    hide Padded;
    var src: nat, dst: nat, mid: Flash :| RenameMove(g, v, mid, was, now, o, oldPath, newPath, src, dst);
    var ops := MoveOps(src, dst, IndexId(o), EditHeader(v.pages[src], Some(Padded(newPath, g.nameLen)), 0));
    var q :| now == was + q + ops && QuickOps(g, v.lu, q) && mid == Run(g, v, q);
    assert now[|was|..] == q + ops;
    RenameAtomic(g, v, mid, dir, q, src, dst, o, oldPath, newPath, w);
    FreedNotLive(v, mid, dst);
  }

  lemma FreedNotLive(v: Flash, mid: Flash, s: nat)
    requires QuickStep(v, mid) && s < |mid.lu| && mid.lu[s] == FREE
    ensures s < |v.lu| && !Live(v.lu[s])
  {
  }
}
