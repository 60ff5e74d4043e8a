/** The index maps and the positions of open descriptors, and what events leave of them. */
module Maps {
  import opened Words
  import opened Layout
  import opened Medium
  import opened Directory
  import opened Window
  import opened Store

  /** The window of an open descriptor agrees with the medium, and its file has no gaps. */
  ghost predicate MapOk(dir: Dir, fd: Fd) {
    fd.fileNbr != 0 && fd.win.Some? ==>
      && 1 <= ObjectId(fd.objId) <= MAX_ID && Contiguous(dir, ObjectId(fd.objId))
      && Agrees(dir, ObjectId(fd.objId), fd.win.value.start, fd.win.value.entries)
  }

  ghost predicate MapsOk(dir: Dir, fds: seq<Fd>) {
    forall i :: 0 <= i < |fds| ==> MapOk(dir, fds[i])
  }

  /** As `MapOk`, but what a window says of the pages under index page `k` of object `o` may be out of
      date. */
  ghost predicate MapBut(g: Geometry, dir: Dir, fd: Fd, o: int, k: nat)
    requires g.Valid()
  {
    fd.fileNbr != 0 && fd.win.Some? ==>
      var a, w := ObjectId(fd.objId), fd.win.value;
      && 1 <= a <= MAX_ID && Contiguous(dir, a)
      && forall i {:trigger w.entries[i]} :: 0 <= i < |w.entries| ==>
           if a == o && IxSpan(g, w.start + i) == k then w.entries[i] == NONE || Key(a, w.start + i) in dir
           else EntryOk(dir, a, w.start + i, w.entries[i])
  }

  ghost predicate MapsBut(g: Geometry, dir: Dir, fds: seq<Fd>, o: int, k: nat)
    requires g.Valid()
  {
    forall i :: 0 <= i < |fds| ==> MapBut(g, dir, fds[i], o, k)
  }

  /** No descriptor has a window. */
  ghost predicate Mapless(fds: seq<Fd>) {
    forall i :: 0 <= i < |fds| ==> fds[i].win.None?
  }

  /** The same data pages in the same places. */
  ghost predicate SameData(dir: Dir, dir': Dir) {
    forall k: Key {:trigger k in dir} {:trigger k in dir'} :: 1 <= k.id <= MAX_ID ==> (k in dir <==> k in dir') && (k in dir ==> dir'[k] == dir[k])
  }

  /** Where the user of a descriptor is, and what waits to be written for it, is in order. */
  predicate Sane(fd: Fd) {
    fd.position <= Limit(fd) && (fd.pending.Some? ==> fd.pending.value.offset <= Length(fd.size))
  }

  /** The descriptor's file has no data pages. */
  ghost predicate Idle(dir: Dir, fd: Fd) {
    forall k: Key :: k in dir ==> k.id != ObjectId(fd.objId)
  }

  /** Position, pending bytes and length are as they were. */
  ghost predicate Untouched(dir: Dir, a: Fd, b: Fd) {
    a.fileNbr != 0 && Sane(a) && (Length(a.size) > 0 || Idle(dir, a)) ==>
      b.fileNbr == a.fileNbr && b.objId == a.objId && b.position == a.position && b.pending == a.pending && Length(b.size) == Length(a.size)
  }

  ghost predicate MapsKept(dir: Dir, fds: seq<Fd>, dir': Dir, fds': seq<Fd>) {
    (Mapless(fds) ==> Mapless(fds')) && (MapsOk(dir, fds) ==> MapsOk(dir', fds'))
  }

  /** The users of open descriptors notice nothing. */
  ghost predicate Calm(dir: Dir, fds: seq<Fd>, dir': Dir, fds': seq<Fd>) {
    |fds'| == |fds| && MapsKept(dir, fds, dir', fds') && forall i :: 0 <= i < |fds| ==> Untouched(dir, fds[i], fds'[i])
  }

  lemma CalmRefl(dir: Dir, fds: seq<Fd>)
    ensures Calm(dir, fds, dir, fds)
  {
  }

  lemma CalmOn(dir: Dir, fds: seq<Fd>, dir1: Dir, fds1: seq<Fd>, dir': Dir, fds': seq<Fd>)
    requires Calm(dir, fds, dir1, fds1) && Calm(dir1, fds1, dir', fds') && dir.Keys == dir1.Keys
    ensures Calm(dir, fds, dir', fds')
  {
    hide Contiguous;
    hide Agrees;
    forall i | 0 <= i < |fds|
      ensures Untouched(dir, fds[i], fds'[i])
    {
      assert Untouched(dir, fds[i], fds1[i]) && Untouched(dir1, fds1[i], fds'[i]);
    }
  }

  // Windows.

  lemma WindowEvent(fd: Fd, ev: IxEvent, id: int, span: int, pix: int, size: int)
    ensures
      var e := EventFd(fd, ev, id, span, pix, size);
      && (fd.win.None? ==> e.win.None?)
      && (e.fileNbr != 0 ==> e.fileNbr == fd.fileNbr && e.objId == fd.objId)
      && (!ev.IxUpdated? && !ev.IxNew? ==> e.win == fd.win)
      && (ObjectId(fd.objId) != ObjectId(id) ==> e == fd)
      && ((ev.IxUpdated? || ev.IxNew?) && ObjectId(fd.objId) == ObjectId(id) && fd.fileNbr != 0 && fd.win.Some? ==>
           e.win == Some(TakeOver(fd.win.value, ev.first, ev.refs)))
  {
  }

  lemma MaplessEvent(fds: seq<Fd>, fds': seq<Fd>, ev: IxEvent, id: int, span: int, pix: int, size: int)
    requires |fds'| == |fds| && forall i :: 0 <= i < |fds| ==> fds'[i].win == EventFd(fds[i], ev, id, span, pix, size).win
    ensures Mapless(fds) ==> Mapless(fds')
  {
    hide EventFd;
    forall i | 0 <= i < |fds| && Mapless(fds)
      ensures fds'[i].win.None?
    {
      WindowEvent(fds[i], ev, id, span, pix, size);
    }
  }

  /** An event that carries no references leaves windows as they are. */
  lemma MapsUntold(dir: Dir, dir': Dir, fds: seq<Fd>, fds': seq<Fd>, ev: IxEvent, id: int, span: int, pix: int, size: int)
    requires |fds'| == |fds| && SameData(dir, dir') && !ev.IxUpdated? && !ev.IxNew?
    requires forall i :: 0 <= i < |fds| ==>
      var e := EventFd(fds[i], ev, id, span, pix, size); fds'[i].win == e.win && fds'[i].fileNbr == e.fileNbr && fds'[i].objId == e.objId
    ensures MapsKept(dir, fds, dir', fds')
  {
    hide EventFd;
    forall i | 0 <= i < |fds|
      ensures fds[i].win.None? ==> fds'[i].win.None?
      ensures MapOk(dir, fds[i]) ==> MapOk(dir', fds'[i])
    {
      WindowEvent(fds[i], ev, id, span, pix, size);
      MapSame(dir, dir', fds[i], fds'[i]);
    }
  }

  lemma MapSame(dir: Dir, dir': Dir, fd: Fd, fd': Fd)
    requires SameData(dir, dir') && fd'.win == fd.win && (fd'.fileNbr != 0 ==> fd.fileNbr != 0 && fd'.objId == fd.objId)
    ensures MapOk(dir, fd) ==> MapOk(dir', fd')
  {
    if MapOk(dir, fd) && fd'.fileNbr != 0 && fd'.win.Some? {
      var a, w := ObjectId(fd.objId), fd.win.value;
      forall i | 0 <= i < |w.entries|
        ensures EntryOk(dir', a, w.start + i, w.entries[i])
      {
        assert EntryOk(dir, a, w.start + i, w.entries[i]);
      }
      assert Contiguous(dir', a);
    }
  }

  /** Pages of object `o` under index page `k` went elsewhere: only what windows say of these is out of
      date. */
  lemma MapsStale(g: Geometry, dir: Dir, dir': Dir, fds: seq<Fd>, o: int, k: nat)
    requires g.Valid() && MapsOk(dir, fds) && dir'.Keys == dir.Keys
    requires forall q :: q in dir && !(q.id == o && IxSpan(g, if q.span < 0 then 0 else q.span) == k) ==> q in dir' && dir'[q] == dir[q]
    ensures MapsBut(g, dir', fds, o, k)
  {
    hide IxSpan;
    forall i | 0 <= i < |fds|
      ensures MapBut(g, dir', fds[i], o, k)
    {
      var fd := fds[i];
      assert MapOk(dir, fd);
      if fd.fileNbr != 0 && fd.win.Some? {
        var a, w := ObjectId(fd.objId), fd.win.value;
        assert forall j :: 0 <= j < |w.entries| ==> EntryOk(dir, a, w.start + j, w.entries[j]);
        assert Contiguous(dir', a);
      }
    }
  }

  /** The windows are told the references of index page `k` and agree again. */
  lemma MapsTold(g: Geometry, dir: Dir, dir': Dir, fds: seq<Fd>, fds': seq<Fd>, ev: IxEvent, o: int, id: int, k: nat, pix: int, size: int)
    requires g.Valid() && SameData(dir, dir') && |fds'| == |fds| && 1 <= o <= MAX_ID && ObjectId(id) == o
    requires (ev.IxUpdated? || ev.IxNew?) && ev.first == FirstSpan(g, k) && RefsOfIx(g, dir', o, k, ev.refs)
    requires forall span: nat :: Key(o, span) in dir' ==> dir'[Key(o, span)] != NONE
    requires forall i :: 0 <= i < |fds| ==>
      var e := EventFd(fds[i], ev, id, k, pix, size); fds'[i].win == e.win && fds'[i].fileNbr == e.fileNbr && fds'[i].objId == e.objId
    ensures Mapless(fds) ==> Mapless(fds')
    ensures MapsBut(g, dir, fds, o, k) ==> MapsOk(dir', fds')
  {
    hide EventFd;
    hide IxSpan;
    hide IxEntry;
    hide FirstSpan;
    hide RefsOfIx;
    hide Contiguous;
    hide Reached;
    forall i | 0 <= i < |fds|
      ensures fds[i].win.None? ==> fds'[i].win.None?
      ensures MapBut(g, dir, fds[i], o, k) ==> MapOk(dir', fds'[i])
    {
      var fd := fds[i];
      WindowEvent(fd, ev, id, k, pix, size);
      if MapBut(g, dir, fd, o, k) && fds'[i].fileNbr != 0 && fds'[i].win.Some? {
        var a, w := ObjectId(fd.objId), fd.win.value;
        ContiguousSame(dir, dir', a);
        forall j | 0 <= j < |w.entries| && !(a == o && IxSpan(g, w.start + j) == k)
          ensures EntryOk(dir', a, w.start + j, w.entries[j])
        {
          assert EntryOk(dir, a, w.start + j, w.entries[j]);
        }
        if a == o {
          ToldAgrees(g, dir', o, k, ev.refs, w);
        }
      }
    }
  }

  lemma ContiguousSame(dir: Dir, dir': Dir, o: int)
    requires SameData(dir, dir') && Contiguous(dir, o) && 1 <= o <= MAX_ID
    ensures Contiguous(dir', o)
  {
  }

  // Positions.

  /** An event that tells no other length than the known one, and the erased one only of a file that
      has data, leaves the users of open descriptors where they are. */
  lemma UntouchedEvents(dir: Dir, fds: seq<Fd>, fds': seq<Fd>, ev: IxEvent, id: int, k: int, pix: int, size: int)
    requires |fds'| == |fds| && ev != IxDeleted
    requires forall i :: 0 <= i < |fds| ==> fds'[i] == EventFd(fds[i], ev, id, k, pix, size)
    requires k == 0 && size != 0 ==> forall i :: 0 <= i < |fds| && ObjectId(fds[i].objId) == ObjectId(id) && fds[i].fileNbr != 0 && fds[i].score != 0 ==>
      Length(fds[i].size) == Length(size) && (size < 0 ==> !Idle(dir, fds[i]))
    ensures forall i :: 0 <= i < |fds| ==> Untouched(dir, fds[i], fds'[i])
  {
    hide TakeOver;
  }
}
