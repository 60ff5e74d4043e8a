/** What a write does to the descriptors that are open: they stay open for the same objects, their
    windows follow, and the writer stays at its position. */
module Following {
  import opened Words
  import opened Layout
  import opened Medium
  import opened Directory
  import opened Window
  import opened Store
  import opened Maps
  import opened Collector

  /** The position of a descriptor, and what is pending for it, are not behind a file of `len` bytes
      with the pending ones. */
  predicate Within(fd: Fd, len: nat) {
    && fd.position <= (if fd.pending.Some? && fd.pending.value.offset + fd.pending.value.size > len then fd.pending.value.offset + fd.pending.value.size else len)
    && (fd.pending.Some? ==> fd.pending.value.offset <= len)
  }

  ghost predicate Followed(dir: Dir, fds: seq<Fd>, dir': Dir, fds': seq<Fd>, fdi: nat, len: nat) {
    && SameOpen(fds, fds') && MapsKept(dir, fds, dir', fds')
    && (fdi < |fds| && Within(fds[fdi], len) ==> fds'[fdi].position == fds[fdi].position && fds'[fdi].pending == fds[fdi].pending)
  }

  lemma FollowRefl(dir: Dir, fds: seq<Fd>, fdi: nat, len: nat)
    ensures Followed(dir, fds, dir, fds, fdi, len)
  {
  }

  lemma FollowOn(dir: Dir, fds: seq<Fd>, dir1: Dir, fds1: seq<Fd>, dir': Dir, fds': seq<Fd>, fdi: nat, len: nat)
    requires Followed(dir, fds, dir1, fds1, fdi, len) && Followed(dir1, fds1, dir', fds', fdi, len)
    ensures Followed(dir, fds, dir', fds', fdi, len)
  {
    hide MapsOk;
    hide Mapless;
  }

  /** A descriptor gets another length or cursor. */
  lemma FollowOwn(dir: Dir, fds: seq<Fd>, fdi: nat, fd: Fd, len: nat)
    requires fdi < |fds| && fd == fds[fdi].(size := fd.size, hdr := fd.hdr, cursorPix := fd.cursorPix, cursorSpan := fd.cursorSpan)
    ensures Followed(dir, fds, dir, fds[fdi := fd], fdi, len)
  {
    var fds' := fds[fdi := fd];
    forall i | 0 <= i < |fds|
      ensures MapOk(dir, fds[i]) ==> MapOk(dir, fds'[i])
      ensures fds[i].win == fds'[i].win
    {
    }
  }

  /** A data page behind the last one is added. */
  lemma FollowGrow(dir: Dir, fds: seq<Fd>, o: int, q: nat, f: int, fdi: nat, len: nat)
    requires 1 <= o <= MAX_ID && Key(o, q) !in dir && forall p: nat :: p < q ==> Key(o, p) in dir
    ensures Followed(dir, fds, dir[Key(o, q) := f], fds, fdi, len)
  {
    var dir' := dir[Key(o, q) := f];
    forall i | 0 <= i < |fds| && MapOk(dir, fds[i])
      ensures MapOk(dir', fds[i])
    {
      var fd := fds[i];
      if fd.fileNbr != 0 && fd.win.Some? {
        var a, w := ObjectId(fd.objId), fd.win.value;
        forall j | 0 <= j < |w.entries|
          ensures EntryOk(dir', a, w.start + j, w.entries[j])
        {
          assert EntryOk(dir, a, w.start + j, w.entries[j]);
        }
      }
    }
  }

  /** An index page was written and the descriptors told; `len` bytes of the file are known to be
      there. */
  lemma FollowEvent(g: Geometry, dir: Dir, dir': Dir, fds: seq<Fd>, fds': seq<Fd>, fdi: nat, o: int, ev: IxEvent, id: int, k: nat, f: int, size: int, len: nat)
    requires g.Valid() && SameData(dir, dir') && |fds'| == |fds| && 1 <= o <= MAX_ID && ObjectId(id) == o && ev != IxDeleted
    requires ev.IxUpdated? || ev.IxNew? ==> ev.first == FirstSpan(g, k) && RefsOfIx(g, dir', o, k, ev.refs)
    requires forall span: nat :: Key(o, span) in dir' ==> dir'[Key(o, span)] != NONE
    requires forall i :: 0 <= i < |fds| ==> var e := EventFd(fds[i], ev, id, k, f, size); fds'[i] == if i == fdi && k == 0 then e.(hdr := f) else e
    requires k == 0 && size != 0 ==> size > 0 && size >= len
    ensures Followed(dir, fds, dir', fds', fdi, len)
  {
    hide EventFd;
    hide MapsOk;
    hide MapsBut;
    hide Mapless;
    hide RefsOfIx;
    hide FirstSpan;
    forall i | 0 <= i < |fds|
      ensures fds'[i].fileNbr == fds[i].fileNbr && fds'[i].objId == fds[i].objId && fds'[i].score == fds[i].score && fds'[i].position <= fds[i].position
      ensures fds[i].pending.None? ==> fds'[i].pending.None?
    {
      EventFields(fds[i], ev, id, k, f, size);
    }
    if ev.IxUpdated? || ev.IxNew? {
      if MapsOk(dir, fds) {
        MapsStale(g, dir, dir, fds, o, k);
      }
      MapsTold(g, dir, dir', fds, fds', ev, o, id, k, f, size);
    } else {
      MapsUntold(dir, dir', fds, fds', ev, id, k, f, size);
    }
    if fdi < |fds| {
      StaysPut(fds[fdi], ev, id, k, f, size, len);
    }
  }

  lemma StaysPut(fd: Fd, ev: IxEvent, id: int, k: nat, f: int, size: int, len: nat)
    requires ev != IxDeleted && (k == 0 && size != 0 ==> size > 0 && size >= len)
    ensures Within(fd, len) ==> EventFd(fd, ev, id, k, f, size).position == fd.position && EventFd(fd, ev, id, k, f, size).pending == fd.pending
  {
  }
}
