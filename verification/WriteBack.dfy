/** Small writes are gathered in a cache page before they go to the file. */
module WriteBack {
  import opened Words
  import opened Layout
  import opened Medium
  import opened Directory
  import opened Tally
  import opened Store
  import opened Collector
  import opened Files
  import opened Appending
  import opened FileSystem
  import opened Window
  import opened Maps
  import opened Following
  import opened Api
  import opened FileIO
  import Names

  /** Writing into bytes that are themselves to be written is writing both, one after the other. */
  lemma WrittenTwice(c: seq<int>, a: nat, x: seq<int>, b: nat, y: seq<int>)
    requires a <= |c| && a <= b <= a + |x|
    ensures b <= |Written(c, a, x)|
    ensures Written(Written(c, a, x), b, y) == Written(c, a, Written(x, b - a, y))
  {
    var u, v := Written(Written(c, a, x), b, y), Written(c, a, Written(x, b - a, y));
    WrittenAt(c, a, x);
    WrittenAt(Written(c, a, x), b, y);
    WrittenAt(x, b - a, y);
    WrittenAt(c, a, Written(x, b - a, y));
    assert |u| == |v|;
    forall i | 0 <= i < |u|
      ensures u[i] == v[i]
    {
      if a <= i < a + |Written(x, b - a, y)| {
        assert v[i] == Written(x, b - a, y)[i - a];
      }
    }
  }

  lemma WrittenNone(c: seq<int>, off: nat)
    requires off <= |c|
    ensures Written(c, off, []) == c
  {
  }

  lemma WrittenAt(c: seq<int>, off: nat, buf: seq<int>)
    requires off <= |c|
    ensures |Written(c, off, buf)| == if off + |buf| <= |c| then |c| else off + |buf|
    ensures forall i {:trigger Written(c, off, buf)[i]} :: 0 <= i < |Written(c, off, buf)| ==>
      Written(c, off, buf)[i] == if off <= i < off + |buf| then buf[i - off] else c[i]
  {
  }

  /** The bytes in the cache page that are pending. */
  function Waiting(p: Option<Pending>, page: seq<int>): seq<int> {
    if p.Some? && p.value.size <= |page| then page[..p.value.size] else []
  }

  /** What the file will hold: its bytes on flash with the pending ones written over them. */
  function Overlaid(c: seq<int>, p: Option<Pending>, page: seq<int>): seq<int> {
    if p.Some? && p.value.offset <= |c| then Written(c, p.value.offset, Waiting(p, page)) else c
  }

  /** The event of a rename keeps the position of a descriptor that is not behind the end of what the
      file will hold exactly if something is stored, or the position is 0: when nothing is stored
      yet, the position goes back to 0 whatever is pending, and the pending bytes stay. */
  lemma RenamePosition(fd: Fd, id: int, dst: int)
    requires Sane(fd) && fd.score != 0 && ObjectId(fd.objId) == ObjectId(id)
    ensures var e := EventFd(fd, IxHeaderUpdated, id, 0, dst, WordOf(Length(fd.size)));
      && (e.position == fd.position <==> Length(fd.size) > 0 || fd.position == 0)
      && (Length(fd.size) == 0 ==> e.position == 0)
      && e.pending == fd.pending && e.fileNbr == fd.fileNbr && Length(e.size) == Length(fd.size)
  {
  }

  /** Between calls, with descriptor `fdi` open for writing. */
  ghost predicate Ready(fs: Spiffs, fdi: nat, dir: Dir)
    reads fs
  {
    && fs.Valid() && !fs.cleaning && Sound(fs.g, fs.flash, dir, fs.fds) && MapsOk(dir, fs.fds)
    && OpenFile(fs.g, Meaning(fs.flash, dir), fs.fds, fdi)
  }

  /** The bytes of the file a descriptor is open for, as stored. */
  ghost function StoredBytes(fs: Spiffs, fdi: nat, dir: Dir): seq<int>
    requires Ready(fs, fdi, dir)
    reads fs
  {
    FileOf(fs.g, Meaning(fs.flash, dir), ObjectId(fs.fds[fdi].objId)).bytes
  }

  lemma StoredLength(fs: Spiffs, fdi: nat, dir: Dir)
    requires Ready(fs, fdi, dir)
    ensures fdi < |fs.fds| && |StoredBytes(fs, fdi, dir)| == Length(fs.fds[fdi].size)
    ensures var d, o := Disk(fs.g, Meaning(fs.flash, dir)), ObjectId(fs.fds[fdi].objId); o in d && StoredBytes(fs, fdi, dir) == d[o].bytes
  {
    hide Sound;
    hide MapsOk;
    OpenBytes(fs.g, fs.flash, dir, fs.fds, fdi);
    IdName(fs.g, Meaning(fs.flash, dir), ObjectId(fs.fds[fdi].objId));
    InIds(Meaning(fs.flash, dir), ObjectId(fs.fds[fdi].objId));
  }

  /** Position and pending bytes do not concern the medium. */
  lemma PlaceSet(g: Geometry, fl: Flash, dir: Dir, fds: seq<Fd>, fdi: nat, fd: Fd)
    requires Sound(g, fl, dir, fds) && MapsOk(dir, fds) && OpenFile(g, Meaning(fl, dir), fds, fdi)
    requires fdi < |fds| && fd == fds[fdi].(position := fd.position, pending := fd.pending)
    ensures var fds' := fds[fdi := fd]; Sound(g, fl, dir, fds') && MapsOk(dir, fds') && OpenFile(g, Meaning(fl, dir), fds', fdi)
  {
    hide Linked;
    hide AllFiles;
    hide NamesDiffer;
    hide IsFile;
    hide Contiguous;
    hide Agrees;
    var fds' := fds[fdi := fd];
    forall i | 0 <= i < |fds'|
      ensures FdOk(Meaning(fl, dir), dir, fds'[i]) && MapOk(dir, fds'[i])
    {
      assert FdOk(Meaning(fl, dir), dir, fds[i]) && MapOk(dir, fds[i]);
    }
  }

  /** The pending bytes of a descriptor do not matter. */
  lemma WroteOther(g: Geometry, v: Flash, dir0: Dir, fds0: seq<Fd>, fdi: nat, w: Flash, loss: Loss, dir: Dir, fds: seq<Fd>, offset: nat, buf: seq<int>, kept: nat, sound: bool)
    requires g.Valid() && fdi < |fds0| && WroteFile(g, v, dir0, fds0, fdi, w, loss, dir, fds, offset, buf, kept, sound) && fdi < |fds|
    ensures WroteFile(g, v, dir0, fds0, fdi, w, loss, dir, fds[fdi := fds[fdi].(pending := None)], offset, buf, kept, sound)
  {
    hide Linked;
    hide AllFiles;
    hide NamesDiffer;
    hide Disk;
    hide IsFile;
    hide RealLoss;
    hide Intact;
    hide Written;
    hide PutBytes;
    var fds' := fds[fdi := fds[fdi].(pending := None)];
    forall m: Image, o: int
      ensures FdsBut(m, dir, fds, o) ==> FdsBut(m, dir, fds', o)
    {
      PendingBut(m, dir, fds, fdi, o);
    }
    if !sound {
      var d, o := Disk(g, Meaning(v, dir0)), ObjectId(fds0[fdi].objId);
      var m :| AllFiles(g, m) && NamesDiffer(Disk(g, m)) && Disk(g, m) == PutBytes(d, o, offset, buf, kept) && Harmed(g, m, w, loss, dir, fds, Hurt(w, loss, o));
      assert Harmed(g, m, w, loss, dir, fds', Hurt(w, loss, o));
    }
  }

  lemma PendingBut(m: Image, dir: Dir, fds: seq<Fd>, fdi: nat, o: int)
    requires fdi < |fds|
    ensures FdsBut(m, dir, fds, o) ==> FdsBut(m, dir, fds[fdi := fds[fdi].(pending := None)], o)
  {
    var fds' := fds[fdi := fds[fdi].(pending := None)];
    if FdsBut(m, dir, fds, o) {
      forall i | 0 <= i < |fds'| && ObjectId(fds'[i].objId) != o
        ensures FdOk(m, dir, fds'[i])
      {
        assert FdOk(m, dir, fds[i]);
      }
    }
  }

  lemma FollowedPlace(dir0: Dir, fds0: seq<Fd>, dir: Dir, fds: seq<Fd>, fdi: nat, len: nat)
    requires Followed(dir0, fds0, dir, fds, fdi, len) && fdi < |fds0|
    ensures |fds| == |fds0| && (MapsOk(dir0, fds0) ==> MapsOk(dir, fds))
    ensures Within(fds0[fdi], len) ==> fds[fdi].position == fds0[fdi].position && fds[fdi].pending == fds0[fdi].pending
  {
  }

  /** Writes to the file at a position inside it or at its end. */
  method StoreBytes(fs: Spiffs, fdi: nat, at: nat, buf: seq<int>, maxCandidates: nat, junk: int, ghost dir0: Dir)
    returns (res: Status, ghost kept: nat, ghost sound: bool, ghost loss: Loss, ghost dir: Dir)
    requires Ready(fs, fdi, dir0) && at <= |StoredBytes(fs, fdi, dir0)| && |buf| > 0 && maxCandidates > 0
    modifies fs
    ensures fs.Valid() && |fs.fds| == |old(fs.fds)| && fs.fds[fdi].objId == old(fs.fds)[fdi].objId
    ensures old(fs.Spare()) >= WriteNeed(fs.g, at, |buf|) ==> res == OK && fs.Spare() >= old(fs.Spare()) - WriteNeed(fs.g, at, |buf|)
    ensures WroteFile(fs.g, old(fs.flash), dir0, old(fs.fds), fdi, fs.flash, loss, dir, fs.fds, at, buf, kept, sound)
    ensures res == OK ==> Ready(fs, fdi, dir) && StoredBytes(fs, fdi, dir) == Written(old(StoredBytes(fs, fdi, dir0)), at, buf)
    ensures res == OK && Within(old(fs.fds)[fdi], Length(old(fs.fds)[fdi].size)) ==> fs.fds[fdi].position == old(fs.fds)[fdi].position && fs.fds[fdi].pending == old(fs.fds)[fdi].pending
  {
    hide Spiffs.Spare;
    hide WriteNeed;
    hide Linked;
    hide AllFiles;
    hide NamesDiffer;
    hide FdsOk;
    hide FreeSuffix;
    hide IsFile;
    hide Written;
    hide FileOf;
    hide MapsOk;
    hide Mapless;
    hide Harmed;
    hide FdsBut;
    hide Spoilt;
    StoredLength(fs, fdi, dir0);
    ghost var o := ObjectId(fs.fds[fdi].objId);
    var refused;
    res, refused, kept, sound, loss, dir := WriteFile(fs, fdi, at, buf, maxCandidates, junk, dir0);
    if res == OK {
      assert buf[..kept] == buf;
      StoredLength(fs, fdi, dir);
      FollowedPlace(dir0, old(fs.fds), dir, fs.fds, fdi, Length(old(fs.fds)[fdi].size));
    }
  }

  lemma StoredIs(fs: Spiffs, fdi: nat, dir: Dir)
    requires Ready(fs, fdi, dir)
    ensures fdi < |fs.fds| && fs.g.Valid() && StoredBytes(fs, fdi, dir) == FileOf(fs.g, Meaning(fs.flash, dir), ObjectId(fs.fds[fdi].objId)).bytes
  {
    hide MapsOk;
  }

  /** An open descriptor with its cache page, from the start of which bytes are pending. */
  class Descriptor {
    const fs: Spiffs
    const fdi: nat
    const direct: bool
    const append: bool
    const page: array<int>

    /** A descriptor as it is after opening: at the start of the file, nothing pending. */
    constructor (fs: Spiffs, fdi: nat, direct: bool, append: bool, page: array<int>, ghost dir: Dir)
      requires Ready(fs, fdi, dir) && page.Length > 0 && fs.fds[fdi].position == 0 && fs.fds[fdi].pending.None?
      ensures this.fs == fs && this.fdi == fdi && this.direct == direct && this.append == append && this.page == page
      ensures Valid(dir) && Logical(dir) == StoredBytes(fs, fdi, dir)
    {
      hide Ready;
      this.fs, this.fdi, this.direct, this.append, this.page := fs, fdi, direct, append, page;
      new;
      StoredLength(fs, fdi, dir);
    }

    function Position(): nat
      requires fdi < |fs.fds|
      reads fs
    {
      fs.fds[fdi].position
    }

    function Held(): Option<Pending>
      requires fdi < |fs.fds|
      reads fs
    {
      fs.fds[fdi].pending
    }

    /** The spare pages that writing back may need. */
    function Owed(): int
      requires fdi < |fs.fds| && fs.g.Valid()
      reads fs
    {
      if Held().Some? && Held().value.size > 0 then WriteNeed(fs.g, Held().value.offset, Held().value.size) else 0
    }

    lemma OwedLeast()
      requires fdi < |fs.fds| && fs.g.Valid()
      ensures Owed() >= 0
    {
      if Held().Some? && Held().value.size > 0 {
        NeedParts(fs.g, Held().value.offset, 0, Held().value.size);
      }
    }

    /** The bytes of the file as the user of the descriptor wrote them. */
    ghost function Logical(dir: Dir): seq<int>
      requires Ready(fs, fdi, dir)
      reads this, fs, page
    {
      StoredLength(fs, fdi, dir);
      Overlaid(StoredBytes(fs, fdi, dir), Held(), page[..])
    }

    /** What is pending fits in the cache page and into the file. */
    ghost predicate Fits(dir: Dir)
      reads this, fs, page
    {
      && Ready(fs, fdi, dir) && page.Length > 0 && fdi < |fs.fds|
      && (Held().Some? ==> !direct && 0 < Held().value.size <= page.Length && Held().value.offset <= |StoredBytes(fs, fdi, dir)|)
    }

    ghost predicate Valid(dir: Dir)
      reads this, fs, page
    {
      Fits(dir) && Position() <= |Logical(dir)|
    }

    /** Sets the position and what is pending. */
    method Set(position: nat, pending: Option<Pending>, ghost dir: Dir)
      requires Ready(fs, fdi, dir)
      modifies fs`fds
      ensures Ready(fs, fdi, dir) && StoredBytes(fs, fdi, dir) == old(StoredBytes(fs, fdi, dir))
      ensures fs.fds == old(fs.fds)[fdi := old(fs.fds)[fdi].(position := position, pending := pending)]
    {
      hide Linked;
      hide AllFiles;
      hide NamesDiffer;
      hide FdsOk;
      hide FreeSuffix;
      hide IsFile;
      hide FileOf;
      hide MapsOk;
      StoredLength(fs, fdi, dir);
      PlaceSet(fs.g, fs.flash, dir, fs.fds, fdi, fs.fds[fdi].(position := position, pending := pending));
      fs.fds := fs.fds[fdi := fs.fds[fdi].(position := position, pending := pending)];
    }

    /** How a write back that failed ended: as a failed write to the file does; and the pending bytes are
        forgotten. */
    ghost predicate Dropped(v: Flash, dir0: Dir, fds0: seq<Fd>, offset: nat, bytes: seq<int>, kept: nat, sound: bool, loss: Loss, dir: Dir)
      reads fs
    {
      && fs.g.Valid() && fdi < |fds0| == |fs.fds| && Held().None?
      && WroteFile(fs.g, v, dir0, fds0, fdi, fs.flash, loss, dir, fs.fds, offset, bytes, kept, sound)
    }

    /** Writes the pending bytes to the file and lets go of the cache page. */
    method Dump(maxCandidates: nat, junk: int, ghost dir0: Dir)
      returns (res: Status, ghost kept: nat, ghost sound: bool, ghost loss: Loss, ghost dir: Dir)
      requires Valid(dir0) && Held().Some? && maxCandidates > 0
      modifies fs
      ensures fdi < |fs.fds| && Held().None?
      ensures fs.Valid() && (old(fs.Spare()) >= old(Owed()) ==> res == OK && fs.Spare() >= old(fs.Spare()) - old(Owed()))
      ensures res == OK ==> Valid(dir) && Position() == old(Position()) && Logical(dir) == StoredBytes(fs, fdi, dir) == old(Logical(dir0))
      ensures res != OK ==>
        Dropped(old(fs.flash), dir0, old(fs.fds), old(Held()).value.offset, old(page[..Held().value.size]), kept, sound, loss, dir)
    {
      hide Spiffs.Spare;
      hide Spiffs.Valid;
      hide WriteNeed;
      hide Ready;
      hide StoredBytes;
      hide Written;
      hide WroteFile;
      KnownParts(dir0);
      KnownLength(dir0);
      ghost var v, fds0, bytes := fs.flash, fs.fds, page[..Held().value.size];
      var at, size := Held().value.offset, Held().value.size;
      assert page[..][..size] == page[..size];
      res, kept, sound, loss, dir := StoreBytes(fs, fdi, at, page[..size], maxCandidates, junk, dir0);
      ghost var fds1 := fs.fds;
      if res == OK {
        Set(fs.fds[fdi].position, None, dir);
      } else {
        fs.fds := fs.fds[fdi := fs.fds[fdi].(pending := None)];
        WroteOther(fs.g, v, dir0, fds0, fdi, fs.flash, loss, dir, fds1, at, bytes, kept, sound);
      }
    }

    /** Puts bytes into the cache page: they follow or overwrite pending ones. */
    method Gather(at: nat, buf: seq<int>, ghost dir: Dir)
      requires Fits(dir) && Held().Some?
      requires Held().value.offset <= at <= Held().value.offset + Held().value.size && at + |buf| <= Held().value.offset + page.Length
      modifies page, fs`fds
      ensures fdi < |fs.fds| && fs.fds == old(fs.fds)[fdi := old(fs.fds)[fdi].(pending := fs.fds[fdi].pending)]
      ensures Fits(dir) && Held().Some? && Position() == old(Position()) && StoredBytes(fs, fdi, dir) == old(StoredBytes(fs, fdi, dir))
      ensures at <= |old(Logical(dir))| && Logical(dir) == Written(old(Logical(dir)), at, buf)
    {
      GatherAt(Held().value.offset, Held().value.size, at, buf, dir);
    }

    /** As `Gather`, when `size` bytes are pending, or none are yet. */
    method GatherAt(offset: nat, size: nat, at: nat, buf: seq<int>, ghost dir: Dir)
      requires Ready(fs, fdi, dir) && page.Length > 0 && fdi < |fs.fds| && !direct && offset <= |StoredBytes(fs, fdi, dir)| && size <= page.Length
      requires offset <= at <= offset + size && at + |buf| <= offset + page.Length && size + |buf| > 0
      modifies page, fs`fds
      ensures fdi < |fs.fds| && fs.fds == old(fs.fds)[fdi := old(fs.fds)[fdi].(pending := fs.fds[fdi].pending)]
      ensures Fits(dir) && Held().Some? && Position() == old(Position()) && StoredBytes(fs, fdi, dir) == old(StoredBytes(fs, fdi, dir))
      ensures at <= |Written(old(StoredBytes(fs, fdi, dir)), offset, old(page[..size]))|
      ensures Logical(dir) == Written(Written(old(StoredBytes(fs, fdi, dir)), offset, old(page[..size])), at, buf)
    {
      hide Ready;
      hide StoredBytes;
      ghost var c, x := StoredBytes(fs, fdi, dir), page[..size];
      var start := at - offset;
      forall i | 0 <= i < |buf| {
        page[start + i] := buf[i];
      }
      var now := if start + |buf| > size then start + |buf| else size;
      assert page[..now] == Written(x, start, buf);
      Set(fs.fds[fdi].position, Some(Pending(offset, now)), dir);
      assert page[..][..now] == page[..now];
      WrittenTwice(c, offset, x, at, buf);
    }

    /** Gathers bytes in the cache page, a new one if there is none and one can be had. */
    method TryGather(at: nat, buf: seq<int>, room: bool, ghost dir: Dir) returns (gathered: bool)
      requires Fits(dir) && !direct && at <= |Logical(dir)| && 0 < |buf| < page.Length
      requires Held().Some? ==> Held().value.offset <= at <= Held().value.offset + Held().value.size && at + |buf| <= Held().value.offset + page.Length
      modifies page, fs`fds
      ensures fdi < |fs.fds| && fs.fds == old(fs.fds)[fdi := old(fs.fds)[fdi].(pending := fs.fds[fdi].pending)]
      ensures Fits(dir) && Position() == old(Position()) && StoredBytes(fs, fdi, dir) == old(StoredBytes(fs, fdi, dir))
      ensures gathered <==> room || old(Held()).Some?
      ensures gathered ==> Held().Some? && Logical(dir) == Written(old(Logical(dir)), at, buf)
      ensures !gathered ==> Held().None? && fs.fds == old(fs.fds) && Logical(dir) == old(Logical(dir))
    {
      hide Ready;
      hide StoredBytes;
      hide Written;
      gathered := true;
      KnownParts(dir);
      if Held().Some? {
        Gather(at, buf, dir);
      } else if room {
        WrittenNone(StoredBytes(fs, fdi, dir), at);
        GatherAt(at, 0, at, buf, dir);
      } else {
        gathered := false;
      }
    }

    /** Gathers bytes and moves the position behind them. */
    method WriteInto(at: nat, buf: seq<int>, room: bool, ghost dir: Dir) returns (gathered: bool)
      requires Valid(dir) && !direct && Position() <= at <= |Logical(dir)| && 0 < |buf| < page.Length
      requires Held().Some? ==> Held().value.offset <= at <= Held().value.offset + Held().value.size && at + |buf| <= Held().value.offset + page.Length
      modifies page, fs`fds
      ensures Valid(dir) && StoredBytes(fs, fdi, dir) == old(StoredBytes(fs, fdi, dir))
      ensures gathered <==> room || old(Held()).Some?
      ensures gathered ==> Held().Some? && Logical(dir) == Written(old(Logical(dir)), at, buf)
      ensures gathered ==> fs.fds == old(fs.fds)[fdi := old(fs.fds)[fdi].(position := old(Position()) + |buf|, pending := Held())]
      ensures !gathered ==> Held().None? && fs.fds == old(fs.fds) && Logical(dir) == old(Logical(dir))
    {
      hide Ready;
      hide StoredBytes;
      hide Written;
      ghost var c, fds0 := Logical(dir), fs.fds;
      gathered := TryGather(at, buf, room, dir);
      if gathered {
        WrittenAt(c, at, buf);
        KnownParts(dir);
        Set(fs.fds[fdi].position + |buf|, fs.fds[fdi].pending, dir);
      }
    }

    /** Where the next write goes: to the position, or to the end of the file when appending. */
    method Place(ghost dir: Dir) returns (at: nat)
      requires Valid(dir)
      modifies fs`fds
      ensures Valid(dir) && Logical(dir) == old(Logical(dir)) && Held() == old(Held()) && StoredBytes(fs, fdi, dir) == old(StoredBytes(fs, fdi, dir))
      ensures at == if append then |Logical(dir)| else Position()
      ensures fs.fds == old(fs.fds)[fdi := old(fs.fds)[fdi].(position := Position())]
      ensures fs.flash == old(fs.flash) && Position() <= at && Position() == if append then Length(old(fs.fds)[fdi].size) else old(Position())
    {
      hide Ready;
      hide StoredBytes;
      KnownLength(dir);
      var stored := Length(fs.fds[fdi].size);
      if append {
        Set(stored, fs.fds[fdi].pending, dir);
      }
      at := fs.fds[fdi].position;
      var held := fs.fds[fdi].pending;
      if append && held.Some? {
        at := if stored > held.value.offset + held.value.size then stored else held.value.offset + held.value.size;
      }
    }

    /** `len` bytes at `at` fit in with the pending ones in the cache page. */
    predicate FitsIn(at: nat, len: nat)
      requires fdi < |fs.fds| && Held().Some?
      reads fs
    {
      && !direct && len < page.Length
      && Held().value.offset <= at <= Held().value.offset + Held().value.size && at + len <= Held().value.offset + page.Length
    }

    /** Writes the pending bytes back if the next ones do not fit in with them. */
    method MakeWay(at: nat, len: nat, maxCandidates: nat, junk: int, ghost dir0: Dir)
      returns (res: Status, ghost kept: nat, ghost sound: bool, ghost loss: Loss, ghost dir: Dir)
      requires Valid(dir0) && maxCandidates > 0
      modifies fs
      ensures fdi < |fs.fds|
      ensures fs.Valid() && (old(fs.Spare()) >= old(Owed()) ==> res == OK && fs.Spare() >= old(fs.Spare()) - old(Owed()))
      ensures old(Held()).None? ==> res == OK && unchanged(fs) && dir == dir0
      ensures res == OK ==> Valid(dir) && Position() == old(Position()) && Logical(dir) == old(Logical(dir0))
      ensures old(Held()).Some? && old(FitsIn(at, len)) ==> res == OK && unchanged(fs) && dir == dir0
      ensures old(Held()).Some? && !old(FitsIn(at, len)) ==> Held().None?
      ensures res != OK ==> old(Held()).Some?
      ensures res != OK ==>
        Dropped(old(fs.flash), dir0, old(fs.fds), old(Held()).value.offset, old(page[..Held().value.size]), kept, sound, loss, dir)
    {
      hide Spiffs.Spare;
      hide Spiffs.Valid;
      hide WriteNeed;
      hide Ready;
      hide StoredBytes;
      hide Dropped;
      res, kept, sound, loss, dir := OK, 0, true, NoLoss, dir0;
      KnownParts(dir0);
      OwedLeast();
      var held := fs.fds[fdi].pending;
      if !direct {
        if len < page.Length {
          if held.Some? {
            if at < held.value.offset || at > held.value.offset + held.value.size || at + len > held.value.offset + page.Length {
              // boundary violation
              res, kept, sound, loss, dir := Dump(maxCandidates, junk, dir);
            }
          }
        } else if held.Some? {
          res, kept, sound, loss, dir := Dump(maxCandidates, junk, dir);
        }
      }
    }

    lemma KnownParts(dir: Dir)
      requires Fits(dir)
      ensures Ready(fs, fdi, dir) && fdi < |fs.fds| && fs.Valid() && !fs.cleaning && fs.g.Valid() && page.Length > 0
      ensures Held().Some? ==> !direct && 0 < Held().value.size <= page.Length && Held().value.offset <= |StoredBytes(fs, fdi, dir)|
    {
      hide Sound;
      hide MapsOk;
    }

    lemma KnownLength(dir: Dir)
      requires Fits(dir)
      ensures |StoredBytes(fs, fdi, dir)| == Length(fs.fds[fdi].size) && |Logical(dir)| == Limit(fs.fds[fdi])
      ensures Position() <= |Logical(dir)| ==> Within(fs.fds[fdi], Length(fs.fds[fdi].size)) && Sane(fs.fds[fdi])
    {
      hide Ready;
      hide StoredBytes;
      StoredLength(fs, fdi, dir);
    }

    /** A write to the file that failed: from medium `mid`, where the file held `c`. */
    ghost predicate Failed(mid: Flash, dirMid: Dir, fdsMid: seq<Fd>, c: seq<int>, at: nat, bytes: seq<int>, kept: nat, sound: bool, loss: Loss, dir: Dir)
      reads fs
    {
      && fs.g.Valid() && fdi < |fdsMid| && FileOf(fs.g, Meaning(mid, dirMid), ObjectId(fdsMid[fdi].objId)).bytes == c
      && WroteFile(fs.g, mid, dirMid, fdsMid, fdi, fs.flash, loss, dir, fs.fds, at, bytes, kept, sound)
    }

    /** Writes to the file when nothing is pending. */
    method WriteThrough(at: nat, buf: seq<int>, maxCandidates: nat, junk: int, ghost dir0: Dir)
      returns (res: Status, ghost kept: nat, ghost sound: bool, ghost loss: Loss, ghost dir: Dir)
      requires Valid(dir0) && Held().None? && at <= |Logical(dir0)| && Position() <= at && |buf| > 0 && maxCandidates > 0
      modifies fs
      ensures fdi < |fs.fds|
      ensures old(fs.Spare()) >= WriteNeed(fs.g, at, |buf|) ==> res == OK
      ensures res == OK ==> Valid(dir) && Held().None? && Logical(dir) == Written(old(Logical(dir0)), at, buf) && Position() == old(Position()) + |buf|
      ensures res != OK ==> Failed(old(fs.flash), dir0, old(fs.fds), old(Logical(dir0)), at, buf, kept, sound, loss, dir)
    {
      hide Spiffs.Spare;
      hide Spiffs.Valid;
      hide WriteNeed;
      hide Ready;
      hide StoredBytes;
      hide Written;
      hide WroteFile;
      hide Failed;
      hide FileOf;
      hide Meaning;
      KnownParts(dir0);
      KnownLength(dir0);
      NonePending(dir0);
      StoredIs(fs, fdi, dir0);
      ghost var mid, fdsMid := fs.flash, fs.fds;
      res, kept, sound, loss, dir := StoreBytes(fs, fdi, at, buf, maxCandidates, junk, dir0);
      if res == OK {
        StoredLength(fs, fdi, dir);
        Set(fs.fds[fdi].position + |buf|, fs.fds[fdi].pending, dir);
      } else {
        FailedNow(mid, dir0, fdsMid, at, buf, kept, sound, loss, dir);
      }
    }

    /** SPIFFS_write: small writes are gathered in the cache page when there is one (`room` tells
        whether one can be had), others go to the file. Either way it is a plain write to the bytes
        of the file as the user knows them, at the position of the descriptor, or at the end of
        them when it appends. Where it fails, the write back of the pending bytes failed, and those
        are forgotten; or, `late`, they were written back, and writing `buf` itself failed. */
    method Write(buf: seq<int>, room: bool, maxCandidates: nat, junk: int, ghost dir0: Dir)
      returns (res: Status, ghost late: bool, ghost mid: Flash, ghost dirMid: Dir, ghost fdsMid: seq<Fd>, ghost kept: nat, ghost sound: bool, ghost loss: Loss, ghost dir: Dir)
      requires Valid(dir0) && |buf| > 0 && maxCandidates > 0
      modifies fs, page
      ensures fdi < |fs.fds|
      ensures old(fs.Spare()) >= old(Owed()) + WriteNeed(fs.g, if append then |old(Logical(dir0))| else old(Position()), |buf|) ==> res == OK
      ensures res == OK ==>
        var at := if append then |old(Logical(dir0))| else old(Position());
        && Valid(dir) && Logical(dir) == Written(old(Logical(dir0)), at, buf)
        && Position() == (if append then Length(old(fs.fds)[fdi].size) else old(Position())) + |buf|
      ensures
        var at := if append then |old(Logical(dir0))| else old(Position());
        && (!direct && |buf| < page.Length && (if old(Held()).Some? then old(FitsIn(at, |buf|)) else room) ==>
             && res == OK && dir == dir0 && fs.flash == old(fs.flash) && StoredBytes(fs, fdi, dir) == old(StoredBytes(fs, fdi, dir0)) && Held().Some?
             && fs.fds == old(fs.fds)[fdi := old(fs.fds)[fdi].(position := Position(), pending := Held())])
      ensures res == OK && (direct || |buf| >= page.Length || (old(Held()).None? && !room)) ==> Held().None?
      ensures res != OK && !late ==> Held().None? && old(Held()).Some?
      ensures res != OK ==>
        if late then Failed(mid, dirMid, fdsMid, old(Logical(dir0)), if append then |old(Logical(dir0))| else old(Position()), buf, kept, sound, loss, dir)
        else Failed(mid, dirMid, fdsMid, old(StoredBytes(fs, fdi, dir0)), old(Held()).value.offset, old(page[..Held().value.size]), kept, sound, loss, dir)
      ensures res != OK && !late ==> mid == old(fs.flash) && dirMid == dir0
    {
      hide Spiffs.Spare;
      hide Spiffs.Valid;
      hide WriteNeed;
      hide Ready;
      hide StoredBytes;
      hide Written;
      hide Dropped;
      hide Failed;
      hide WroteFile;
      hide FileOf;
      hide Meaning;
      dir, late := dir0, false;
      KnownParts(dir);
      var at := Place(dir);
      KnownParts(dir);
      NeedParts(fs.g, at, 0, |buf|);
      mid, dirMid, fdsMid := fs.flash, dir, fs.fds;
      StoredIs(fs, fdi, dir);
      res, kept, sound, loss, dir := MakeWay(at, |buf|, maxCandidates, junk, dir);
      if res != OK {
        DroppedFailed(mid, dirMid, fdsMid, old(Held()).value.offset, old(page[..Held().value.size]), kept, sound, loss, dir);
        return;
      }
      if !direct && |buf| < page.Length {
        var gathered := WriteInto(at, buf, room, dir);
        if gathered {
          return;
        }
      }
      late, mid, dirMid, fdsMid := true, fs.flash, dir, fs.fds;
      res, kept, sound, loss, dir := WriteThrough(at, buf, maxCandidates, junk, dir);
    }

    lemma NonePending(dir: Dir)
      requires Fits(dir) && Held().None?
      ensures Logical(dir) == StoredBytes(fs, fdi, dir)
    {
    }

    lemma FailedNow(mid: Flash, dirMid: Dir, fdsMid: seq<Fd>, at: nat, bytes: seq<int>, kept: nat, sound: bool, loss: Loss, dir: Dir)
      requires fs.g.Valid() && fdi < |fdsMid| && WroteFile(fs.g, mid, dirMid, fdsMid, fdi, fs.flash, loss, dir, fs.fds, at, bytes, kept, sound)
      ensures Failed(mid, dirMid, fdsMid, FileOf(fs.g, Meaning(mid, dirMid), ObjectId(fdsMid[fdi].objId)).bytes, at, bytes, kept, sound, loss, dir)
    {
      hide WroteFile;
    }

    lemma DroppedFailed(mid: Flash, dirMid: Dir, fdsMid: seq<Fd>, at: nat, bytes: seq<int>, kept: nat, sound: bool, loss: Loss, dir: Dir)
      requires Dropped(mid, dirMid, fdsMid, at, bytes, kept, sound, loss, dir)
      ensures fs.g.Valid() && fdi < |fdsMid| && fdi < |fs.fds| && Held().None? && Failed(mid, dirMid, fdsMid, FileOf(fs.g, Meaning(mid, dirMid), ObjectId(fdsMid[fdi].objId)).bytes, at, bytes, kept, sound, loss, dir)
    {
      hide WroteFile;
    }

    /** SPIFFS_fflush: the file then holds what the user wrote. Where that fails, the pending bytes are
        forgotten all the same. */
    method Flush(maxCandidates: nat, junk: int, ghost dir0: Dir)
      returns (res: Status, ghost kept: nat, ghost sound: bool, ghost loss: Loss, ghost dir: Dir)
      requires Valid(dir0) && maxCandidates > 0
      modifies fs
      ensures fdi < |fs.fds| && Held().None?
      ensures fs.Valid() && (old(fs.Spare()) >= old(Owed()) ==> res == OK && fs.Spare() >= old(fs.Spare()) - old(Owed()))
      ensures res == OK ==> Valid(dir) && Position() == old(Position()) && Logical(dir) == StoredBytes(fs, fdi, dir) == old(Logical(dir0))
      ensures res != OK ==> old(Held()).Some?
      ensures res != OK ==>
        Dropped(old(fs.flash), dir0, old(fs.fds), old(Held()).value.offset, old(page[..Held().value.size]), kept, sound, loss, dir)
    {
      hide Spiffs.Spare;
      hide Spiffs.Valid;
      hide WriteNeed;
      hide Ready;
      hide StoredBytes;
      hide Dropped;
      res, kept, sound, loss, dir := OK, 0, true, NoLoss, dir0;
      KnownParts(dir0);
      OwedLeast();
      if !direct && fs.fds[fdi].pending.Some? {
        res, kept, sound, loss, dir := Dump(maxCandidates, junk, dir);
      }
    }

    /** SPIFFS_lseek to an absolute position: flushes, whatever that reports, and stops at the end of
        the file as the descriptor knows it. */
    method Seek(to: nat, maxCandidates: nat, junk: int, ghost dir0: Dir)
      returns (flushed: Status, res: Status, ghost dir: Dir)
      requires Valid(dir0) && maxCandidates > 0
      modifies fs
      ensures fdi < |fs.fds| && Held().None?
      ensures old(fs.Spare()) >= old(Owed()) ==> flushed == OK
      ensures if to <= Length(fs.fds[fdi].size) then res == OK && Position() == to else res == ERR_END_OF_OBJECT && Position() == Length(fs.fds[fdi].size)
      ensures flushed == OK ==> Valid(dir) && Logical(dir) == StoredBytes(fs, fdi, dir) == old(Logical(dir0)) && |Logical(dir)| == Length(fs.fds[fdi].size)
    {
      hide Spiffs.Spare;
      hide Spiffs.Valid;
      hide WriteNeed;
      hide Ready;
      hide StoredBytes;
      hide Dropped;
      ghost var kept, sound, loss;
      flushed, kept, sound, loss, dir := Flush(maxCandidates, junk, dir0);
      var length := Length(fs.fds[fdi].size);
      var position := if to > length then length else to;
      res := if to > length then ERR_END_OF_OBJECT else OK;
      if flushed == OK {
        KnownLength(dir);
        Set(position, fs.fds[fdi].pending, dir);
      } else {
        fs.fds := fs.fds[fdi := fs.fds[fdi].(position := position)];
      }
    }

    /** SPIFFS_read: flushes, and reads at the position. What is read is what the user wrote,
        except that nothing is read from a file of which nothing has been stored yet, even if its
        first bytes are pending: the end of the file is reported before the flush. The source goes
        on when the flush fails; here reading stops. */
    method Read(len: nat, maxCandidates: nat, junk: int, ghost dir0: Dir)
      returns (flushed: Status, res: Status, bytes: seq<int>, ghost dir: Dir)
      requires Valid(dir0) && maxCandidates > 0
      modifies fs
      ensures fdi < |fs.fds|
      ensures old(fs.Spare()) >= old(Owed()) ==> flushed == OK
      ensures flushed == OK ==> Valid(dir) && Logical(dir) == old(Logical(dir0)) && Position() == old(Position()) + |bytes|
      ensures flushed == OK ==> res == OK || res == ERR_END_OF_OBJECT
      ensures flushed == OK && len > 0 ==> (res == OK <==> old(fs.fds[fdi].size) >= 0 && old(Position()) < |old(Logical(dir0))|)
      ensures flushed == OK ==>
        var due := Slice(old(Logical(dir0)), old(Position()), len);
        bytes == (if old(fs.fds[fdi].size) < 0 then [] else due) && (bytes == due <==> old(fs.fds[fdi].size) >= 0 || due == [])
      ensures old(fs.fds[fdi].size) < 0 && len > 0 ==> flushed == OK && res == ERR_END_OF_OBJECT
    {
      hide Spiffs.Spare;
      hide Spiffs.Valid;
      hide WriteNeed;
      hide Ready;
      hide StoredBytes;
      hide Slice;
      hide Dropped;
      flushed, bytes, dir := OK, [], dir0;
      KnownParts(dir0);
      KnownLength(dir0);
      SliceLength(Logical(dir0), fs.fds[fdi].position, len);
      if fs.fds[fdi].size < 0 && len > 0 {
        return flushed, ERR_END_OF_OBJECT, bytes, dir;
      }
      ghost var kept, sound, loss;
      flushed, kept, sound, loss, dir := Flush(maxCandidates, junk, dir0);
      res := flushed;
      if flushed == OK {
        KnownLength(dir);
        var position := fs.fds[fdi].position;
        res, bytes := ReadBytes(fs, fdi, position, len, dir);
        SliceLength(StoredBytes(fs, fdi, dir), position, len);
        Set(position + |bytes|, fs.fds[fdi].pending, dir);
      }
    }
  }

  /** Opens a file and hands it to its user: at its start, with nothing pending, whatever the last user of
      the descriptor left. */
  method OpenNew(fs: Spiffs, path: seq<int>, create: bool, excl: bool, trunc: bool, direct: bool, append: bool, page: array<int>, width: nat, maxCandidates: nat, ghost dir0: Dir)
    returns (res: Status, d: Descriptor?, ghost loss: Loss, ghost hurt: int, ghost dir: Dir)
    requires fs.Valid() && !fs.cleaning && maxCandidates > 0 && IsString(path) && page.Length > 0
    requires Names.TopId(fs.g) - Names.MIN_ID <= width * 8 <= MAX_ID
    requires Sound(fs.g, fs.flash, dir0, fs.fds) && Mapless(fs.fds)
    requires forall i :: 0 <= i < |fs.fds| && fs.fds[i].fileNbr == 0 ==> fs.fds[i].pending.None?
    modifies fs
    ensures res == OK <==> d != null
    ensures d != null ==>
      && fresh(d) && d.fs == fs && d.page == page && d.direct == direct && d.append == append && d.Valid(dir) && d.Position() == 0 && d.Held().None?
      && var disk, o := Disk(fs.g, Meaning(fs.flash, dir)), ObjectId(fs.fds[d.fdi].objId);
         && o in disk && disk[o].name == path && d.Logical(dir) == disk[o].bytes
         && (trunc || !Api.Named(Disk(fs.g, Meaning(old(fs.flash), dir0)), path) ==> d.Logical(dir) == [])
    ensures |path| < fs.g.nameLen && FdLeft(old(fs.fds), true) && !(create && excl) && Api.Named(Disk(fs.g, Meaning(old(fs.flash), dir0)), path) && !trunc ==> d != null
    ensures |path| < fs.g.nameLen && FdLeft(old(fs.fds), true) && create && !Api.Named(Disk(fs.g, Meaning(old(fs.flash), dir0)), path) && old(fs.Spare()) >= Plenty(fs.g) && IdLeft(old(fs.flash).lu, width) ==> d != null
  {
    hide Spiffs.Valid;
    hide FdLeft;
    hide Spiffs.Spare;
    hide Spiffs.Drift;
    hide Plenty;
    hide Linked;
    hide AllFiles;
    hide NamesDiffer;
    hide FdsOk;
    hide IsFile;
    hide FileOf;
    hide Disk;
    hide Meaning;
    hide Quiet;
    hide Mapless;
    hide MapsOk;
    hide Spared;
    hide Crowded;
    hide IdLeft;
    d := null;
    ghost var fds0 := fs.fds;
    var fdi;
    res, fdi, loss, hurt, dir := Api.Open(fs, path, create, excl, trunc, width, maxCandidates, dir0);
    if res == OK {
      NewMaps(dir, fds0, fs.fds, fdi);
      StoredLength(fs, fdi, dir);
      d := new Descriptor(fs, fdi, direct, append, page, dir);
    }
  }

  lemma NewMaps(dir: Dir, fds0: seq<Fd>, fds: seq<Fd>, fdi: nat)
    requires Quiet(fds0, fds, fdi) && Mapless(fds0)
    ensures MapsOk(dir, fds)
  {
    forall i | 0 <= i < |fds|
      ensures MapOk(dir, fds[i])
    {
      assert fds[i].win.None?;
    }
  }

  lemma SliceLength(c: seq<int>, offset: nat, len: nat)
    requires offset <= |c|
    ensures offset + |Slice(c, offset, len)| <= |c| && (len == 0 ==> Slice(c, offset, len) == [])
  {
  }

  /** Reads from the file at a position inside it or at its end. */
  method ReadBytes(fs: Spiffs, fdi: nat, at: nat, len: nat, ghost dir: Dir) returns (res: Status, bytes: seq<int>)
    requires Ready(fs, fdi, dir) && at <= |StoredBytes(fs, fdi, dir)| && Within(fs.fds[fdi], Length(fs.fds[fdi].size))
    modifies fs`fds, fs`cursorBlock, fs`cursorEntry
    ensures Ready(fs, fdi, dir) && StoredBytes(fs, fdi, dir) == old(StoredBytes(fs, fdi, dir)) && |fs.fds| == |old(fs.fds)|
    ensures fs.fds[fdi].position == old(fs.fds)[fdi].position && fs.fds[fdi].pending == old(fs.fds)[fdi].pending && fs.fds[fdi].size == old(fs.fds)[fdi].size
    ensures (res == OK || res == ERR_END_OF_OBJECT) && bytes == Slice(StoredBytes(fs, fdi, dir), at, len)
    ensures res == OK <==> at < |StoredBytes(fs, fdi, dir)| || (len == 0 && fs.fds[fdi].size < 0)
  {
    hide Linked;
    hide AllFiles;
    hide NamesDiffer;
    hide FdsOk;
    hide FreeSuffix;
    hide IsFile;
    hide Slice;
    hide FileOf;
    hide Mapless;
    hide MapOk;
    hide Within;
    StoredLength(fs, fdi, dir);
    assert MapOk(dir, fs.fds[fdi]);
    res, bytes := ReadFile(fs, fdi, at, len, dir);
    StoredLength(fs, fdi, dir);
  }

  /** A descriptor that agrees with a sound medium is open for a well-formed file. */
  lemma OpenAgain(g: Geometry, fl: Flash, dir: Dir, fds: seq<Fd>, fdi: nat, o: int)
    requires Sound(g, fl, dir, fds) && Writer(fds, fdi, o)
    ensures OpenFile(g, Meaning(fl, dir), fds, fdi) && ObjectId(fds[fdi].objId) == o
  {
    hide Linked;
    hide NamesDiffer;
    hide IsFile;
    var m := Meaning(fl, dir);
    assert FdOk(m, dir, fds[fdi]);
    InIds(m, o);
  }

  /** Renames the file a descriptor is open for. What its user wrote stays, pending bytes included; the
      position stays if anything is stored, and goes back to 0 otherwise. */
  method RenameOpen(d: Descriptor, path: seq<int>, newPath: seq<int>, ghost dir0: Dir) returns (res: Status, ghost dir: Dir)
    requires d.Valid(dir0) && IsString(path) && IsString(newPath)
    requires var disk := Disk(d.fs.g, Meaning(d.fs.flash, dir0)); forall a :: a in disk && disk[a].name == path ==> a == ObjectId(d.fs.fds[d.fdi].objId)
    modifies d.fs
    ensures d.fdi < |d.fs.fds|
    ensures res == OK ==>
      && d.Valid(dir) && d.Logical(dir) == old(d.Logical(dir0)) && d.Held() == old(d.Held())
      && d.fs.fds[d.fdi].size == (if old(Length(d.fs.fds[d.fdi].size)) == 0 then NONE else old(d.fs.fds[d.fdi].size))
      && d.Position() == (if old(Length(d.fs.fds[d.fdi].size)) == 0 then 0 else old(d.Position()))
  {
    hide Linked;
    hide AllFiles;
    hide NamesDiffer;
    hide FdsOk;
    hide FreeSuffix;
    hide IsFile;
    hide FileOf;
    hide MapsOk;
    hide Mapless;
    hide EventFd;
    hide Meaning;
    hide Disk;
    hide Quiet;
    hide Written;
    d.KnownLength(dir0);
    StoredLength(d.fs, d.fdi, dir0);
    ghost var fds0, o := d.fs.fds, ObjectId(d.fs.fds[d.fdi].objId);
    ghost var renamed, fdi, dst;
    res, renamed, fdi, dst, dir := Api.Rename(d.fs, path, newPath, dir0);
    QuietLength(fds0, d.fs.fds);
    if res == OK {
      RenamePosition(fds0[d.fdi], IndexId(o), dst);
      EventFields(fds0[d.fdi], IxHeaderUpdated, IndexId(o), 0, dst, WordOf(Length(fds0[d.fdi].size)));
      OpenAgain(d.fs.g, d.fs.flash, dir, d.fs.fds, d.fdi, o);
      StoredLength(d.fs, d.fdi, dir);
    }
  }

  lemma QuietLength(fds0: seq<Fd>, fds: seq<Fd>)
    requires Quiet(fds0, fds, NONE)
    ensures |fds| == |fds0|
  {
  }

  /** Bytes are written that fit into the cache page, to an empty file; before they are stored, the
      file is renamed. The position is back at 0 then, and reading there finds nothing, although the
      file, as its user wrote it, begins with those bytes. */
  method ReadMissesPending(d: Descriptor, path: seq<int>, newPath: seq<int>, buf: seq<int>, maxCandidates: nat, junk: int, ghost dir0: Dir)
    returns (renamed: Status, bytes: seq<int>, ghost dir: Dir)
    requires d.Valid(dir0) && maxCandidates > 0 && IsString(path) && IsString(newPath)
    requires d.fs.fds[d.fdi].size < 0 && d.Position() == 0 && d.Held().None? && !d.direct && !d.append && 0 < |buf| < d.page.Length
    requires var disk := Disk(d.fs.g, Meaning(d.fs.flash, dir0)); forall a :: a in disk && disk[a].name == path ==> a == ObjectId(d.fs.fds[d.fdi].objId)
    modifies d.fs, d.page
    ensures d.fdi < |d.fs.fds|
    ensures renamed == OK ==> d.Valid(dir) && d.Logical(dir) == buf && d.Position() == 0 && bytes == [] != Slice(d.Logical(dir), 0, |buf|)
  {
    hide Ready;
    hide StoredBytes;
    hide Disk;
    d.KnownParts(dir0);
    d.KnownLength(dir0);
    var res, flushed;
    ghost var late, mid, dirMid, fdsMid, kept, sound, loss;
    res, late, mid, dirMid, fdsMid, kept, sound, loss, dir := d.Write(buf, true, maxCandidates, junk, dir0);
    bytes := [];
    renamed, dir := RenameOpen(d, path, newPath, dir);
    if renamed == OK {
      flushed, res, bytes, dir := d.Read(|buf|, maxCandidates, junk, dir);
    }
  }
}
