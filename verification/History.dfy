/** Whole histories of calls and remounts: the medium is a finite map from names to bytes. */
module History {
  import opened Words
  import opened Layout
  import opened Medium
  import opened Directory
  import opened Tally
  import opened Store
  import opened Collector
  import opened Files
  import opened Appending
  import opened FileSystem
  import opened Names
  import opened Maps
  import opened Api
  import Crash
  import FileIO
  import Reclaim
  import Following
  import Mount

  type Tree = map<seq<int>, seq<int>>

  /** What users do. Writing and reading open the file by name and close it again; opening by itself may
      create the file, or truncate it, and closes it again too. */
  datatype Call =
    | Creat(path: seq<int>)
    | Write(path: seq<int>, offset: nat, buf: seq<int>)
    | Read(path: seq<int>, offset: nat, len: nat)
    | Open(path: seq<int>, create: bool, excl: bool, trunc: bool)
    | Remove(path: seq<int>)
    | Rename(path: seq<int>, to: seq<int>)
    | Remount

  /** How a call ended. Done: it took place; `out` are the bytes it read. Refused: there is no such
      file, or there is one already, or a name is too long; nothing changed. Busy: there was no
      descriptor to be had, or no room; nothing changed. Failed: a truncation was refused for want of
      room, or it, a write or a collection stopped in the middle. */
  datatype Answer = Done(out: seq<int>) | Refused | Busy | Failed

  /** Paths are C strings; there are no empty writes. */
  predicate Legal(c: Call) {
    match c
    case Creat(p) => IsString(p)
    case Write(p, _, buf) => IsString(p) && |buf| > 0
    case Read(p, _, _) => IsString(p)
    case Open(p, _, _, _) => IsString(p)
    case Remove(p) => IsString(p)
    case Rename(p, to) => IsString(p) && IsString(to)
    case Remount => true
  }

  /** What a call makes of the files, names being shorter than `len`; None if it must be refused. */
  function Effect(len: nat, t: Tree, c: Call): Option<Tree> {
    match c
    case Creat(p) => if |p| >= len || p in t then None else Some(t[p := []])
    case Write(p, off, buf) => if p in t && |p| < len then Some(t[p := FileIO.Written(t[p], FileIO.WriteAt(off, |t[p]|), buf)]) else None
    case Read(p, _, _) => if p in t && |p| < len then Some(t) else None
    case Open(p, create, excl, trunc) =>
      if |p| >= len || (if p in t then create && excl else !create) then None
      else if p in t && !trunc then Some(t)
      else Some(t[p := []])
    case Remove(p) => if p in t && |p| < len then Some(t - {p}) else None
    case Rename(p, to) => if p in t && to !in t && |p| < len && |to| < len then Some((t - {p})[to := t[p]]) else None
    case Remount => Some(t)
  }

  /** What a call reads. */
  function Output(t: Tree, c: Call): seq<int> {
    if c.Read? && c.path in t then Slice(t[c.path], c.offset, c.len) else []
  }

  /** What a failed call leaves when it leaves everything in order: of a write, the first `kept` bytes. */
  function Partial(t: Tree, c: Call, kept: nat): Tree {
    if c.Write? && c.path in t && kept <= |c.buf| then t[c.path := FileIO.Written(t[c.path], FileIO.WriteAt(c.offset, |t[c.path]|), c.buf[..kept])] else t
  }

  /** Files by name. */
  ghost function TreeOf(d: map<int, File>): (t: Tree)
    requires NamesDiffer(d)
  {
    map o | o in d :: d[o].name := d[o].bytes
  }

  /** A file is in the tree by its name. */
  lemma InTree(d: map<int, File>, o: int)
    requires NamesDiffer(d) && o in d
    ensures d[o].name in TreeOf(d) && TreeOf(d)[d[o].name] == d[o].bytes
  {
  }

  /** A name in the tree is that of a file. */
  lemma OfTree(d: map<int, File>, p: seq<int>) returns (o: int)
    requires NamesDiffer(d) && p in TreeOf(d)
    ensures o in d && d[o].name == p
  {
    o :| o in d && d[o].name == p;
  }

  /** A map that has every file by its name, and nothing else, is the tree. */
  lemma TreeIs(d: map<int, File>, t: Tree)
    requires NamesDiffer(d)
    requires forall o :: o in d ==> d[o].name in t && t[d[o].name] == d[o].bytes
    requires forall p :: p in t ==> exists o :: o in d && d[o].name == p
    ensures TreeOf(d) == t
  {
    forall p | p in t
      ensures p in TreeOf(d) && TreeOf(d)[p] == t[p]
    {
      var o :| o in d && d[o].name == p;
      InTree(d, o);
    }
    forall p | p in TreeOf(d)
      ensures p in t
    {
      var o := OfTree(d, p);
    }
  }

  lemma TreePut(d: map<int, File>, o: int, f: File)
    requires NamesDiffer(d) && forall a :: a in d && a != o ==> d[a].name != f.name
    ensures NamesDiffer(d[o := f])
    ensures TreeOf(d[o := f]) == (if o in d then TreeOf(d) - {d[o].name} else TreeOf(d))[f.name := f.bytes]
  {
    hide TreeOf;
    var d', t := d[o := f], TreeOf(d);
    var u := (if o in d then t - {d[o].name} else t)[f.name := f.bytes];
    forall p | p in u
      ensures exists a :: a in d' && d'[a].name == p
    {
      if p == f.name {
        assert o in d' && d'[o].name == p;
      } else {
        var a := OfTree(d, p);
        assert a in d' && d'[a].name == p;
      }
    }
    forall a | a in d'
      ensures d'[a].name in u && u[d'[a].name] == d'[a].bytes
    {
      if a != o {
        InTree(d, a);
      }
    }
    TreeIs(d', u);
  }

  /** A file gets other bytes. */
  lemma TreeSet(d: map<int, File>, o: int, bytes: seq<int>)
    requires NamesDiffer(d) && o in d
    ensures NamesDiffer(d[o := File(d[o].name, bytes)])
    ensures d[o].name in TreeOf(d) && TreeOf(d)[d[o].name] == d[o].bytes
    ensures TreeOf(d[o := File(d[o].name, bytes)]) == TreeOf(d)[d[o].name := bytes]
  {
    hide TreeOf;
    InTree(d, o);
    TreePut(d, o, File(d[o].name, bytes));
    assert (TreeOf(d) - {d[o].name})[d[o].name := bytes] == TreeOf(d)[d[o].name := bytes];
  }

  lemma TreeDrop(d: map<int, File>, o: int)
    requires NamesDiffer(d) && o in d
    ensures NamesDiffer(d - {o}) && TreeOf(d - {o}) == TreeOf(d) - {d[o].name}
  {
    hide TreeOf;
    var d', t := d - {o}, TreeOf(d);
    var u := t - {d[o].name};
    forall p | p in u
      ensures exists a :: a in d' && d'[a].name == p
    {
      var a := OfTree(d, p);
      assert a in d' && d'[a].name == p;
    }
    forall a | a in d'
      ensures d'[a].name in u && u[d'[a].name] == d'[a].bytes
    {
      InTree(d, a);
    }
    TreeIs(d', u);
  }

  /** A name is in the tree exactly if a file has it. */
  lemma TreeHas(d: map<int, File>, p: seq<int>)
    requires NamesDiffer(d)
    ensures p in TreeOf(d) <==> exists o :: o in d && d[o].name == p
  {
    if p in TreeOf(d) {
      var o := OfTree(d, p);
    }
    if o :| o in d && d[o].name == p {
      InTree(d, o);
    }
  }

  /** The files of a sound medium by name. */
  ghost function FilesOf(fs: Spiffs, dir: Dir): Tree
    requires fs.g.Valid() && NamesDiffer(Disk(fs.g, Meaning(fs.flash, dir)))
    reads fs
  {
    TreeOf(Disk(fs.g, Meaning(fs.flash, dir)))
  }

  /** Everything is in order, and no descriptor is open but `fdi`. */
  ghost predicate Resting(fs: Spiffs, dir: Dir, fdi: int)
    reads fs
  {
    && fs.Valid() && !fs.cleaning && Sound(fs.g, fs.flash, dir, fs.fds) && Mapless(fs.fds)
    && forall i :: 0 <= i < |fs.fds| && i != fdi ==> fs.fds[i].fileNbr == 0
  }

  /** Between calls everything is in order. */
  ghost predicate AtRest(fs: Spiffs, dir: Dir)
    reads fs
  {
    Resting(fs, dir, NONE)
  }

  /** A call left object `hurt` not in order: it lost an index page, and some page of it is out of place;
      or it is no file of any length. Every other file is as it was among `d`, and every other object has
      all its pages in place. */
  ghost predicate Ruined(g: Geometry, d: map<int, File>, fl: Flash, loss: Loss, dir: Dir, hurt: int)
    requires g.Valid()
  {
    var m := Meaning(fl, dir);
    && RealLoss(fl, loss) && Linked(g, Mended(fl, loss), dir)
    && (forall a :: a in d && a != hurt ==> a in Disk(g, m) && Disk(g, m)[a] == d[a])
    && (forall a :: a != hurt ==> Intact(g, fl, dir, a))
    && if loss.Unstored? then hurt == Loser(fl, loss) && !Intact(g, fl, dir, hurt) else forall n: nat :: !IsFile(g, m, hurt, n)
  }

  /** What was harmed, by the names of the files. */
  lemma HarmedRuins(g: Geometry, m0: Image, fl: Flash, loss: Loss, dir: Dir, fds: seq<Fd>, hurt: int)
    requires g.Valid() && AllFiles(g, m0) && FileIO.Harmed(g, m0, fl, loss, dir, fds, hurt) && 1 <= hurt <= MAX_ID
    ensures Ruined(g, Disk(g, m0), fl, loss, dir, hurt)
  {
    hide Linked;
    hide IsFile;
    hide FileOf;
    hide RealLoss;
    hide Intact;
    var d, m := Disk(g, m0), Meaning(fl, dir);
    forall a | a in d && a != hurt
      ensures a in Disk(g, m) && Disk(g, m)[a] == d[a]
    {
      HarmedOthers(g, m0, fl, loss, dir, fds, hurt, a);
    }
  }

  /** After call `c` on files `t` one object is not in order, and all other files are as they were, but for
      the first bytes of a write. */
  ghost predicate Broken(fs: Spiffs, t: Tree, c: Call, loss: Loss, hurt: int, dir: Dir)
    requires fs.g.Valid()
    reads fs
  {
    && Effect(fs.g.nameLen, t, c) != None
    && exists d: map<int, File>, kept: nat :: NamesDiffer(d) && TreeOf(d) == Partial(t, c, kept) && Ruined(fs.g, d, fs.flash, loss, dir, hurt)
  }

  lemma BrokenIs(fs: Spiffs, t: Tree, c: Call, loss: Loss, hurt: int, dir: Dir, d: map<int, File>, kept: nat)
    requires fs.g.Valid() && Effect(fs.g.nameLen, t, c) != None
    requires NamesDiffer(d) && TreeOf(d) == Partial(t, c, kept) && Ruined(fs.g, d, fs.flash, loss, dir, hurt)
    ensures Broken(fs, t, c, loss, hurt, dir)
  {
    hide Ruined;
    hide NamesDiffer;
    hide TreeOf;
    hide Effect;
  }

  /** What is enough for call `c` to take place, if it is not to be refused: so many spare pages, a
      descriptor, an object id. */
  ghost predicate Enough(g: Geometry, t: Tree, c: Call, spare: int, fds: seq<Fd>, lu: seq<int>, width: nat)
    requires g.Valid() && Legal(c)
  {
    match c
    case Creat(_) => spare >= Plenty(g) && IdLeft(lu, width)
    case Write(p, off, buf) => FdLeft(fds, true) && (p in t ==> spare >= FileIO.WriteNeed(g, FileIO.WriteAt(off, |t[p]|), |buf|))
    case Read(_, _, _) => FdLeft(fds, true)
    case Open(p, _, _, trunc) => FdLeft(fds, true) && if p in t then trunc ==> spare >= TopIx(g, |t[p]|) + Plenty(g) + 1 else spare >= Plenty(g) && IdLeft(lu, width)
    case Remove(_) => FdLeft(fds, false)
    case Rename(_, _) => FdLeft(fds, false) && spare >= 1
    case Remount => true
  }

  /** `Enough` of a medium before call `c`. */
  ghost predicate Provided(fs: Spiffs, dir: Dir, c: Call, width: nat)
    requires AtRest(fs, dir) && Legal(c)
    reads fs
  {
    Enough(fs.g, FilesOf(fs, dir), c, fs.Spare(), fs.fds, fs.flash.lu, width)
  }

  /** Why call `c` could not take place just now: no descriptor could be had, or the medium is too full.
      Before the call there were descriptors `fds0` and lookup `lu0`, and `take0` tells whether a page could
      be had. */
  ghost predicate Hindered(fs: Spiffs, c: Call, fds0: seq<Fd>, lu0: seq<int>, take0: bool, width: nat)
    reads fs
  {
    match c
    case Creat(_) => Crowded(fs, lu0, width)
    case Write(_, _, buf) => !FdLeft(fds0, true) || !Reclaim.Holds(fs.g, fs.flash.lu, |buf| + fs.g.dps)
    case Read(_, _, _) => !FdLeft(fds0, true)
    case Open(_, create, _, _) => !FdLeft(fds0, true) || (create && Crowded(fs, lu0, width))
    case Remove(_) => !FdLeft(fds0, false)
    case Rename(_, _) => !FdLeft(fds0, false) || !take0
    case Remount => false
  }

  /** The answer to call `c`, made when the files were `t`, is right, and it left `u`. */
  ghost predicate Right(len: nat, t: Tree, c: Call, a: Answer, u: Tree) {
    match a
    case Done(out) => Effect(len, t, c) == Some(u) && out == Output(t, c)
    case Refused => Effect(len, t, c) == None && u == t
    case Busy => u == t
    case Failed => Effect(len, t, c) != None && exists kept: nat :: u == Partial(t, c, kept)
  }

  lemma RightPartial(len: nat, t: Tree, c: Call, u: Tree, kept: nat)
    requires Effect(len, t, c) != None && u == Partial(t, c, kept)
    ensures Right(len, t, c, Failed, u)
  {
  }

  /** A closed descriptor leaves nothing open. */
  lemma AllClosed(fs: Spiffs, dir: Dir, fds0: seq<Fd>, fdi: nat)
    requires fs.Valid() && !fs.cleaning && fs.g.Valid() && Linked(fs.g, fs.flash, dir) && AllFiles(fs.g, Meaning(fs.flash, dir)) && NamesDiffer(Disk(fs.g, Meaning(fs.flash, dir)))
    requires Mapless(fds0) && fdi < |fds0| && fs.fds == fds0[fdi := Returned(fds0[fdi], fds0[fdi].score)]
    requires forall i :: 0 <= i < |fds0| && i != fdi ==> fds0[i].fileNbr == 0
    ensures AtRest(fs, dir)
  {
    hide FreeSuffix;
    hide Linked;
    hide AllFiles;
    hide NamesDiffer;
    forall i | 0 <= i < |fs.fds|
      ensures fs.fds[i].fileNbr == 0 && fs.fds[i].win.None?
    {
      assert fds0[i].win.None?;
    }
  }

  /** Closes the one descriptor that is open. */
  method Close(fs: Spiffs, fdi: nat, ghost fds0: seq<Fd>, ghost dir: Dir)
    requires Resting(fs, dir, fdi) && fdi < |fs.fds| && Quiet(fds0, fs.fds, fdi)
    modifies fs`fds
    ensures AtRest(fs, dir) && Quiet(fds0, fs.fds, NONE) && |fs.fds| == |old(fs.fds)| && fs.fds[fdi].fileNbr == 0
  {
    hide Quiet;
    hide Linked;
    hide AllFiles;
    hide NamesDiffer;
    hide Mapless;
    hide Spiffs.Valid;
    ghost var fds1 := fs.fds;
    fs.fds := fs.fds[fdi := Returned(fs.fds[fdi], fs.fds[fdi].score)];
    AllClosed(fs, dir, fds1, fdi);
    QuietBack(fds0, fds1, fdi, fs.fds[fdi]);
  }

  lemma LengthOf(g: Geometry, fl: Flash, dir: Dir, fds: seq<Fd>, fdi: nat)
    requires g.Valid() && OpenFile(g, Meaning(fl, dir), fds, fdi)
    ensures var d, o := Disk(g, Meaning(fl, dir)), ObjectId(fds[fdi].objId);
      o in d && |d[o].bytes| == Length(fds[fdi].size)
  {
    hide Extent;
    var m, o := Meaning(fl, dir), ObjectId(fds[fdi].objId);
    FileHeader(g, m, o, Length(fds[fdi].size));
    InIds(m, o);
  }

  lemma RestingOn(fs: Spiffs, dir: Dir, fds0: seq<Fd>, fdi: int)
    requires fs.Valid() && !fs.cleaning && Sound(fs.g, fs.flash, dir, fs.fds) && Quiet(fds0, fs.fds, fdi)
    requires Mapless(fds0) && forall i :: 0 <= i < |fds0| ==> fds0[i].fileNbr == 0
    ensures Resting(fs, dir, fdi)
  {
    hide FreeSuffix;
    hide Linked;
    hide AllFiles;
    hide NamesDiffer;
    hide Mapless;
  }

  /** Opens a file that is there. */
  method OpenByName(fs: Spiffs, path: seq<int>, width: nat, maxCandidates: nat, ghost dir0: Dir)
    returns (answer: Answer, fdi: nat, ghost dir: Dir)
    requires AtRest(fs, dir0) && maxCandidates > 0 && TopId(fs.g) - MIN_ID <= width * 8 <= MAX_ID
    requires IsString(path)
    modifies fs
    ensures answer.Done? || answer == Refused || answer == Busy
    ensures Resting(fs, dir, if answer.Done? then fdi else NONE) && Disk(fs.g, Meaning(fs.flash, dir)) == Disk(fs.g, Meaning(old(fs.flash), dir0))
    ensures fs.Spare() == old(fs.Spare()) && (answer == Busy ==> !FdLeft(old(fs.fds), true))
    ensures Quiet(old(fs.fds), fs.fds, if answer.Done? then fdi else NONE)
    ensures answer == Refused ==> path !in FilesOf(fs, dir) || |path| >= fs.g.nameLen
    ensures answer.Done? ==>
      && |path| < fs.g.nameLen && OpenFile(fs.g, Meaning(fs.flash, dir), fs.fds, fdi)
      && var d, o := Disk(fs.g, Meaning(fs.flash, dir)), ObjectId(fs.fds[fdi].objId);
         o in d && d[o].name == path && |d[o].bytes| == Length(fs.fds[fdi].size)
  {
    hide FreeSuffix;
    hide CursorOk;
    hide All;
    hide FreeBlocks;
    hide ErasedFree;
    hide DeadMarked;
    hide Linked;
    hide FdsOk;
    hide Meaning;
    hide AllFiles;
    hide NamesDiffer;
    hide Disk;
    hide TreeOf;
    hide IsFile;
    hide Mapless;
    hide Ruined;
    hide Quiet;
    ghost var d, fds0 := Disk(fs.g, Meaning(fs.flash, dir0)), fs.fds;
    var res;
    ghost var loss, hurt;
    res, fdi, loss, hurt, dir := Api.Open(fs, path, false, false, false, width, maxCandidates, dir0);
    RestingOn(fs, dir, fds0, if res == OK then fdi else NONE);
    if res != OK {
      TreeHas(d, path);
      return if res == ERR_NOT_FOUND || |path| > fs.g.nameLen - 1 then Refused else Busy, fdi, dir0;
    }
    LengthOf(fs.g, fs.flash, dir, fs.fds, fdi);
    answer := Done([]);
  }

  lemma StayOpen(fds0: seq<Fd>, fds: seq<Fd>, fdi: nat)
    requires SameOpen(fds0, fds) && forall i :: 0 <= i < |fds0| && i != fdi ==> fds0[i].fileNbr == 0
    ensures forall i :: 0 <= i < |fds| && i != fdi ==> fds[i].fileNbr == 0
  {
  }

  /** Writes to the one open file at a position not behind its end, and closes it. */
  method WriteOpened(fs: Spiffs, path: seq<int>, fdi: nat, offset: nat, buf: seq<int>, maxCandidates: nat, junk: int, ghost dir0: Dir)
    returns (answer: Answer, ghost sound: bool, ghost loss: Loss, ghost hurt: int, ghost dir: Dir)
    requires Resting(fs, dir0, fdi) && maxCandidates > 0 && |buf| > 0 && |path| < fs.g.nameLen
    requires OpenFile(fs.g, Meaning(fs.flash, dir0), fs.fds, fdi)
    requires
      var d, o := Disk(fs.g, Meaning(fs.flash, dir0)), ObjectId(fs.fds[fdi].objId);
      o in d && d[o].name == path && |d[o].bytes| == Length(fs.fds[fdi].size)
    modifies fs
    ensures Quiet(old(fs.fds), fs.fds, NONE)
    ensures fdi < |fs.fds| && fs.fds[fdi].fileNbr == 0
    ensures answer == Done([]) || answer == Busy || answer == Failed
    ensures answer != Failed ==> sound
    ensures sound ==> AtRest(fs, dir) && Right(fs.g.nameLen, old(FilesOf(fs, dir0)), Write(path, offset, buf), answer, FilesOf(fs, dir))
    ensures !sound ==> Broken(fs, old(FilesOf(fs, dir0)), Write(path, offset, buf), loss, hurt, dir)
    ensures old(fs.Spare()) >= FileIO.WriteNeed(fs.g, FileIO.WriteAt(offset, Length(old(fs.fds)[fdi].size)), |buf|) ==> answer.Done?
    ensures answer == Busy ==> !Reclaim.Holds(fs.g, fs.flash.lu, |buf| + fs.g.dps)
  {
    hide FreeSuffix;
    hide CursorOk;
    hide All;
    hide FreeBlocks;
    hide ErasedFree;
    hide DeadMarked;
    hide Linked;
    hide FdsOk;
    hide Meaning;
    hide AllFiles;
    hide NamesDiffer;
    hide Disk;
    hide TreeOf;
    hide IsFile;
    hide Mapless;
    hide Ruined;
    hide FileIO.Written;
    hide FileIO.Harmed;
    hide FileIO.Hurt;
    hide Spoilt;
    hide SameOpen;
    hide Quiet;
    hide PutBytes;
    hide Broken;
    hide Partial;
    ghost var d, o, fds1 := Disk(fs.g, Meaning(fs.flash, dir0)), ObjectId(fs.fds[fdi].objId), fs.fds;
    var size := Length(fs.fds[fdi].size);
    hurt := NONE;
    var res, refused;
    ghost var kept;
    res, refused, kept, sound, loss, dir := WriteFile(fs, fdi, FileIO.WriteAt(offset, size), buf, maxCandidates, junk, dir0);
    StayOpen(fds1, fs.fds, fdi);
    OpenSame(fds1, fs.fds);
    ghost var fds2 := fs.fds;
    QuietOpen(fds1, fds2, fdi);
    QuietBack(fds1, fds2, fdi, Returned(fds2[fdi], fds2[fdi].score));
    fs.fds := fs.fds[fdi := Returned(fs.fds[fdi], fs.fds[fdi].score)];
    WrittenTree(fs.g.nameLen, d, o, path, offset, buf, kept);
    assert FileIO.WriteAt(FileIO.WriteAt(offset, size), size) == FileIO.WriteAt(offset, size);
    SameBytes(d, o, offset, buf, kept);
    if sound {
      AllClosed(fs, dir, fds2, fdi);
    } else {
      hurt := FileIO.Hurt(fs.flash, loss, o);
      SpoiltRuins(fs.g, PutBytes(d, o, offset, buf, kept), fs.flash, loss, dir, fds2, o);
      BrokenIs(fs, TreeOf(d), Write(path, offset, buf), loss, hurt, dir, PutBytes(d, o, offset, buf, kept), kept);
    }
    if res == OK {
      WholePartial(TreeOf(d), path, offset, buf);
      answer := Done([]);
    } else {
      answer := if refused then Busy else Failed;
      if sound && !refused {
        RightPartial(fs.g.nameLen, TreeOf(d), Write(path, offset, buf), FilesOf(fs, dir), kept);
      }
    }
  }

  /** A position behind the end of the file is its end. */
  lemma SameBytes(d: map<int, File>, o: int, offset: nat, buf: seq<int>, kept: nat)
    requires o in d && kept <= |buf|
    ensures PutBytes(d, o, FileIO.WriteAt(offset, |d[o].bytes|), buf, kept) == PutBytes(d, o, offset, buf, kept)
  {
  }

  lemma WholePartial(t: Tree, path: seq<int>, offset: nat, buf: seq<int>)
    requires path in t
    ensures forall len :: Effect(len, t, Write(path, offset, buf)) != None ==> Effect(len, t, Write(path, offset, buf)) == Some(Partial(t, Write(path, offset, buf), |buf|))
  {
    assert buf[..|buf|] == buf;
  }

  /** Opens a file, writes to it at a position not behind its end, and closes it. A write that finds no
      room and changes nothing is answered like a file system that is busy. */
  method WriteByName(fs: Spiffs, path: seq<int>, offset: nat, buf: seq<int>, width: nat, maxCandidates: nat, junk: int, ghost dir0: Dir)
    returns (answer: Answer, ghost sound: bool, ghost loss: Loss, ghost hurt: int, ghost dir: Dir)
    requires AtRest(fs, dir0) && maxCandidates > 0 && TopId(fs.g) - MIN_ID <= width * 8 <= MAX_ID
    requires IsString(path) && |buf| > 0
    modifies fs
    ensures Quiet(old(fs.fds), fs.fds, NONE)
    ensures answer != Failed ==> sound
    ensures sound ==> AtRest(fs, dir) && Right(fs.g.nameLen, old(FilesOf(fs, dir0)), Write(path, offset, buf), answer, FilesOf(fs, dir))
    ensures !sound ==> Broken(fs, old(FilesOf(fs, dir0)), Write(path, offset, buf), loss, hurt, dir)
    ensures old(Provided(fs, dir0, Write(path, offset, buf), width)) ==> answer.Done? || answer.Refused?
    ensures answer == Busy ==> Hindered(fs, Write(path, offset, buf), old(fs.fds), old(fs.flash).lu, old(fs.CanTake()), width)
  {
    hide FreeSuffix;
    hide CursorOk;
    hide All;
    hide FreeBlocks;
    hide ErasedFree;
    hide DeadMarked;
    hide Linked;
    hide FdsOk;
    hide Meaning;
    hide AllFiles;
    hide NamesDiffer;
    hide Disk;
    hide TreeOf;
    hide IsFile;
    hide Mapless;
    hide Ruined;
    hide FileIO.Written;
    hide FileIO.Harmed;
    hide FileIO.Hurt;
    hide SameOpen;
    hide Quiet;
    hide PutBytes;
    hide Broken;
    hide Partial;
    ghost var d, fds0 := Disk(fs.g, Meaning(fs.flash, dir0)), fs.fds;
    loss, hurt, sound := NoLoss, NONE, true;
    var fdi;
    answer, fdi, dir := OpenByName(fs, path, width, maxCandidates, dir0);
    if !answer.Done? {
      return;
    }
    InTree(d, ObjectId(fs.fds[fdi].objId));
    ghost var fds1 := fs.fds;
    answer, sound, loss, hurt, dir := WriteOpened(fs, path, fdi, offset, buf, maxCandidates, junk, dir);
    QuietJoin(fds0, fds1, fs.fds, fdi, false);
  }

  /** The files after the first bytes of a write. */
  lemma WrittenTree(len: nat, d: map<int, File>, o: int, path: seq<int>, offset: nat, buf: seq<int>, kept: nat)
    requires NamesDiffer(d) && o in d && d[o].name == path && |path| < len && kept <= |buf|
    ensures NamesDiffer(PutBytes(d, o, offset, buf, kept)) && TreeOf(PutBytes(d, o, offset, buf, kept)) == Partial(TreeOf(d), Write(path, offset, buf), kept)
    ensures path in TreeOf(d) && TreeOf(d)[path] == d[o].bytes && (kept == 0 ==> PutBytes(d, o, offset, buf, kept) == d)
    ensures Effect(len, TreeOf(d), Write(path, offset, buf)) != None
  {
    hide TreeOf;
    hide NamesDiffer;
    InTree(d, o);
    TreeSet(d, o, FileIO.Written(d[o].bytes, FileIO.WriteAt(offset, |d[o].bytes|), buf[..kept]));
    if kept == 0 {
      assert FileIO.Written(d[o].bytes, FileIO.WriteAt(offset, |d[o].bytes|), buf[..0]) == d[o].bytes;
    }
  }

  lemma SpoiltRuins(g: Geometry, d: map<int, File>, fl: Flash, loss: Loss, dir: Dir, fds: seq<Fd>, o: int)
    requires g.Valid() && Spoilt(g, d, fl, loss, dir, fds, FileIO.Hurt(fl, loss, o)) && 1 <= o <= MAX_ID
    ensures Ruined(g, d, fl, loss, dir, FileIO.Hurt(fl, loss, o))
  {
    hide Linked;
    hide RealLoss;
    hide Intact;
    hide IsFile;
    hide Ruined;
    hide AllFiles;
    hide NamesDiffer;
    hide Disk;
    var hurt := FileIO.Hurt(fl, loss, o);
    var m :| AllFiles(g, m) && NamesDiffer(Disk(g, m)) && Disk(g, m) == d && FileIO.Harmed(g, m, fl, loss, dir, fds, hurt);
    if loss.Unstored? {
      FileIO.LossHides(g, fl, loss, dir, fds);
    }
    HarmedRuins(g, m, fl, loss, dir, fds, hurt);
  }

  lemma OpenSame(a: seq<Fd>, b: seq<Fd>)
    requires SameOpen(a, b)
    ensures |b| == |a|
  {
  }

  /** Opens a file, reads from it, and closes it. */
  method ReadByName(fs: Spiffs, path: seq<int>, offset: nat, len: nat, width: nat, maxCandidates: nat, ghost dir0: Dir)
    returns (answer: Answer, ghost dir: Dir)
    requires AtRest(fs, dir0) && maxCandidates > 0 && TopId(fs.g) - MIN_ID <= width * 8 <= MAX_ID
    requires IsString(path)
    modifies fs
    ensures old(Provided(fs, dir0, Read(path, offset, len), width)) ==> answer.Done? || answer.Refused?
    ensures answer == Busy ==> Hindered(fs, Read(path, offset, len), old(fs.fds), old(fs.flash).lu, old(fs.CanTake()), width)
    ensures AtRest(fs, dir) && Right(fs.g.nameLen, old(FilesOf(fs, dir0)), Read(path, offset, len), answer, FilesOf(fs, dir))
    ensures Quiet(old(fs.fds), fs.fds, NONE)
    ensures answer != Failed
  {
    hide FreeSuffix;
    hide CursorOk;
    hide All;
    hide FreeBlocks;
    hide ErasedFree;
    hide DeadMarked;
    hide Linked;
    hide FdsOk;
    hide Meaning;
    hide AllFiles;
    hide NamesDiffer;
    hide Disk;
    hide TreeOf;
    hide IsFile;
    hide Mapless;
    hide Ruined;
    hide Slice;
    hide SameOpen;
    hide Quiet;
    ghost var d, fds0 := Disk(fs.g, Meaning(fs.flash, dir0)), fs.fds;
    var res, fdi, bytes;
    answer, fdi, dir := OpenByName(fs, path, width, maxCandidates, dir0);
    if !answer.Done? {
      return;
    }
    ghost var o, fds1 := ObjectId(fs.fds[fdi].objId), fs.fds;
    var size := Length(fs.fds[fdi].size);
    InTree(d, o);
    MaplessOk(dir, fds1, fdi);
    res, bytes := ReadFile(fs, fdi, if offset < size then offset else size, len, dir);
    StayOpen(fds1, fs.fds, fdi);
    FollowedMapless(dir, fds1, fs.fds, fdi, Length(fds1[fdi].size));
    SliceEnd(d[o].bytes, offset, len);
    ghost var fds2 := fs.fds;
    QuietOpen(fds1, fds2, fdi);
    QuietBack(fds1, fds2, fdi, Returned(fds2[fdi], fds2[fdi].score));
    fs.fds := fs.fds[fdi := Returned(fs.fds[fdi], fs.fds[fdi].score)];
    AllClosed(fs, dir, fds2, fdi);
    QuietJoin(fds0, fds1, fs.fds, fdi, false);
    answer := Done(bytes);
  }

  lemma MaplessOk(dir: Dir, fds: seq<Fd>, fdi: nat)
    requires Mapless(fds) && fdi < |fds|
    ensures MapOk(dir, fds[fdi])
  {
  }

  lemma FollowedMapless(dir: Dir, fds0: seq<Fd>, fds: seq<Fd>, fdi: nat, len: nat)
    requires Following.Followed(dir, fds0, dir, fds, fdi, len) && Mapless(fds0)
    ensures Mapless(fds) && |fds| == |fds0|
  {
  }

  lemma SliceEnd(c: seq<int>, offset: nat, len: nat)
    ensures Slice(c, if offset < |c| then offset else |c|, len) == Slice(c, offset, len)
  {
  }

  lemma TruncateRoom(g: Geometry, d: map<int, File>, path: seq<int>, spare: int)
    requires g.Valid() && NamesDiffer(d) && (path in TreeOf(d) ==> spare >= TopIx(g, |TreeOf(d)[path]|) + Plenty(g) + 1)
    ensures TruncateNeed(g, d, path, spare)
  {
    hide TreeOf;
    hide TopIx;
    forall a | a in d && d[a].name == path
      ensures TopIx(g, |d[a].bytes|) + Plenty(g) + 1 <= spare
    {
      InTree(d, a);
    }
  }

  /** What opening did, by the names of the files. */
  lemma OpenedTree(g: Geometry, d: map<int, File>, d': map<int, File>, path: seq<int>, create: bool, excl: bool, trunc: bool, o: int)
    requires NamesDiffer(d) && Opened(g, d, d', path, create, excl, trunc, o) && |path| < g.nameLen
    ensures NamesDiffer(d') && Effect(g.nameLen, TreeOf(d), Open(path, create, excl, trunc)) == Some(TreeOf(d'))
  {
    hide TreeOf;
    TreeHas(d, path);
    if path in TreeOf(d) {
      if trunc {
        TreeSet(d, o, []);
      }
    } else {
      TreePut(d, o, File(path, []));
    }
  }

  /** Looks whether there is such a file, opens it, or creates it, and closes it again. Only a truncation,
      or a collection, that stops in the middle leaves anything not in order. */
  method OpenAndClose(fs: Spiffs, path: seq<int>, create: bool, excl: bool, trunc: bool, width: nat, maxCandidates: nat, ghost dir0: Dir)
    returns (answer: Answer, ghost sound: bool, ghost loss: Loss, ghost hurt: int, ghost dir: Dir)
    requires AtRest(fs, dir0) && maxCandidates > 0 && TopId(fs.g) - MIN_ID <= width * 8 <= MAX_ID
    requires IsString(path)
    modifies fs
    ensures Quiet(old(fs.fds), fs.fds, NONE)
    ensures answer != Failed ==> sound
    ensures sound ==> AtRest(fs, dir) && Right(fs.g.nameLen, old(FilesOf(fs, dir0)), Open(path, create, excl, trunc), answer, FilesOf(fs, dir))
    ensures !sound ==> Broken(fs, old(FilesOf(fs, dir0)), Open(path, create, excl, trunc), loss, hurt, dir)
    ensures old(Provided(fs, dir0, Open(path, create, excl, trunc), width)) ==> answer.Done? || answer.Refused?
    ensures answer == Busy ==> Hindered(fs, Open(path, create, excl, trunc), old(fs.fds), old(fs.flash).lu, old(fs.CanTake()), width)
  {
    hide Lower;
    hide Spiffs.Valid;
    hide Spiffs.Drift;
    hide Spiffs.Spare;
    hide Plenty;
    hide Linked;
    hide FdsOk;
    hide Meaning;
    hide AllFiles;
    hide NamesDiffer;
    hide Disk;
    hide TreeOf;
    hide IsFile;
    hide Mapless;
    hide Ruined;
    hide Crowded;
    hide IdLeft;
    hide FdLeft;
    hide Quiet;
    hide FileIO.Harmed;
    hide TruncateNeed;
    hide Opened;
    hide TopIx;
    ghost var v, d, c := fs.flash, Disk(fs.g, Meaning(fs.flash, dir0)), Open(path, create, excl, trunc);
    var found, id, size := Stat(fs, path, dir0);
    TreeHas(d, path);
    ValidShape(fs);
    if trunc && path in TreeOf(d) && Provided(fs, dir0, c, width) {
      TruncateRoom(fs.g, d, path, fs.Spare());
    }
    ghost var fds0 := fs.fds;
    var res, fdi;
    res, fdi, loss, hurt, dir := Api.Open(fs, path, create, excl, trunc, width, maxCandidates, dir0);
    sound := res == OK || hurt == NONE;
    if res == OK {
      RestingOn(fs, dir, fds0, fdi);
      OpenedTree(fs.g, d, Disk(fs.g, Meaning(fs.flash, dir)), path, create, excl, trunc, ObjectId(fs.fds[fdi].objId));
      Close(fs, fdi, fds0, dir);
      return Done([]), sound, loss, hurt, dir;
    }
    answer :=
      if |path| > fs.g.nameLen - 1 || (if found == OK then create && excl else !create) then Refused
      else if res == ERR_OUT_OF_FILE_DESCS || (res == ERR_FULL && found != OK) then Busy
      else Failed;
    if sound {
      RestingOn(fs, dir, fds0, NONE);
      if answer == Failed {
        RightPartial(fs.g.nameLen, TreeOf(d), c, FilesOf(fs, dir), 0);
      }
    } else {
      HarmedRuins(fs.g, Meaning(v, dir0), fs.flash, loss, dir, fs.fds, hurt);
      BrokenIs(fs, TreeOf(d), c, loss, hurt, dir, d, 0);
    }
  }

  /** Looks whether there is such a file, and creates it. Only a collection that stops in the middle
      leaves anything not in order. */
  method CreateByName(fs: Spiffs, path: seq<int>, width: nat, maxCandidates: nat, ghost dir0: Dir)
    returns (answer: Answer, ghost sound: bool, ghost loss: Loss, ghost hurt: int, ghost dir: Dir)
    requires AtRest(fs, dir0) && maxCandidates > 0 && TopId(fs.g) - MIN_ID <= width * 8 <= MAX_ID
    requires IsString(path)
    modifies fs
    ensures Quiet(old(fs.fds), fs.fds, NONE)
    ensures answer != Failed ==> sound
    ensures sound ==> AtRest(fs, dir) && Right(fs.g.nameLen, old(FilesOf(fs, dir0)), Creat(path), answer, FilesOf(fs, dir))
    ensures !sound ==> loss.Unstored? && Broken(fs, old(FilesOf(fs, dir0)), Creat(path), loss, hurt, dir)
    ensures old(Provided(fs, dir0, Creat(path), width)) ==> answer.Done? || answer.Refused?
    ensures answer == Busy ==> Hindered(fs, Creat(path), old(fs.fds), old(fs.flash).lu, old(fs.CanTake()), width)
    ensures answer == Failed ==> Crowded(fs, old(fs.flash).lu, width) || Reclaim.Jammed(fs.g, old(fs.flash), dir0)
  {
    hide Lower;
    hide Reclaim.Jammed;
    hide FreeSuffix;
    hide CursorOk;
    hide All;
    hide FreeBlocks;
    hide ErasedFree;
    hide DeadMarked;
    hide Linked;
    hide FdsOk;
    hide Meaning;
    hide AllFiles;
    hide NamesDiffer;
    hide Disk;
    hide TreeOf;
    hide IsFile;
    hide Mapless;
    hide Ruined;
    hide Quiet;
    hide Survived;
    hide FileIO.Harmed;
    ghost var v, d, made := fs.flash, Disk(fs.g, Meaning(fs.flash, dir0)), 0;
    dir, sound, hurt := dir0, true, NONE;
    var found, id, size := Stat(fs, path, dir);
    ghost var fds0 := fs.fds;
    var res;
    res, made, loss, dir := Api.Creat(fs, path, width, maxCandidates, dir0);
    TreeHas(d, path);
    if found != ERR_NOT_FOUND {
      loss, dir := NoLoss, dir0;
      SoundSpared(fs.g, v, dir0, fds0);
      return Refused, sound, loss, hurt, dir;
    }
    if res != OK {
      hurt := Loser(fs.flash, loss);
      SurvivedSpared(fs.g, v, dir0, fds0, fs.flash, loss, dir, fs.fds);
      QuietOpen(fds0, fs.fds, NONE);
      sound := hurt == NONE;
      if sound {
        RestingOn(fs, dir, fds0, NONE);
        RightPartial(fs.g.nameLen, TreeOf(d), Creat(path), FilesOf(fs, dir), 0);
      } else {
        HarmedRuins(fs.g, Meaning(v, dir0), fs.flash, loss, dir, fs.fds, hurt);
        BrokenIs(fs, TreeOf(d), Creat(path), loss, hurt, dir, d, 0);
      }
      return if res == ERR_FULL then Busy else Failed, sound, loss, hurt, dir;
    }
    RestingOn(fs, dir, fds0, NONE);
    TreePut(d, made, File(path, []));
    answer := Done([]);
  }

  method RemoveByName(fs: Spiffs, path: seq<int>, ghost width: nat, ghost dir0: Dir)
    returns (answer: Answer, ghost dir: Dir)
    requires AtRest(fs, dir0) && IsString(path)
    modifies fs
    ensures Quiet(old(fs.fds), fs.fds, NONE)
    ensures answer != Failed && AtRest(fs, dir)
    ensures old(Provided(fs, dir0, Remove(path), width)) ==> answer.Done? || answer.Refused?
    ensures answer == Busy ==> Hindered(fs, Remove(path), old(fs.fds), old(fs.flash).lu, old(fs.CanTake()), width)
    ensures Right(fs.g.nameLen, old(FilesOf(fs, dir0)), Remove(path), answer, FilesOf(fs, dir))
  {
    hide FreeSuffix;
    hide CursorOk;
    hide All;
    hide FreeBlocks;
    hide ErasedFree;
    hide DeadMarked;
    hide Linked;
    hide FdsOk;
    hide Meaning;
    hide AllFiles;
    hide NamesDiffer;
    hide Disk;
    hide TreeOf;
    hide IsFile;
    hide Mapless;
    hide MapsOk;
    hide Quiet;
    ghost var d, o, fds0 := Disk(fs.g, Meaning(fs.flash, dir0)), 0, fs.fds;
    var res;
    res, o, dir := Api.Remove(fs, path, dir0);
    RestingOn(fs, dir, fds0, NONE);
    if res != OK {
      TreeHas(d, path);
      return if res == ERR_OUT_OF_FILE_DESCS then Busy else Refused, dir;
    }
    InTree(d, o);
    TreeDrop(d, o);
    answer := Done([]);
  }

  /** Looks the names up to see whether a file can be renamed. */
  method Renameable(fs: Spiffs, path: seq<int>, to: seq<int>, ghost dir: Dir) returns (can: bool)
    requires AtRest(fs, dir) && IsString(path) && IsString(to)
    modifies fs`cursorBlock, fs`cursorEntry
    ensures AtRest(fs, dir) && FilesOf(fs, dir) == old(FilesOf(fs, dir)) && fs.Spare() == old(fs.Spare())
    ensures can <==> Effect(fs.g.nameLen, FilesOf(fs, dir), Rename(path, to)) != None
  {
    hide FreeSuffix;
    hide CursorOk;
    hide All;
    hide FreeBlocks;
    hide ErasedFree;
    hide DeadMarked;
    hide Linked;
    hide FdsOk;
    hide Meaning;
    hide AllFiles;
    hide NamesDiffer;
    hide Disk;
    hide TreeOf;
    ghost var d := Disk(fs.g, Meaning(fs.flash, dir));
    var there, id, size := Stat(fs, path, dir);
    var taken, other, length := Stat(fs, to, dir);
    TreeHas(d, path);
    TreeHas(d, to);
    can := there == OK && taken == ERR_NOT_FOUND;
  }

  /** Looks the names up and renames. */
  method RenameByName(fs: Spiffs, path: seq<int>, to: seq<int>, ghost width: nat, ghost dir0: Dir)
    returns (answer: Answer, ghost dir: Dir)
    requires AtRest(fs, dir0) && IsString(path) && IsString(to)
    modifies fs
    ensures Quiet(old(fs.fds), fs.fds, NONE)
    ensures answer != Failed && AtRest(fs, dir)
    ensures old(Provided(fs, dir0, Rename(path, to), width)) ==> answer.Done? || answer.Refused?
    ensures answer == Busy ==> Hindered(fs, Rename(path, to), old(fs.fds), old(fs.flash).lu, old(fs.CanTake()), width)
    ensures Right(fs.g.nameLen, old(FilesOf(fs, dir0)), Rename(path, to), answer, FilesOf(fs, dir))
  {
    hide Lower;
    hide Spiffs.Valid;
    hide Spiffs.CanTake;
    hide Spiffs.Spare;
    hide FreeSuffix;
    hide CursorOk;
    hide All;
    hide FreeBlocks;
    hide ErasedFree;
    hide DeadMarked;
    hide Linked;
    hide FdsOk;
    hide Meaning;
    hide AllFiles;
    hide NamesDiffer;
    hide Disk;
    hide TreeOf;
    hide Spiffs.Drift;
    hide FdLeft;
    hide Crash.RenameWrites;
    hide IsFile;
    hide Mapless;
    hide MapsOk;
    hide Quiet;
    hide EventFd;
    ghost var d, o := Disk(fs.g, Meaning(fs.flash, dir0)), 0;
    var can := Renameable(fs, path, to, dir0);
    ghost var fds0 := fs.fds;
    var res;
    ghost var fdi, dst;
    res, o, fdi, dst, dir := Api.Rename(fs, path, to, dir0);
    RestingOn(fs, dir, fds0, NONE);
    if res != OK {
      TreeHas(d, path);
      TreeHas(d, to);
      return if can then Busy else Refused, dir;
    }
    InTree(d, o);
    TreeHas(d, to);
    TreePut(d, o, File(to, d[o].bytes));
    answer := Done([]);
  }

  /** A descriptor can be had, by name or not. */
  ghost predicate Handy(fds: seq<Fd>) {
    FdLeft(fds, true) && FdLeft(fds, false)
  }

  lemma NewHandy(fds: seq<Fd>)
    requires forall i :: 0 <= i < |fds| ==> fds[i].fileNbr == 0 && fds[i].score == 0
    ensures |fds| > 0 ==> Handy(fds)
  {
    if |fds| > 0 {
      assert fds[0].fileNbr == 0 && Sunk(fds[0], true) < NO_SCORE && Sunk(fds[0], false) < NO_SCORE;
    }
  }

  lemma QuietHandy(fds0: seq<Fd>, fds: seq<Fd>)
    requires Quiet(fds0, fds, NONE)
    ensures Handy(fds0) ==> Handy(fds)
  {
    hide FdLeft;
    QuietLeft(fds0, fds, true);
    QuietLeft(fds0, fds, false);
  }

  /** One call. Remounting makes a new object from what is on the medium. A call that fails may still
      leave everything in order (`sound`): then the files are as they were, but for the first bytes of
      a write. */
  method Do(fs: Spiffs, c: Call, width: nat, maxCandidates: nat, fdCount: nat, junk: int, ghost dir0: Dir)
    returns (answer: Answer, after: Spiffs, ghost sound: bool, ghost loss: Loss, ghost hurt: int, ghost dir: Dir)
    requires AtRest(fs, dir0) && Legal(c) && maxCandidates > 0 && TopId(fs.g) - MIN_ID <= width * 8 <= MAX_ID
    modifies fs
    ensures after == fs || fresh(after)
    ensures after.g == fs.g
    ensures (after == fs ==> Quiet(old(fs.fds), fs.fds, NONE)) && (after != fs && fdCount > 0 ==> Handy(after.fds))
    ensures answer != Failed ==> sound
    ensures sound ==> AtRest(after, dir) && Right(fs.g.nameLen, old(FilesOf(fs, dir0)), c, answer, FilesOf(after, dir))
    ensures !sound ==> after == fs && Broken(fs, old(FilesOf(fs, dir0)), c, loss, hurt, dir)
    ensures old(Provided(fs, dir0, c, width)) ==> answer.Done? || answer.Refused?
    ensures answer == Busy ==> after == fs && Hindered(fs, c, old(fs.fds), old(fs.flash).lu, old(fs.CanTake()), width)
  {
    hide Hindered;
    hide Quiet;
    hide Linked;
    hide Sound;
    hide Right;
    hide TreeOf;
    hide Disk;
    hide Provided;
    hide Spiffs.Spare;
    hide Spiffs.Drift;
    hide FreeSuffix;
    hide Mapless;
    hide Ruined;
    hide Effect;
    after, dir, sound, loss, hurt := fs, dir0, true, NoLoss, NONE;
    match c {
      case Creat(p) =>
        answer, sound, loss, hurt, dir := CreateByName(fs, p, width, maxCandidates, dir0);
      case Write(p, off, buf) =>
        answer, sound, loss, hurt, dir := WriteByName(fs, p, off, buf, width, maxCandidates, junk, dir0);
      case Read(p, off, len) =>
        answer, dir := ReadByName(fs, p, off, len, width, maxCandidates, dir0);
      case Open(p, create, excl, trunc) =>
        answer, sound, loss, hurt, dir := OpenAndClose(fs, p, create, excl, trunc, width, maxCandidates, dir0);
      case Remove(p) =>
        answer, dir := RemoveByName(fs, p, width, dir0);
      case Rename(p, to) =>
        answer, dir := RenameByName(fs, p, to, width, dir0);
      case Remount =>
        answer, after := Again(fs, fdCount, dir0);
    }
  }

  /** With a descriptor to be had, reading and removing are never put off. */
  lemma HandyAnswer(fs: Spiffs, c: Call, fds0: seq<Fd>, width: nat)
    requires Handy(fds0) && (c.Read? || c.Remove?)
    ensures forall lu, take :: !Hindered(fs, c, fds0, lu, take, width)
  {
  }

  method Again(fs: Spiffs, fdCount: nat, ghost dir: Dir) returns (answer: Answer, after: Spiffs)
    requires AtRest(fs, dir)
    ensures fresh(after) && after.g == fs.g && answer == Done([]) && AtRest(after, dir) && (fdCount > 0 ==> Handy(after.fds))
    ensures Right(fs.g.nameLen, FilesOf(fs, dir), Remount, answer, FilesOf(after, dir))
  {
    hide Handy;
    hide FreeSuffix;
    hide Linked;
    hide FdsOk;
    hide AllFiles;
    hide NamesDiffer;
    after := Mount.Mount(fs.g, fs.flash, fdCount, dir);
    NewHandy(after.fds);
    answer := Done([]);
  }

  // Histories.

  /** Files `trees[i]` are there before call `i`, and every answer is right for them. */
  ghost predicate Explained(len: nat, trees: seq<Tree>, calls: seq<Call>, answers: seq<Answer>) {
    && |trees| == |answers| + 1 <= |calls| + 1
    && forall i {:trigger answers[i]} :: 0 <= i < |answers| ==> Right(len, trees[i], calls[i], answers[i], trees[i + 1])
  }

  lemma ExplainedMore(len: nat, trees: seq<Tree>, calls: seq<Call>, answers: seq<Answer>, a: Answer, u: Tree)
    requires Explained(len, trees, calls, answers) && |answers| < |calls|
    requires Right(len, trees[|answers|], calls[|answers|], a, u)
    ensures Explained(len, trees + [u], calls, answers + [a])
  {
    hide Right;
    var more, longer := trees + [u], answers + [a];
    forall i | 0 <= i < |longer|
      ensures Right(len, more[i], calls[i], longer[i], more[i + 1])
    {
      if i < |answers| {
        assert longer[i] == answers[i] && more[i] == trees[i] && more[i + 1] == trees[i + 1];
      }
    }
  }

  /** As long as no call fails, calls and answers leave no choice what the files are. */
  lemma {:induction false} ExplainedOnce(len: nat, a: seq<Tree>, b: seq<Tree>, calls: seq<Call>, answers: seq<Answer>, i: nat)
    requires Explained(len, a, calls, answers) && Explained(len, b, calls, answers) && a[0] == b[0]
    requires i <= |answers| && Failed !in answers[..i]
    ensures a[i] == b[i]
  {
    hide Effect;
    hide Output;
    if i > 0 {
      ExplainedOnce(len, a, b, calls, answers, i - 1);
      assert answers[i - 1] in answers[..i];
      assert Right(len, a[i - 1], calls[i - 1], answers[i - 1], a[i]) && Right(len, b[i - 1], calls[i - 1], answers[i - 1], b[i]);
    }
  }

  /** Two histories, the second going on where the first ended, are one. */
  lemma ExplainedJoin(len: nat, a: seq<Tree>, calls: seq<Call>, answers: seq<Answer>, b: seq<Tree>, calls': seq<Call>, answers': seq<Answer>)
    requires Explained(len, a, calls, answers) && Explained(len, b, calls', answers') && b[0] == a[|answers|]
    ensures Explained(len, a + b[1..], calls[..|answers|] + calls', answers + answers')
  {
    hide Right;
    var t, c, r := a + b[1..], calls[..|answers|] + calls', answers + answers';
    forall i | 0 <= i < |r|
      ensures Right(len, t[i], c[i], r[i], t[i + 1])
    {
      var j := i - |answers|;
      if j < 0 {
        assert r[i] == answers[i] && c[i] == calls[i] && t[i] == a[i] && t[i + 1] == a[i + 1];
      } else {
        assert r[i] == answers'[j] && c[i] == calls'[j] && t[i] == b[j] && t[i + 1] == b[j + 1];
      }
    }
  }

  /** How a history ended: every call was made, or the last one made failed. Everything is in order,
      and the answers are explained; or the last call left a file not in order, that file is the only
      one, and the answers in front are explained. */
  ghost predicate Ended(fs: Spiffs, trees: seq<Tree>, calls: seq<Call>, answers: seq<Answer>, sound: bool, loss: Loss, hurt: int, dir: Dir)
    requires fs.g.Valid()
    reads fs
  {
    var n := |answers| - 1;
    && |answers| <= |calls|
    && (|answers| == |calls| || (n >= 0 && answers[n] == Failed))
    && (n >= 0 ==> Failed !in answers[..n])
    && (sound ==> Explained(fs.g.nameLen, trees, calls, answers) && AtRest(fs, dir) && FilesOf(fs, dir) == trees[n + 1])
    && (!sound ==>
         && n >= 0 && answers[n] == Failed && Explained(fs.g.nameLen, trees, calls, answers[..n])
         && Broken(fs, trees[n], calls[n], loss, hurt, dir))
  }

  /** Any history of calls, remounts among them, from a state in order on. The answers and the files are
      those of a finite map from names to bytes: every call takes place as a whole, or is refused or
      finds no room and changes nothing; every read gives what was written; and a call that must be
      refused never fails. A call that fails is the last; if it left everything in order the files
      are as before, but for the first bytes of a write, and another history can go on from there
      (`ExplainedJoin`). */
  method RunFrom(start: Spiffs, calls: seq<Call>, width: nat, maxCandidates: nat, fdCount: nat, junk: int, ghost dir0: Dir)
    returns (answers: seq<Answer>, fs: Spiffs, ghost trees: seq<Tree>, ghost sound: bool, ghost loss: Loss, ghost hurt: int, ghost dir: Dir)
    requires AtRest(start, dir0) && maxCandidates > 0 && TopId(start.g) - MIN_ID <= width * 8 <= MAX_ID
    requires forall i :: 0 <= i < |calls| ==> Legal(calls[i])
    modifies start
    ensures fs.g == start.g && (fs == start || fresh(fs))
    ensures |trees| > 0 && trees[0] == old(FilesOf(start, dir0))
    ensures Ended(fs, trees, calls, answers, sound, loss, hurt, dir)
    ensures Handy(old(start.fds)) && fdCount > 0 ==> forall i :: 0 <= i < |answers| && (calls[i].Read? || calls[i].Remove?) ==> answers[i] != Busy
  {
    hide Quiet;
    hide Handy;
    hide Linked;
    hide NamesDiffer;
    hide AllFiles;
    hide FdsOk;
    hide Effect;
    hide TreeOf;
    hide Disk;
    hide Ruined;
    hide Right;
    hide Mapless;
    hide FreeSuffix;
    var g := start.g;
    fs, dir, sound, loss, hurt := start, dir0, true, NoLoss, NONE;
    answers, trees := [], [FilesOf(start, dir0)];
    while |answers| < |calls|
      invariant |answers| <= |calls| && fs.g == g && (fs == start || fresh(fs)) && Failed !in answers && sound
      invariant |trees| > 0 && trees[0] == old(FilesOf(start, dir0)) && Explained(g.nameLen, trees, calls, answers)
      invariant AtRest(fs, dir) && FilesOf(fs, dir) == trees[|answers|]
      invariant Handy(old(start.fds)) && fdCount > 0 ==> Handy(fs.fds) && forall i :: 0 <= i < |answers| && (calls[i].Read? || calls[i].Remove?) ==> answers[i] != Busy
      decreases |calls| - |answers|
    {
      ghost var d, before, was, fds0 := Disk(g, Meaning(fs.flash, dir)), answers, fs, fs.fds;
      var answer;
      answer, fs, sound, loss, hurt, dir := Do(fs, calls[|answers|], width, maxCandidates, fdCount, junk, dir);
      if fs == was {
        QuietHandy(fds0, fs.fds);
      }
      if Handy(fds0) && (calls[|answers|].Read? || calls[|answers|].Remove?) {
        HandyAnswer(fs, calls[|answers|], fds0, width);
      }
      answers := answers + [answer];
      assert answers[..|answers| - 1] == before;
      if sound {
        ExplainedMore(g.nameLen, trees, calls, before, answer, FilesOf(fs, dir));
        trees := trees + [FilesOf(fs, dir)];
      }
      if answer == Failed {
        return;
      }
    }
    assert |answers| > 0 ==> Failed !in answers[..|answers| - 1];
  }

  /** Any history of calls on a freshly formatted medium. */
  method Run(g: Geometry, blank: Flash, calls: seq<Call>, width: nat, maxCandidates: nat, fdCount: nat, junk: int)
    returns (answers: seq<Answer>, fs: Spiffs, ghost trees: seq<Tree>, ghost sound: bool, ghost loss: Loss, ghost hurt: int, ghost dir: Dir)
    requires Shaped(g, blank) && maxCandidates > 0 && TopId(g) - MIN_ID <= width * 8 <= MAX_ID
    requires forall i :: 0 <= i < |calls| ==> Legal(calls[i])
    ensures fs.g == g && |trees| > 0 && trees[0] == map[]
    ensures Ended(fs, trees, calls, answers, sound, loss, hurt, dir)
    ensures fdCount > 0 ==> forall i :: 0 <= i < |answers| && (calls[i].Read? || calls[i].Remove?) ==> answers[i] != Busy
  {
    hide Linked;
    hide NamesDiffer;
    hide AllFiles;
    hide FdsOk;
    hide TreeOf;
    hide Disk;
    hide Ended;
    hide Resting;
    hide Handy;
    var start := Fresh(g, blank, fdCount);
    answers, fs, trees, sound, loss, hurt, dir := RunFrom(start, calls, width, maxCandidates, fdCount, junk, map[]);
  }

  method Fresh(g: Geometry, blank: Flash, fdCount: nat) returns (fs: Spiffs)
    requires Shaped(g, blank)
    ensures fresh(fs) && fs.g == g && AtRest(fs, map[]) && FilesOf(fs, map[]) == map[]
    ensures fdCount > 0 ==> Handy(fs.fds)
  {
    hide Handy;
    hide FreeSuffix;
    hide Linked;
    hide FdsOk;
    hide AllFiles;
    var fl := Mount.Format(g, blank);
    Mount.EmptyMedium(g, fl);
    fs := Mount.Mount(g, fl, fdCount, map[]);
    NewHandy(fs.fds);
  }
}
