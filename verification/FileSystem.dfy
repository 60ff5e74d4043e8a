/** The file system as its users see it: named byte sequences. */
module FileSystem {
  import opened Words
  import opened Layout
  import opened Medium
  import opened Directory
  import opened Store
  import opened Collector
  import opened Files

  /** The string in a stored name: the words in front of the first zero. */
  function CStr(name: seq<int>): (s: seq<int>)
    ensures |s| <= |name| && s == name[..|s|] && 0 !in s
    ensures |s| < |name| ==> name[|s|] == 0
  {
    if name == [] || name[0] == 0 then [] else
      var rest := CStr(name[1..]);
      assert name[..|rest| + 1] == [name[0]] + name[1..][..|rest|];
      [name[0]] + rest
  }

  /** A path as it is stored: padded with zeros to `len` words. */
  function Padded(path: seq<int>, len: nat): (name: seq<int>)
    requires |path| <= len
    ensures |name| == len
  {
    path + seq(len - |path|, _ => 0)
  }

  /** A path is a C string: it ends at its first zero. */
  predicate IsString(path: seq<int>) {
    0 !in path
  }

  /** A path that fits. */
  predicate IsPath(path: seq<int>, nameLen: nat) {
    |path| < nameLen && IsString(path)
  }

  lemma {:induction false} StrUnique(name: seq<int>, path: seq<int>)
    requires |path| < |name| && name[..|path|] == path && name[|path|] == 0 && 0 !in path
    ensures CStr(name) == path
  {
    if path != [] {
      assert name[0] == path[0] && path[0] in path;
      assert name[1..][..|path| - 1] == path[1..];
      StrUnique(name[1..], path[1..]);
    }
  }

  lemma StoredName(path: seq<int>, nameLen: nat)
    requires IsPath(path, nameLen)
    ensures CStr(Padded(path, nameLen)) == path
  {
    StrUnique(Padded(path, nameLen), path);
  }

  datatype File = File(name: seq<int>, bytes: seq<int>)

  /** The objects that have a header. */
  ghost function Ids(m: Image): set<int> {
    set k | k in m && IsIndexId(k.id) && k.span == 0 :: ObjectId(k.id)
  }

  lemma InIds(m: Image, o: int)
    requires 1 <= o <= MAX_ID
    ensures o in Ids(m) <==> Key(IndexId(o), 0) in m
  {
    if Key(IndexId(o), 0) in m {
      assert ObjectId(IndexId(o)) == o;
    }
    if o in Ids(m) {
      var k :| k in m && IsIndexId(k.id) && k.span == 0 && ObjectId(k.id) == o;
      assert k == Key(IndexId(o), 0);
    }
  }

  /** Every object with a header is a well-formed file of the length its header has. */
  ghost predicate AllFiles(g: Geometry, m: Image)
    requires g.Valid()
  {
    forall o {:trigger o in Ids(m)} :: o in Ids(m) ==> 1 <= o <= MAX_ID && Key(IndexId(o), 0) in m && m[Key(IndexId(o), 0)].Header? && IsFile(g, m, o, Length(m[Key(IndexId(o), 0)].size))
  }

  ghost function FileOf(g: Geometry, m: Image, o: int): File
    requires g.Valid()
  {
    var x := Key(IndexId(o), 0);
    if x in m && m[x].Header? then File(CStr(m[x].name), Contents(g, m, o, Length(m[x].size))) else File([], [])
  }

  /** All files, by object id. */
  ghost function Disk(g: Geometry, m: Image): (d: map<int, File>)
    requires g.Valid()
    ensures d.Keys == Ids(m)
  {
    map o | o in Ids(m) :: FileOf(g, m, o)
  }

  /** No two files have the same name. */
  ghost predicate NamesDiffer(d: map<int, File>) {
    forall a, b :: a in d && b in d && a != b ==> d[a].name != d[b].name
  }

  // Changes to one object.

  lemma OtherByte(g: Geometry, m: Image, m': Image, o: int, a: int, p: nat)
    requires g.Valid() && SameOthers(m, m', o) && a != o && 1 <= a <= MAX_ID
    ensures ByteAt(g, m', a, p) == ByteAt(g, m, a, p)
  {
    var k := Key(a, Quot(p, g.dps));
    assert ObjectId(k.id) != o;
  }

  lemma OtherFile(g: Geometry, m: Image, m': Image, o: int, a: int)
    requires g.Valid() && SameOthers(m, m', o) && a != o && 1 <= a <= MAX_ID && 1 <= o <= MAX_ID
    ensures a in Ids(m) <==> a in Ids(m')
    ensures FileOf(g, m', a) == FileOf(g, m, a)
    ensures forall n: nat :: IsFile(g, m, a, n) ==> IsFile(g, m', a, n)
    ensures Key(IndexId(a), 0) in m ==> Key(IndexId(a), 0) in m' && m'[Key(IndexId(a), 0)] == m[Key(IndexId(a), 0)]
  {
    hide Quot;
    hide Rem;
    hide PageCount;
    hide TopIx;
    InIds(m, a);
    InIds(m', a);
    var x := Key(IndexId(a), 0);
    assert ObjectId(x.id) == a;
    forall p: nat
      ensures ByteAt(g, m', a, p) == ByteAt(g, m, a, p)
    {
      OtherByte(g, m, m', o, a, p);
    }
    forall n: nat | IsFile(g, m, a, n)
      ensures IsFile(g, m', a, n)
    {
      OtherExtent(g, m, m', o, a, n);
    }
  }

  lemma OtherExtent(g: Geometry, m: Image, m': Image, o: int, a: int, n: nat)
    requires g.Valid() && SameOthers(m, m', o) && a != o && 1 <= a <= MAX_ID && 1 <= o <= MAX_ID && IsFile(g, m, a, n)
    ensures IsFile(g, m', a, n)
  {
    hide Quot;
    hide Rem;
    hide PageCount;
    hide TopIx;
    forall j: int
      ensures (Key(a, j) in m <==> Key(a, j) in m') && (Key(a, j) in m ==> m'[Key(a, j)] == m[Key(a, j)])
      ensures (Key(IndexId(a), j) in m <==> Key(IndexId(a), j) in m') && (Key(IndexId(a), j) in m ==> m'[Key(IndexId(a), j)] == m[Key(IndexId(a), j)])
    {
      assert ObjectId(Key(a, j).id) == a && ObjectId(Key(IndexId(a), j).id) == a;
    }
  }

  /** Object `o` became, or stayed, a well-formed file; no other object changed. */
  lemma OneChanged(g: Geometry, m: Image, m': Image, o: int, n: nat)
    requires g.Valid() && AllFiles(g, m) && SameOthers(m, m', o) && IsFile(g, m', o, n)
    ensures AllFiles(g, m')
    ensures Disk(g, m') == Disk(g, m)[o := FileOf(g, m', o)]
    ensures FileOf(g, m', o).bytes == Contents(g, m', o, n)
  {
    hide IsFile;
    hide Contents;
    hide FileOf;
    FileId(g, m', o, n);
    InIds(m', o);
    FileHeader(g, m', o, n);
    forall a | a in Ids(m')
      ensures 1 <= a <= MAX_ID && Key(IndexId(a), 0) in m' && m'[Key(IndexId(a), 0)].Header? && IsFile(g, m', a, Length(m'[Key(IndexId(a), 0)].size))
      ensures a != o ==> a in Ids(m) && FileOf(g, m', a) == FileOf(g, m, a)
    {
      if a != o {
        IdRange(m, m', o, a);
        OtherFile(g, m, m', o, a);
      }
    }
    forall a | a in Ids(m)
      ensures a != o ==> a in Ids(m')
    {
      if a != o {
        OtherFile(g, m, m', o, a);
      }
    }
    assert Disk(g, m').Keys == Disk(g, m).Keys + {o};
  }

  lemma FileId(g: Geometry, m: Image, o: int, n: nat)
    requires g.Valid() && IsFile(g, m, o, n)
    ensures 1 <= o <= MAX_ID
  {
  }

  lemma FileHeader(g: Geometry, m: Image, o: int, n: nat)
    requires g.Valid() && IsFile(g, m, o, n)
    ensures Key(IndexId(o), 0) in m && m[Key(IndexId(o), 0)].Header? && Length(m[Key(IndexId(o), 0)].size) == n
    ensures FileOf(g, m, o).bytes == Contents(g, m, o, n)
  {
  }

  /** An object the other image has a header of is one of this one. */
  lemma IdRange(m: Image, m': Image, o: int, a: int)
    requires SameOthers(m, m', o) && a in Ids(m') && a != o
    ensures a in Ids(m)
  {
    var k :| k in m' && IsIndexId(k.id) && k.span == 0 && ObjectId(k.id) == a;
    assert k in m;
  }

  /** Object `o` is gone; no other object changed. */
  lemma OneGone(g: Geometry, m: Image, m': Image, o: int)
    requires g.Valid() && AllFiles(g, m) && SameOthers(m, m', o) && 1 <= o <= MAX_ID && Key(IndexId(o), 0) !in m'
    ensures AllFiles(g, m')
    ensures Disk(g, m') == Disk(g, m) - {o}
  {
    hide IsFile;
    hide Contents;
    hide FileOf;
    InIds(m', o);
    forall a | a in Ids(m')
      ensures 1 <= a <= MAX_ID && Key(IndexId(a), 0) in m' && m'[Key(IndexId(a), 0)].Header? && IsFile(g, m', a, Length(m'[Key(IndexId(a), 0)].size))
      ensures a != o && a in Ids(m) && FileOf(g, m', a) == FileOf(g, m, a)
    {
      IdRange(m, m', o, a);
      OtherFile(g, m, m', o, a);
    }
    forall a | a in Ids(m) && a != o
      ensures a in Ids(m')
    {
      OtherFile(g, m, m', o, a);
    }
    assert Disk(g, m').Keys == Disk(g, m).Keys - {o};
  }
}
