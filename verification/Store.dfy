/** The file system object and its page primitives: searching the lookup, allocating,
    moving and deleting pages, erasing blocks, and telling open descriptors. */
module Store {
  import opened Words
  import opened Layout
  import opened Medium
  import opened Directory
  import opened Tally
  import opened Window

  datatype Option<T> = None | Some(value: T)

  datatype Status =
    | OK
    | ERR_FULL
    | ERR_NOT_FOUND
    | ERR_END_OF_OBJECT
    | ERR_DELETED
    | ERR_NOT_FINALIZED
    | ERR_NOT_INDEX
    | ERR_IS_INDEX
    | ERR_IS_FREE
    | ERR_INDEX_SPAN_MISMATCH
    | ERR_DATA_SPAN_MISMATCH
    | ERR_INDEX_FREE
    | ERR_INDEX_INVALID
    | ERR_INDEX_REF_FREE
    | ERR_INDEX_REF_INVALID
    | ERR_NO_DELETED_BLOCKS
    | ERR_CONFLICTING_NAME
    | ERR_FILE_EXISTS
    | ERR_OUT_OF_FILE_DESCS
    | ERR_NAME_TOO_LONG
    | ERR_IX_MAP_MAPPED
    | ERR_IX_MAP_UNMAPPED

  /** An answer of what lies below the calls: it is about pages, not about names or descriptors. */
  predicate Lower(res: Status) {
    res != ERR_FILE_EXISTS && res != ERR_OUT_OF_FILE_DESCS && res != ERR_NAME_TOO_LONG && res != ERR_CONFLICTING_NAME
  }

  /** Such an answer, that does not say that the medium is full either. */
  predicate Inner(res: Status) {
    Lower(res) && res != ERR_FULL
  }

  lemma OkInner()
    ensures Inner(OK) && Lower(OK) && Lower(ERR_FULL)
  {
  }

  /** `size` bytes from `offset` on wait in a cache page to be written. */
  datatype Pending = Pending(offset: nat, size: nat)

  /** An open file descriptor. `objId` carries the index flag; `fileNbr` is 0 when closed and
      `score` is 0 when the descriptor was never handed out for a named file. */
  datatype Fd = Fd(fileNbr: nat, objId: int, size: int, hdr: int, cursorPix: int, cursorSpan: int, score: nat,
                   position: nat, pending: Option<Pending>, win: Option<Window>)

  /** A stored length: the erased word stands for an empty file. */
  function Length(size: int): nat {
    if size < 0 then 0 else size
  }

  /** What happened to an index page. Where it was written, the event carries its references, the
      first being that of data page `first`. */
  datatype IxEvent =
    | IxUpdated(first: nat, refs: seq<int>)
    | IxNew(first: nat, refs: seq<int>)
    | IxDeleted
    | IxMoved
    | IxHeaderUpdated

  /** The references of index page `k`, as words. */
  function IxRefs(g: Geometry, k: nat, body: Body): (r: seq<int>)
    ensures |r| == IxLen(g, k)
  {
    if |RefsOf(body)| == IxLen(g, k) then RefsOf(body) else seq(IxLen(g, k), _ => NONE)
  }

  /** Index page `k` was written. */
  function PageStored(g: Geometry, k: nat, body: Body): IxEvent {
    IxUpdated(FirstSpan(g, k), IxRefs(g, k, body))
  }

  /** Index page `k` was written for the first time, without references. */
  function PageBegun(g: Geometry, k: nat): IxEvent {
    IxNew(FirstSpan(g, k), IxRefs(g, k, Blank))
  }

  /** The event is about index page `span` as `g` has it. */
  predicate Carries(g: Geometry, ev: IxEvent, span: int) {
    ev.IxUpdated? || ev.IxNew? ==> span >= 0 && ev.first == FirstSpan(g, span) && |ev.refs| == IxLen(g, span)
  }

  /** Where the bytes end that the user of a descriptor wrote: what is stored, or what is pending. */
  function Limit(fd: Fd): nat {
    if fd.pending.Some? && fd.pending.value.offset + fd.pending.value.size > Length(fd.size)
    then fd.pending.value.offset + fd.pending.value.size
    else Length(fd.size)
  }

  /** A descriptor is told the length stored in the header: its position is cut back to it, or to the
      end of the pending bytes unless the file is empty; pending bytes behind that are dropped. */
  function LengthTold(fd: Fd, size: int): Fd {
    var told := fd.(size := size);
    var n := if size > 0 then Limit(told) else 0;
    told.(position := if fd.position > n then n else fd.position,
          pending := if fd.pending.Some? && fd.pending.value.offset > n + 1 then None else fd.pending)
  }

  /** A descriptor with a window is told an index page that was written. */
  function MapTold(fd: Fd, ev: IxEvent): Fd {
    if fd.fileNbr != 0 && fd.win.Some? && (ev.IxUpdated? || ev.IxNew?) then fd.(win := Some(TakeOver(fd.win.value, ev.first, ev.refs))) else fd
  }

  /** What an event does to the header page, the cursor and the position of a descriptor. */
  function FieldsTold(fd: Fd, ev: IxEvent, span: int, pix: int, size: int): Fd {
    if span == 0 && ev != IxDeleted && fd.score == 0 then fd
    else
      var a :=
        if span != 0 then fd
        else if ev == IxDeleted then fd.(fileNbr := 0, objId := DELETED, pending := if fd.fileNbr != 0 then None else fd.pending)
        else if size != 0 then LengthTold(fd.(hdr := pix), size)
        else fd.(hdr := pix);
      if a.cursorSpan != span then a
      else a.(cursorPix := if ev == IxDeleted then NONE else pix)
  }

  /** What an event does to one descriptor. */
  function EventFd(fd: Fd, ev: IxEvent, id: int, span: int, pix: int, size: int): Fd {
    if ObjectId(fd.objId) != ObjectId(id) then fd else MapTold(FieldsTold(fd, ev, span, pix, size), ev)
  }

  /** What an event other than a deletion does to the fields that say where the pages are. */
  lemma EventFields(fd: Fd, ev: IxEvent, id: int, span: int, pix: int, size: int)
    requires ev != IxDeleted
    ensures
      var e, known := EventFd(fd, ev, id, span, pix, size), ObjectId(fd.objId) == ObjectId(id) && (span != 0 || fd.score != 0);
      && e.fileNbr == fd.fileNbr && e.objId == fd.objId && e.score == fd.score && e.cursorSpan == fd.cursorSpan && e.position <= fd.position && (fd.pending.None? ==> e.pending.None?)
      && e.hdr == (if known && span == 0 then pix else fd.hdr)
      && e.size == (if known && span == 0 && size != 0 then size else fd.size)
      && e.cursorPix == (if known && fd.cursorSpan == span then pix else fd.cursorPix)
      && (ObjectId(fd.objId) != ObjectId(id) ==> e == fd)
  {
  }

  /** The flash after a block without live entries may have been erased. */
  ghost predicate QuickStep(v: Flash, w: Flash) {
    && SameSize(v, w)
    && (forall x :: 0 <= x < |v.lu| ==>
         (w.lu[x] == v.lu[x] && w.pages[x] == v.pages[x]) ||
         (v.lu[x] == DELETED && w.lu[x] == FREE && w.pages[x] == ERASED))
  }

  /** The erase counter after an erase. */
  function NextErase(max: int): int {
    if max + 1 == IX_FLAG then 0 else max + 1
  }

  lemma QuickSizes(v: Flash, w: Flash)
    requires QuickStep(v, w)
    ensures SameSize(v, w)
  {
  }

  lemma QuickLive(v: Flash, w: Flash, s: nat)
    requires QuickStep(v, w) && s < |v.lu| == |v.pages| && Live(v.lu[s])
    ensures s < |w.lu| == |v.lu| == |w.pages| && w.lu[s] == v.lu[s] && w.pages[s] == v.pages[s]
  {
  }

  function Erased(g: Geometry, fl: Flash, b: nat, count: int): Flash
    requires b < |fl.counts|
  {
    var e := EraseSlots(g, fl, b);
    e.(counts := e.counts[b := count])
  }

  /** Slots in the order a search from `start` meets them: does `t` come before `s`? */
  predicate Before(start: nat, t: nat, s: nat) {
    if start <= s then start <= t < s else start <= t || t < s
  }

  /** Where a search from a lookup cursor begins. */
  function StartSlot(g: Geometry, block: nat, entry: nat): nat {
    if entry < g.n then g.BlockStart(block) + entry
    else if block + 1 < g.blocks then g.BlockStart(block + 1)
    else 0
  }

  /** The slot a search from `start` looks at after `k` others. */
  function Visit(total: nat, start: nat, k: nat): nat
    requires start < total && start + k < 2 * total
  {
    if start + k < total then start + k else start + k - total
  }

  /** How many entries a search looks at that finds nothing: all of them, and those behind the cursor in
      its block once more. */
  function Visits(g: Geometry, startEntry: nat): nat {
    g.Total() + (if 0 < startEntry < g.n then g.n - startEntry else 0)
  }

  /** What the first `k` visits were to was refused. */
  ghost predicate Refused(total: nat, start: nat, k: nat, accept: nat -> bool)
    requires start < total
  {
    forall i: nat {:trigger Visit(total, start, i)} :: i < k && start + i < 2 * total ==> !accept(Visit(total, start, i))
  }

  /** All entries are visited in the first round, each once; later visits are to those visited a round
      before. */
  lemma VisitEach(total: nat, start: nat, t: nat)
    requires start < total && t < total
    ensures var i: nat := if t >= start then t - start else t + total - start;
      i < total && Visit(total, start, i) == t && forall k: nat :: start + k < 2 * total && Visit(total, start, k) == t ==> k == i || k == i + total
  {
  }

  lemma RefusedAll(total: nat, start: nat, k: nat, accept: nat -> bool)
    requires start < total && Refused(total, start, k, accept)
    ensures k >= total ==> forall t: nat :: t < total ==> !accept(t)
    ensures k < total ==> forall t: nat :: t < total && Before(start, t, Visit(total, start, k)) ==> !accept(t)
  {
    hide Visit;
    forall t: nat | t < total && (k >= total || Before(start, t, Visit(total, start, k)))
      ensures !accept(t)
    {
      var i: nat := if t >= start then t - start else t + total - start;
      VisitEach(total, start, t);
      if k < total {
        VisitOrder(total, start, k, t);
      }
      assert !accept(Visit(total, start, i));
    }
  }

  lemma VisitOrder(total: nat, start: nat, k: nat, t: nat)
    requires start < total && t < total && k < total && Before(start, t, Visit(total, start, k))
    ensures (if t >= start then t - start else t + total - start) < k
  {
  }

  /** A search that went all round ends at the end of the block it began in, or at its beginning if it
      began there. */
  lemma RoundEnds(g: Geometry, b: nat, e: nat, c: nat)
    requires g.Valid() && b < g.blocks && e < g.n
    requires g.BlockStart(c) >= g.BlockStart(b) + e > g.BlockStart(c) - g.n
    ensures g.BlockStart(c) == g.BlockStart(b) + (if e == 0 then 0 else g.n)
  {
    if c < b {
      Spread(c, b, g.n);
    } else if c > b + 1 {
      Spread(b + 1, c, g.n);
      Spread(b, b + 1, g.n);
    } else if c == b + 1 {
      Spread(b, c, g.n);
    }
  }

  /** The lookup search with its visitor: finds the first entry the visitor accepts, in cyclic
      order from the cursor, whatever the cursor. `visits` counts the entries it refused. */
  method FindEntry(g: Geometry, startBlock: nat, startEntry: nat, accept: nat -> bool)
    returns (found: bool, block: nat, entry: nat, ghost visits: nat)
    requires g.Valid() && startBlock < g.blocks
    ensures StartSlot(g, startBlock, startEntry) < g.Total() && Refused(g.Total(), StartSlot(g, startBlock, startEntry), visits, accept)
    ensures found ==> block < g.blocks && entry < g.n && accept(g.BlockStart(block) + entry)
    ensures found ==> visits < g.Total() && g.BlockStart(block) + entry == Visit(g.Total(), StartSlot(g, startBlock, startEntry), visits)
    ensures found ==> forall t: nat :: t < g.Total() && Before(StartSlot(g, startBlock, startEntry), t, g.BlockStart(block) + entry) ==> !accept(t)
    ensures !found ==> visits == Visits(g, startEntry) && forall t: nat :: t < g.Total() ==> !accept(t)
  {
    hide Geometry.BlockStart;
    hide Geometry.Total;
    hide Refused;
    hide Before;
    var entryCount: int := g.Total();
    block, entry := startBlock, startEntry;
    BlockFits(g, startBlock);
    if entry > g.n - 1 {
      entry, block := 0, block + 1;
      if block >= g.blocks {
        block := 0;
      }
    }
    var base := g.BlockStart(block);
    BlockFits(g, block);
    ghost var first, offset, start, total := block, entry, base + entry, g.Total();
    ghost var wrapped, end: nat := false, 0;
    visits := 0;
    RefusedNone(total, start, accept);
    while entryCount > 0
      invariant block < g.blocks && entry < g.n && base == g.BlockStart(block)
      invariant entryCount == total - visits && Refused(total, start, visits, accept)
      invariant entryCount > 0 ==> base + entry == start + visits - (if wrapped then total else 0)
      invariant !wrapped || entry == 0
      invariant entryCount <= 0 ==> start + visits == total + g.BlockStart(end) && g.BlockStart(end) - g.n < start
      decreases !wrapped, entryCount
    {
      BlockFits(g, block);
      assert wrapped ==> base < start;
      while entry < g.n
        invariant entry <= g.n
        invariant entryCount == total - visits && Refused(total, start, visits, accept)
        invariant base + entry == start + visits - (if wrapped then total else 0)
      {
        if accept(base + entry) {
          RefusedAll(total, start, visits, accept);
          return true, block, entry, visits;
        }
        RefusedMore(total, start, visits, accept);
        entryCount := entryCount - 1;
        entry := entry + 1;
        visits := visits + 1;
      }
      if wrapped || block + 1 == g.blocks {
        end := if wrapped then block + 1 else 0;
      } else {
        BlockFits(g, block + 1);
      }
      entry, block := 0, block + 1;
      base := base + g.n;
      if block >= g.blocks {
        BlockFits(g, 0);
        block, base := 0, 0;
        wrapped := true;
      }
    }
    RefusedAll(total, start, visits, accept);
    RoundEnds(g, first, offset, end);
    found := false;
  }

  lemma RefusedNone(total: nat, start: nat, accept: nat -> bool)
    requires start < total
    ensures Refused(total, start, 0, accept)
  {
  }

  lemma RefusedMore(total: nat, start: nat, k: nat, accept: nat -> bool)
    requires start < total && Refused(total, start, k, accept)
    requires start + k < 2 * total ==> !accept(Visit(total, start, k))
    ensures Refused(total, start, k + 1, accept)
  {
  }

  /** The first lookup entry holding `id`, in cyclic order from the cursor. */
  method FindId(g: Geometry, lu: seq<int>, startBlock: nat, startEntry: nat, id: int)
    returns (found: bool, block: nat, entry: nat)
    requires g.Valid() && startBlock < g.blocks && |lu| == g.Total()
    ensures found ==> block < g.blocks && entry < g.n && g.BlockStart(block) + entry < |lu| && lu[g.BlockStart(block) + entry] == id
    ensures found ==> forall t: nat :: t < |lu| && Before(StartSlot(g, startBlock, startEntry), t, g.BlockStart(block) + entry) ==> lu[t] != id
    ensures !found ==> forall t: nat :: t < |lu| ==> lu[t] != id
  {
    hide Before;
    hide StartSlot;
    hide Geometry.Total;
    hide Geometry.BlockStart;
    var accept := (s: nat) => s < |lu| && lu[s] == id;
    ghost var visits;
    found, block, entry, visits := FindEntry(g, startBlock, startEntry, accept);
    if found {
      BlockFits(g, block);
      assert accept(g.BlockStart(block) + entry);
    }
    assert forall t: nat :: t < |lu| && !accept(t) ==> lu[t] != id;
  }

  /** What the search for a free entry meets first is the first free entry of its block. */
  lemma FoundFirstOfBlock(g: Geometry, lu: seq<int>, cb: nat, ce: nat, block: nat, entry: nat)
    requires g.Valid() && |lu| == g.Total() && CursorOk(g, lu, cb, ce)
    requires block < g.blocks && entry < g.n && g.BlockStart(block) + entry < |lu|
    requires lu[g.BlockStart(block) + entry] == FREE
    requires forall t: nat :: t < |lu| && Before(StartSlot(g, cb, ce), t, g.BlockStart(block) + entry) ==> lu[t] != FREE
    ensures entry == 0 || lu[g.BlockStart(block) + entry - 1] != FREE
  {
    hide Geometry.Total;
    hide Geometry.BlockStart;
    var f := g.BlockStart(block) + entry;
    var start := StartSlot(g, cb, ce);
    if entry > 0 && start == f {
      BlockFits(g, cb);
      BlockFits(g, 0);
      assert InBlock(g, block, f);
      if ce < g.n {
        BlocksApart(g, cb, block, f);
      } else if cb + 1 < g.blocks {
        BlockFits(g, cb + 1);
        BlocksApart(g, cb + 1, block, f);
      }
    }
    assert entry > 0 && start != f ==> Before(start, f - 1, f);
  }

  /** The entries behind a cursor at entry `e`, those of `free` blocks but for two, and one more. */
  function Room(g: Geometry, free: int, e: nat): int {
    (free - 2) * g.n + Tail(g, e) + 1
  }

  /** So many spare pages mean more than three free blocks. */
  function Plenty(g: Geometry): nat {
    2 * g.n + 1
  }

  lemma RoomBlocks(g: Geometry, free: int, e: nat)
    requires g.Valid()
    ensures Room(g, free, e) >= 1 ==> free >= 2
    ensures Room(g, free, e) >= Plenty(g) ==> free > 3
  {
    if free <= 1 {
      assert (free - 2) * g.n + g.n == (free - 1) * g.n <= 0;
    } else if free <= 3 {
      assert (free - 2) * g.n <= g.n;
    }
  }

  /** Taking the next free entry takes one page of the room. */
  lemma RoomTaken(g: Geometry, free: int, ce: nat, entry: nat)
    requires g.Valid() && entry < g.n && (0 < ce < g.n ==> entry == ce)
    ensures Room(g, if entry == 0 then free - 1 else free, entry + 1) >= Room(g, free, ce) - 1
  {
    assert (free - 1 - 2) * g.n == (free - 2) * g.n - g.n;
  }

  /** A cursor inside a block stands at the next free entry. */
  lemma CursorNext(g: Geometry, lu: seq<int>, cb: nat, ce: nat, block: nat, entry: nat)
    requires g.Valid() && |lu| == g.Total() && CursorOk(g, lu, cb, ce)
    requires block < g.blocks && entry < g.n && g.BlockStart(block) + entry < |lu|
    requires forall t: nat :: t < |lu| && Before(StartSlot(g, cb, ce), t, g.BlockStart(block) + entry) ==> lu[t] != FREE
    ensures 0 < ce < g.n ==> entry == ce && block == cb
  {
    hide Geometry.Total;
    hide Geometry.BlockStart;
    if 0 < ce < g.n {
      BlockFits(g, cb);
      BlockFits(g, block);
      var f: nat, start: nat := g.BlockStart(block) + entry, g.BlockStart(cb) + ce;
      assert start != f ==> Before(start, start, f);
      assert InBlock(g, block, f) && InBlock(g, cb, start);
      BlocksApart(g, cb, block, f);
    }
  }

  // How many pages can be had while no block comes to be deleted throughout.

  /** How many pages can still be had when the search has looked at `k` entries from `start` on and
      `free` blocks are counted free: one for each free entry, in the order of the search, until fewer
      than two blocks are counted. The first entry of a block takes it off the count. */
  function Quota(g: Geometry, lu: seq<int>, free: int, start: nat, k: nat): nat
    requires g.Valid() && start < |lu| && k <= |lu|
    decreases |lu| - k
  {
    if k == |lu| || free < 2 then 0
    else
      var s := Visit(|lu|, start, k);
      if lu[s] != FREE then Quota(g, lu, free, start, k + 1)
      else 1 + Quota(g, lu, if Rem(s, g.n) == 0 then free - 1 else free, start, k + 1)
  }

  /** Entries that are not free do not count. */
  lemma {:induction false} QuotaSkip(g: Geometry, lu: seq<int>, free: int, start: nat, k: nat, j: nat)
    requires g.Valid() && start < |lu| && k <= j <= |lu|
    requires forall i: nat {:trigger Visit(|lu|, start, i)} :: k <= i < j ==> lu[Visit(|lu|, start, i)] != FREE
    ensures Quota(g, lu, free, start, k) == Quota(g, lu, free, start, j)
    decreases j - k
  {
    if k < j {
      assert lu[Visit(|lu|, start, k)] != FREE;
      QuotaSkip(g, lu, free, start, k + 1, j);
    }
  }

  /** A page can be had exactly if two blocks are counted free and some entry is. */
  lemma {:induction false} QuotaSome(g: Geometry, lu: seq<int>, free: int, start: nat)
    requires g.Valid() && start < |lu|
    ensures Quota(g, lu, free, start, 0) > 0 <==> free >= 2 && exists t: nat :: t < |lu| && lu[t] == FREE
  {
    if t: nat :| t < |lu| && lu[t] == FREE {
      VisitEach(|lu|, start, t);
      if free >= 2 {
        QuotaFinds(g, lu, free, start, 0, if t >= start then t - start else t + |lu| - start);
      }
    } else {
      QuotaSkip(g, lu, free, start, 0, |lu|);
    }
  }

  lemma {:induction false} QuotaFinds(g: Geometry, lu: seq<int>, free: int, start: nat, k: nat, j: nat)
    requires g.Valid() && start < |lu| && k <= j < |lu| && lu[Visit(|lu|, start, j)] == FREE && free >= 2
    ensures Quota(g, lu, free, start, k) > 0
    decreases j - k
  {
    if k < j && lu[Visit(|lu|, start, k)] != FREE {
      QuotaFinds(g, lu, free, start, k + 1, j);
    }
  }

  /** The same entries counted from a later start: those in front of it come last, and are not free. */
  lemma {:induction false} QuotaShift(g: Geometry, v: seq<int>, w: seq<int>, free: int, start: nat, next: nat, j: nat, i: nat)
    requires g.Valid() && start < |v| == |w| && j + i <= |v| && next == Visit(|v|, start, j)
    requires forall x: nat {:trigger Visit(|v|, start, x)} :: x < |v| ==> if x < j then w[Visit(|v|, start, x)] != FREE else (w[Visit(|v|, start, x)] == FREE <==> v[Visit(|v|, start, x)] == FREE)
    ensures Quota(g, w, free, next, i) == Quota(g, v, free, start, j + i)
    decreases |v| - i
  {
    if j + i == |v| {
      forall x: nat {:trigger Visit(|w|, next, x)} | i <= x < |w|
        ensures w[Visit(|w|, next, x)] != FREE
      {
        assert Visit(|w|, next, x) == Visit(|v|, start, x - i);
      }
      QuotaSkip(g, w, free, next, i, |w|);
    } else {
      var s := Visit(|v|, start, j + i);
      assert Visit(|w|, next, i) == s;
      QuotaShift(g, v, w, free, start, next, j, i + 1);
      QuotaShift(g, v, w, free - 1, start, next, j, i + 1);
    }
  }

  /** Taking the free entry that the search finds takes one page. */
  lemma QuotaTaken(g: Geometry, v: seq<int>, w: seq<int>, free: int, cb: nat, ce: nat, block: nat, entry: nat)
    requires g.Valid() && |v| == |w| == g.Total() && cb < g.blocks && block < g.blocks && entry < g.n && free >= 2
    requires g.BlockStart(block) + entry < |v| && StartSlot(g, cb, ce) < |v| && StartSlot(g, block, entry + 1) < |v|
    requires v[g.BlockStart(block) + entry] == FREE && w[g.BlockStart(block) + entry] != FREE
    requires forall t: nat :: t < |v| && Before(StartSlot(g, cb, ce), t, g.BlockStart(block) + entry) ==> v[t] != FREE
    requires forall t: nat :: t < |v| && t != g.BlockStart(block) + entry ==> (w[t] == FREE <==> v[t] == FREE)
    ensures Quota(g, w, if entry == 0 then free - 1 else free, StartSlot(g, block, entry + 1), 0) == Quota(g, v, free, StartSlot(g, cb, ce), 0) - 1
  {
    hide Geometry.Total;
    hide Quota;
    var f, start, total := g.BlockStart(block) + entry, StartSlot(g, cb, ce), |v|;
    var j: nat := if f >= start then f - start else f + total - start;
    forall i: nat {:trigger Visit(total, start, i)} | i < j
      ensures v[Visit(total, start, i)] != FREE
    {
      assert Before(start, Visit(total, start, i), f);
    }
    QuotaSkip(g, v, free, start, 0, j);
    QuotRemOf(block, entry, g.n);
    NextSlot(g, block, entry);
    QuotaStep(g, v, free, start, j);
    QuotaShift(g, v, w, if entry == 0 then free - 1 else free, start, StartSlot(g, block, entry + 1), j + 1, 0);
  }

  /** Deleting a page makes no entry free. */
  lemma DropQuota(g: Geometry, v: seq<int>, w: seq<int>, free: int, cb: nat, ce: nat)
    requires g.Valid() && |v| == |w| == g.Total() && cb < g.blocks && forall t :: 0 <= t < |v| ==> (w[t] == FREE <==> v[t] == FREE)
    ensures StartSlot(g, cb, ce) < |v| && Quota(g, w, free, StartSlot(g, cb, ce), 0) == Quota(g, v, free, StartSlot(g, cb, ce), 0)
  {
    hide Quota;
    StartInRange(g, cb, ce);
    QuotaShift(g, v, w, free, StartSlot(g, cb, ce), StartSlot(g, cb, ce), 0, 0);
  }

  lemma QuotaStep(g: Geometry, lu: seq<int>, free: int, start: nat, j: nat)
    requires g.Valid() && start < |lu| && j < |lu| && free >= 2 && lu[Visit(|lu|, start, j)] == FREE
    ensures Quota(g, lu, free, start, j) == 1 + Quota(g, lu, if Rem(Visit(|lu|, start, j), g.n) == 0 then free - 1 else free, start, j + 1)
  {
  }

  /** A search that starts behind an entry starts at the next one. */
  lemma NextSlot(g: Geometry, block: nat, entry: nat)
    requires g.Valid() && block < g.blocks && entry < g.n
    ensures var f := g.BlockStart(block) + entry;
      f < g.Total() && StartSlot(g, block, entry + 1) == if f + 1 < g.Total() then f + 1 else 0
  {
    BlockFits(g, block);
    if block + 1 < g.blocks {
      BlockFits(g, block + 1);
    }
  }

  lemma StartInRange(g: Geometry, block: nat, entry: nat)
    requires g.Valid() && block < g.blocks
    ensures StartSlot(g, block, entry) < g.Total()
  {
    BlockFits(g, block);
    BlockFits(g, 0);
    if block + 1 < g.blocks {
      BlockFits(g, block + 1);
    }
  }

  /** How many pages can be had while no block comes to be deleted throughout, and how many pages can
      be deleted before that may happen. */
  datatype Supply = Supply(left: nat, hold: nat)

  /** Of supply `a`, `k` pages were had and `d` deleted: what is left is `b`. */
  ghost predicate Spent(a: Supply, b: Supply, k: nat, d: nat) {
    a.hold > d ==> a.left >= k && b.left == a.left - k && b.hold >= a.hold - d
  }

  /** Supply `a` is exhausted when `k` pages were had and `d` deleted. */
  ghost predicate Ends(a: Supply, k: nat, d: nat) {
    a.hold > d ==> a.left == k
  }

  /** One page was had in place of another, or none could be had. */
  lemma OneSpent(a: Supply, b: Supply, aside: bool)
    ensures (a.hold > 0 ==> a.left >= 1 && b.left == a.left - 1 && b.hold >= a.hold - (if aside then 0 else 1)) ==> Spent(a, b, 1, if aside then 0 else 1)
    ensures (a.hold > 0 ==> a.left == 0) ==> Ends(a, 0, 0)
  {
  }

  /** One page was had and none deleted, or none could be had. */
  lemma OneHad(a: Supply, b: Supply)
    ensures (a.hold > 0 ==> a.left >= 1 && b.left == a.left - 1 && b.hold >= a.hold) ==> Spent(a, b, 1, 0)
    ensures (a.hold > 0 ==> a.left == 0) ==> Ends(a, 0, 0)
  {
  }

  lemma SpentAtMost(a: Supply, b: Supply, k: nat, d: nat, d': nat)
    requires Spent(a, b, k, d) && d <= d'
    ensures Spent(a, b, k, d')
  {
  }

  lemma SpentJoin(a: Supply, b: Supply, c: Supply, k: nat, d: nat, k': nat, d': nat)
    requires Spent(a, b, k, d)
    ensures Spent(b, c, k', d') ==> Spent(a, c, k + k', d + d')
    ensures Ends(b, k', d') ==> Ends(a, k + k', d + d')
  {
  }

  /** The entries of block `b` that are not deleted, but for those of `x`. */
  ghost function Keeps(g: Geometry, lu: seq<int>, x: set<int>, b: nat): set<int> {
    set s | 0 <= s < |lu| && InBlock(g, b, s) && lu[s] != DELETED && s !in x
  }

  /** The lookup after a page was written. */
  lemma PlacedLookup(fl: Flash, f: int, id: int, page: Page)
    requires 0 <= f < |fl.lu| && f < |fl.pages|
    ensures |Placed(fl, f, id, page).lu| == |fl.lu|
    ensures forall t :: 0 <= t < |fl.lu| ==> Placed(fl, f, id, page).lu[t] == if t == f then id else fl.lu[t]
  {
  }

  /** The lookup after a move. */
  lemma MovedLookup(fl: Flash, s: int, f: int, id: int, page: Page)
    requires 0 <= f < |fl.lu| && f < |fl.pages| && 0 <= s < |fl.lu| && s < |fl.pages| && Live(id) && Live(fl.lu[s]) && fl.lu[f] == FREE
    ensures |Moved(fl, s, f, id, page).lu| == |fl.lu|
    ensures forall t :: 0 <= t < |fl.lu| ==> Moved(fl, s, f, id, page).lu[t] == if t == s then DELETED else if t == f then id else fl.lu[t]
  {
  }

  /** The least number of such entries in any of the first `b` blocks. */
  ghost function Hold(g: Geometry, lu: seq<int>, x: set<int>, b: nat): nat {
    if b == 0 then |lu| + 1
    else
      var rest, here := Hold(g, lu, x, b - 1), |Keeps(g, lu, x, b - 1)|;
      if here < rest then here else rest
  }

  /** Deleting entry `src` takes at most one from it, and nothing if `src` is in `x`. */
  lemma {:induction false} HoldDrop(g: Geometry, v: seq<int>, w: seq<int>, x: set<int>, src: int, b: nat)
    requires |w| == |v| && forall s :: 0 <= s < |v| && w[s] == DELETED ==> v[s] == DELETED || s == src
    ensures Hold(g, w, x, b) >= Hold(g, v, x, b) - (if src == NONE || src in x then 0 else 1)
  {
    if b > 0 {
      HoldDrop(g, v, w, x, src, b - 1);
      var before, after := Keeps(g, v, x, b - 1), Keeps(g, w, x, b - 1);
      assert before - {src} <= after;
      Fewer(before - {src}, after);
      assert src !in before ==> before - {src} == before;
    }
  }

  lemma Fewer(a: set<int>, b: set<int>)
    requires a <= b
    ensures |a| <= |b|
  {
    assert b == a + (b - a);
  }

  /** While it is not 0 no block is deleted throughout. */
  lemma {:induction false} HoldSteady(g: Geometry, lu: seq<int>, x: set<int>, b: nat)
    ensures Hold(g, lu, x, b) > 0 ==> forall c :: 0 <= c < b ==> !AllGone(g, lu, c)
  {
    if b > 0 && Hold(g, lu, x, b) > 0 {
      HoldSteady(g, lu, x, b - 1);
      var s :| s in Keeps(g, lu, x, b - 1);
    }
  }

  /** It is at least `h` if every block keeps as many. */
  lemma {:induction false} HoldAtLeast(g: Geometry, lu: seq<int>, x: set<int>, b: nat, h: nat)
    requires h <= |lu| + 1 && forall c: nat :: c < b ==> |Keeps(g, lu, x, c)| >= h
    ensures Hold(g, lu, x, b) >= h
  {
    if b > 0 {
      HoldAtLeast(g, lu, x, b - 1, h);
    }
  }

  // What the page primitives write, in order.

  const DELETE_FLAGS := Flags(false, true, true, false, true)

  function DeleteOps(s: nat): seq<WriteOp> {
    [EntryWrite(s, DELETED), PageWrite(s, Page(-1, -1, DELETE_FLAGS, Blank))]
  }

  function AsUsed(f: Flags): Flags {
    f.(used := false)
  }

  /** `page` is written unfinalized, entered in the lookup, finalized if it was final; then the
      source page is deleted. */
  function MoveOps(src: nat, dst: nat, id: int, page: Page): seq<WriteOp> {
    [PageWrite(dst, page.(flags := AsUsed(page.flags).(final := true))), EntryWrite(dst, id)]
    + (if page.flags.final then [] else [PageWrite(dst, Page(-1, -1, AsUsed(page.flags), Blank))])
    + DeleteOps(src)
  }

  /** Without page data the source page is copied as it stands. */
  function CopyOps(src: nat, dst: nat, id: int, page: Page): seq<WriteOp> {
    [PageWrite(dst, page), EntryWrite(dst, id)] + DeleteOps(src)
  }

  function PageMoveOps(fl: Flash, data: Option<Page>, id: int, src: nat, dst: nat): seq<WriteOp>
    requires src < |fl.pages|
  {
    match data
    case Some(p) => MoveOps(src, dst, id, p)
    case None => CopyOps(src, dst, id, fl.pages[src])
  }

  lemma DeleteRuns(g: Geometry, fl: Flash, s: nat)
    requires s < |fl.lu| && s < |fl.pages|
    ensures Run(g, fl, DeleteOps(s)) == Dropped(fl, s)
  {
    var ops := DeleteOps(s);
    assert ops[1..][1..] == [];
    ProgramFlags(fl.pages[s], DELETE_FLAGS);
    assert Run(g, Apply(g, fl, ops[0]), ops[1..]) == Run(g, Apply(g, Apply(g, fl, ops[0]), ops[1]), ops[1..][1..]);
  }

  lemma PlaceRuns(g: Geometry, fl: Flash, dst: nat, id: int, page: Page)
    requires dst < |fl.lu| && dst < |fl.pages| && fl.lu[dst] == FREE && fl.pages[dst] == ERASED
    ensures Run(g, fl, [PageWrite(dst, page), EntryWrite(dst, id)]) == Placed(fl, dst, id, page)
  {
    var ops := [PageWrite(dst, page), EntryWrite(dst, id)];
    assert ops[1..][1..] == [];
    ProgramFresh(page);
    assert Run(g, Apply(g, fl, ops[0]), ops[1..]) == Run(g, Apply(g, Apply(g, fl, ops[0]), ops[1]), ops[1..][1..]);
  }

  /** NOR safety of a move: on an erased target the ANDed writes leave exactly the moved page. */
  lemma MoveRuns(g: Geometry, fl: Flash, src: nat, dst: nat, id: int, page: Page)
    requires src < |fl.lu| == |fl.pages| && dst < |fl.lu| && src != dst
    requires fl.lu[dst] == FREE && fl.pages[dst] == ERASED
    ensures Run(g, fl, MoveOps(src, dst, id, page)) == Moved(fl, src, dst, id, page.(flags := AsUsed(page.flags)))
    ensures Run(g, fl, CopyOps(src, dst, id, page)) == Moved(fl, src, dst, id, page)
  {
    var open := page.(flags := AsUsed(page.flags).(final := true));
    var a := [PageWrite(dst, open), EntryWrite(dst, id)];
    var b := if page.flags.final then [] else [PageWrite(dst, Page(-1, -1, AsUsed(page.flags), Blank))];
    PlaceRuns(g, fl, dst, id, open);
    PlaceRuns(g, fl, dst, id, page);
    RunAppend(g, fl, a, b);
    ProgramFlags(open, AsUsed(page.flags));
    assert Run(g, fl, a + b) == Placed(fl, dst, id, page.(flags := AsUsed(page.flags)));
    RunAppend(g, fl, a + b, DeleteOps(src));
    RunAppend(g, fl, [PageWrite(dst, page), EntryWrite(dst, id)], DeleteOps(src));
    DeleteRuns(g, Placed(fl, dst, id, page.(flags := AsUsed(page.flags))), src);
    DeleteRuns(g, Placed(fl, dst, id, page), src);
  }

  /** The page an allocation leaves. */
  function AllocatedPage(id: int, span: int, flags: Flags, body: Body, finalize: bool): Page {
    Page(id, span, AsUsed(flags).(final := flags.final && !finalize), body)
  }

  /** The span field read as the unsigned number it is. */
  function SpanOf(p: Page): nat {
    if p.span < 0 then 0xffff else p.span
  }

  /** The page the search for an id and a span accepts. */
  predicate Matches(fl: Flash, id: int, span: int, s: nat) {
    && s < |fl.lu| && s < |fl.pages|
    && fl.lu[s] == id
    && fl.pages[s].id == id
    && fl.pages[s].span == span
    && !fl.pages[s].flags.used && !fl.pages[s].flags.final && fl.pages[s].flags.delet
    && !(IsIndexId(id) && !fl.pages[s].flags.ixdele && span == 0)
  }

  lemma MatchesInRange(fl: Flash, id: int, span: int, s: nat)
    ensures Matches(fl, id, span, s) ==> s < |fl.lu|
  {
  }

  /** On a consistent medium the search finds the page the directory has, or nothing. */
  lemma MatchIsFiled(g: Geometry, fl: Flash, dir: Dir, id: int, span: int)
    requires Linked(g, fl, dir) && Live(id)
    ensures Key(id, span) in dir ==> dir[Key(id, span)] >= 0 && Matches(fl, id, span, dir[Key(id, span)])
    ensures forall s: nat :: Matches(fl, id, span, s) ==> Key(id, span) in dir && dir[Key(id, span)] == s
  {
    var k := Key(id, span);
    if k in dir {
      assert KeyAt(fl, dir[k]) == k;
    }
    forall s: nat | Matches(fl, id, span, s)
      ensures k in dir && dir[k] == s
    {
      assert KeyAt(fl, s) == k;
    }
  }

  /** The checks made on an index page before it is trusted. */
  function ValidateObjIx(p: Page, id: int, span: int): Status {
    if p.flags.used then ERR_IS_FREE
    else if !p.flags.delet then ERR_DELETED
    else if p.flags.final then ERR_NOT_FINALIZED
    else if p.flags.index then ERR_NOT_INDEX
    else if !IsIndexId(id) then ERR_NOT_INDEX
    else if p.span != span then ERR_INDEX_SPAN_MISMATCH
    else OK
  }

  /** The checks made on a data page before it is trusted. */
  function ValidateData(p: Page, id: int, span: int): Status {
    if p.flags.used then ERR_IS_FREE
    else if !p.flags.delet then ERR_DELETED
    else if p.flags.final then ERR_NOT_FINALIZED
    else if !p.flags.index then ERR_IS_INDEX
    else if IsIndexId(id) then ERR_IS_INDEX
    else if p.span != span then ERR_DATA_SPAN_MISMATCH
    else OK
  }

  /** What the checks say of a page laid out as its entry says, of an erased and of a deleted one. */
  lemma ChecksTell(g: Geometry, entry: int, p: Page, o: int, k: int)
    requires 1 <= o <= MAX_ID
    ensures GoodPage(g, entry, p) ==>
      && ValidateObjIx(p, IndexId(o), k) == (if !IsIndexId(entry) then ERR_NOT_INDEX else if p.span != k then ERR_INDEX_SPAN_MISMATCH else OK)
      && ValidateData(p, o, k) == (if IsIndexId(entry) then ERR_IS_INDEX else if p.span != k then ERR_DATA_SPAN_MISMATCH else OK)
    ensures ValidateObjIx(ERASED, IndexId(o), k) == ValidateData(ERASED, o, k) == ERR_IS_FREE
    ensures GoodPage(g, entry, p) ==>
      var q := p.(flags := p.flags.(delet := false)); ValidateObjIx(q, IndexId(o), k) == ValidateData(q, o, k) == ERR_DELETED
  {
  }

  function HeaderSize(p: Page): int {
    if p.body.Header? then p.body.size else NONE
  }

  /** An index header page with a new name or a new size, where one is given. */
  function EditHeader(p: Page, name: Option<seq<int>>, size: int): Page {
    if !p.body.Header? then p
    else p.(body := p.body.(name := if name.Some? then name.value else p.body.name,
                            size := if size != 0 then size else p.body.size))
  }

  /** The page a move leaves in its new slot. */
  function MovedPage(fl: Flash, data: Option<Page>, src: nat): Page
    requires src < |fl.pages|
  {
    match data
    case Some(p) => p.(flags := AsUsed(p.flags))
    case None => fl.pages[src]
  }

  lemma SamePageMoved(v: Flash, w: Flash, data: Option<Page>, id: int, src: nat)
    requires src < |v.pages| && src < |w.pages| && w.pages[src] == v.pages[src]
    ensures MovedPage(w, data, src) == MovedPage(v, data, src)
    ensures forall dst: nat :: PageMoveOps(w, data, id, src, dst) == PageMoveOps(v, data, id, src, dst)
  {
  }

  lemma PlaceSound(g: Geometry, fl: Flash, block: nat, entry: nat, id: int, page: Page)
    requires Shaped(g, fl) && ErasedFree(fl) && DeadMarked(fl) && FreeSuffix(g, fl.lu) && Live(id)
    requires block < g.blocks && entry < g.n && g.BlockStart(block) + entry < g.Total()
    requires fl.lu[g.BlockStart(block) + entry] == FREE
    requires entry == 0 || fl.lu[g.BlockStart(block) + entry - 1] != FREE
    ensures var w := Placed(fl, g.BlockStart(block) + entry, id, page);
      && Shaped(g, w) && ErasedFree(w) && DeadMarked(w) && FreeSuffix(g, w.lu) && CursorOk(g, w.lu, block, entry + 1)
      && All(w.lu, InUse) == All(fl.lu, InUse) + 1 && All(w.lu, Gone) == All(fl.lu, Gone)
      && FreeBlocks(g, w.lu, g.blocks) == FreeBlocks(g, fl.lu, g.blocks) - (if entry == 0 then 1 else 0)
  {
    hide FreeSuffix;
    hide CursorOk;
    hide All;
    hide FreeBlocks;
    hide Geometry.BlockStart;
    hide Geometry.Total;
    PlaceTally(g, fl.lu, block, entry, id);
  }

  /** Every entry of the block is deleted. */
  ghost predicate AllGone(g: Geometry, lu: seq<int>, b: nat) {
    forall s :: InBlock(g, b, s) && 0 <= s < |lu| ==> lu[s] == DELETED
  }

  /** Block `b` is the first whose entries are all deleted. */
  ghost predicate FirstGone(g: Geometry, lu: seq<int>, b: nat) {
    b < g.blocks && AllGone(g, lu, b) && forall c: nat :: c < b ==> !AllGone(g, lu, c)
  }

  /** Erasing a block without live entries leaves the medium sound. */
  lemma EraseSound(g: Geometry, fl: Flash, b: nat, count: int, cb: nat, ce: nat)
    requires Shaped(g, fl) && ErasedFree(fl) && DeadMarked(fl) && FreeSuffix(g, fl.lu) && CursorOk(g, fl.lu, cb, ce)
    requires b < g.blocks && (forall s :: InBlock(g, b, s) && 0 <= s < |fl.lu| ==> !Live(fl.lu[s]))
    requires cb == b ==> ce == 0 || ce == g.n
    ensures g.BlockStart(b) + g.n <= |fl.lu|
    ensures var w := Erased(g, fl, b, count);
      && Shaped(g, w) && ErasedFree(w) && DeadMarked(w) && FreeSuffix(g, w.lu) && CursorOk(g, w.lu, cb, ce)
      && All(w.lu, InUse) == All(fl.lu, InUse)
      && All(w.lu, Gone) == All(fl.lu, Gone) - Count(fl.lu, g.BlockStart(b), g.BlockStart(b) + g.n, Gone)
      && FreeBlocks(g, w.lu, g.blocks) == FreeBlocks(g, fl.lu, g.blocks) + (if FirstFree(g, fl.lu, b) then 0 else 1)
  {
    hide Geometry.Total;
    hide Geometry.BlockStart;
    var w := Erased(g, fl, b, count);
    BlockFits(g, b);
    var lo := g.BlockStart(b);
    forall x | lo <= x < lo + g.n
      ensures KindOf(fl.lu[x]) != InUse
    {
      assert InBlock(g, b, x);
    }
    CountNone(fl.lu, lo, lo + g.n, InUse);
    EraseTally(g, fl.lu, w.lu, b);
  }

  /** The writes of a quick collection before an allocation: none, or those that erase a block
      without anything but deleted entries. */
  ghost predicate QuickOps(g: Geometry, lu: seq<int>, ops: seq<WriteOp>) {
    ops == [] || (|ops| == 2 && ops[0].BlockErase? && ops[0].block < g.blocks && AllGone(g, lu, ops[0].block) && ops[1].CountWrite?)
  }

  /** What was written since `was`: a quick collection, which made `mid` of `v`, and then `ops`. */
  ghost predicate Logged(g: Geometry, v: Flash, mid: Flash, was: seq<WriteOp>, now: seq<WriteOp>, ops: seq<WriteOp>) {
    exists q :: now == was + q + ops && QuickOps(g, v.lu, q) && mid == Run(g, v, q)
  }

  lemma LoggedMore(g: Geometry, v: Flash, mid: Flash, was: seq<WriteOp>, now: seq<WriteOp>, a: seq<WriteOp>, b: seq<WriteOp>)
    requires Logged(g, v, mid, was, now, a)
    ensures Logged(g, v, mid, was, now + b, a + b)
  {
    var q :| now == was + q + a && QuickOps(g, v.lu, q) && mid == Run(g, v, q);
    assert now + b == was + q + (a + b);
  }

  lemma LoggedNone(g: Geometry, v: Flash, was: seq<WriteOp>)
    ensures Logged(g, v, v, was, was, [])
  {
    assert was == was + [] + [];
    assert Run(g, v, []) == v && QuickOps(g, v.lu, []);
  }

  lemma LoggedErase(g: Geometry, v: Flash, was: seq<WriteOp>, b: nat, count: int)
    requires b < g.blocks && AllGone(g, v.lu, b) && b < |v.counts|
    ensures Logged(g, v, Erased(g, v, b, count), was, was + [BlockErase(b), CountWrite(b, count)], [])
  {
    var q := [BlockErase(b), CountWrite(b, count)];
    assert q[1..][1..] == [];
    assert Run(g, Apply(g, v, q[0]), q[1..]) == Run(g, Apply(g, Apply(g, v, q[0]), q[1]), q[1..][1..]);
    assert was + q == was + q + [];
  }

  lemma HasFree(g: Geometry, fl: Flash, b: nat, count: int)
    requires Shaped(g, fl) && b < g.blocks
    ensures exists t: nat :: t < |Erased(g, fl, b, count).lu| && Erased(g, fl, b, count).lu[t] == FREE
  {
    BlockFits(g, b);
    var t: nat := g.BlockStart(b);
    assert InBlock(g, b, t) && Erased(g, fl, b, count).lu[t] == FREE;
  }

  lemma QuickErase(g: Geometry, fl: Flash, b: nat, count: int, cb: nat, ce: nat)
    requires Shaped(g, fl) && ErasedFree(fl) && DeadMarked(fl) && FreeSuffix(g, fl.lu) && CursorOk(g, fl.lu, cb, ce)
    requires b < g.blocks && AllGone(g, fl.lu, b)
    ensures var w := Erased(g, fl, b, count);
      && Shaped(g, w) && ErasedFree(w) && DeadMarked(w) && FreeSuffix(g, w.lu) && CursorOk(g, w.lu, cb, ce)
      && QuickStep(fl, w)
      && All(w.lu, InUse) == All(fl.lu, InUse) && All(w.lu, Gone) == All(fl.lu, Gone) - g.n
      && FreeBlocks(g, w.lu, g.blocks) == FreeBlocks(g, fl.lu, g.blocks) + 1
  {
    hide FreeSuffix;
    hide FreeBlocks;
    hide All;
    hide ErasedFree;
    hide DeadMarked;
    hide Geometry.Total;
    hide Geometry.BlockStart;
    BlockFits(g, b);
    var lo := g.BlockStart(b);
    assert cb == b && 0 < ce < g.n ==> InBlock(g, b, lo + ce);
    assert InBlock(g, b, lo);
    EraseSound(g, fl, b, count, cb, ce);
    CountAll(fl.lu, lo, lo + g.n, Gone);
  }

  /** NOR safety of an allocation: on an erased page the ANDed writes leave exactly the page meant. */
  lemma AllocatedExact(id: int, span: int, flags: Flags, body: Body, finalize: bool)
    ensures
      var a := ProgramPage(ERASED, Page(id, span, AsUsed(flags), Blank));
      var b := if body.Blank? then a else ProgramPage(a, Page(-1, -1, ALL_SET, body));
      var c := if finalize && flags.final then ProgramPage(b, Page(-1, -1, AsUsed(flags).(final := false), Blank)) else b;
      c == AllocatedPage(id, span, flags, body, finalize)
  {
  }

  lemma MovedExact(page: Page)
    ensures
      var a := ProgramPage(ERASED, page.(flags := AsUsed(page.flags).(final := true)));
      var b := if page.flags.final then a else ProgramPage(a, Page(-1, -1, AsUsed(page.flags), Blank));
      b == page.(flags := AsUsed(page.flags))
    ensures ProgramPage(ERASED, page) == page
  {
  }

  /** The lookup holds 16-bit words. */
  predicate IsWord(x: int) {
    -IX_FLAG <= x < IX_FLAG
  }

  ghost predicate AllWords(lu: seq<int>) {
    forall s :: 0 <= s < |lu| ==> IsWord(lu[s])
  }

  class Spiffs {
    const g: Geometry
    var flash: Flash
    // every hardware operation since the object was made
    ghost var log: seq<WriteOp>
    // where the next free entry is looked for
    var freeCursorBlock: nat
    var freeCursorEntry: nat
    // where the last lookup search ended
    var cursorBlock: nat
    var cursorEntry: nat
    var freeBlocks: int
    var pagesAllocated: int
    var pagesDeleted: int
    var maxEraseCount: int
    // garbage collection is running
    var cleaning: bool
    var fds: seq<Fd>

    /** A mounted medium, with the counters a scan of it gave; every descriptor is closed. */
    constructor (g: Geometry, flash: Flash, freeBlocks: int, pagesAllocated: int, pagesDeleted: int, maxEraseCount: int, fdCount: nat)
      ensures this.g == g && this.flash == flash && this.freeBlocks == freeBlocks
      ensures this.pagesAllocated == pagesAllocated && this.pagesDeleted == pagesDeleted && this.maxEraseCount == maxEraseCount
      ensures freeCursorBlock == 0 && freeCursorEntry == 0 && cursorBlock == 0 && cursorEntry == 0 && !cleaning
      ensures |fds| == fdCount && forall i :: 0 <= i < fdCount ==> fds[i].fileNbr == 0 && fds[i].score == 0 && fds[i].pending.None? && fds[i].win.None?
    {
      this.g, this.flash, this.log := g, flash, [];
      this.freeBlocks, this.pagesAllocated, this.pagesDeleted, this.maxEraseCount := freeBlocks, pagesAllocated, pagesDeleted, maxEraseCount;
      freeCursorBlock, freeCursorEntry, cursorBlock, cursorEntry, cleaning := 0, 0, 0, 0, false;
      fds := seq(fdCount, _ => Fd(0, 0, 0, 0, 0, 0, 0, 0, None, None));
    }

    /** What holds between any two operations, on any medium: free pages are erased and come
        last in their block, deleted pages are marked so, and the counters tally with the lookup. */
    ghost predicate Valid()
      reads `flash, `freeBlocks, `freeCursorBlock, `freeCursorEntry, `cursorBlock, `pagesAllocated, `pagesDeleted
    {
      && Shaped(g, flash) && AllWords(flash.lu) && ErasedFree(flash) && DeadMarked(flash) && FreeSuffix(g, flash.lu)
      && CursorOk(g, flash.lu, freeCursorBlock, freeCursorEntry)
      && cursorBlock < g.blocks
      && pagesAllocated == All(flash.lu, InUse)
      && pagesDeleted == All(flash.lu, Gone)
      && Drift() >= 0
    }

    /** By how much the free block counter exceeds the number of blocks whose first entry is free. */
    ghost function Drift(): int
      requires Shaped(g, flash)
      reads this`flash, this`freeBlocks
    {
      freeBlocks - FreeBlocks(g, flash.lu, g.blocks)
    }

    /** Outside garbage collection a page can be had: two blocks are free, or one is and a quick
        collection frees another. */
    ghost predicate CanAllocate()
      reads this`flash, this`freeBlocks
    {
      freeBlocks >= 2 || (freeBlocks == 1 && exists b :: 0 <= b < g.blocks && AllGone(g, flash.lu, b))
    }

    ghost predicate SomeFree()
      reads this`flash
    {
      exists t: nat :: t < |flash.lu| && flash.lu[t] == FREE
    }

    /** The next allocation succeeds. */
    ghost predicate CanTake()
      reads this`flash, this`freeBlocks, this`cleaning
    {
      if cleaning then SomeFree() else CanAllocate() && (freeBlocks >= 2 ==> SomeFree())
    }

    /** How many pages can be allocated for certain, outside garbage collection: the entries behind the
        cursor in its block, those of the free blocks but for two, and one more. Nothing is certain
        when the counter of free blocks is off. */
    ghost function Spare(): int
      requires Shaped(g, flash)
      reads this`flash, this`freeBlocks, this`cleaning, this`freeCursorEntry
    {
      if !cleaning && Drift() == 0 then Room(g, freeBlocks, freeCursorEntry) else 0
    }

    /** No block is deleted throughout. */
    ghost predicate Steady()
      reads this`flash
    {
      forall b :: 0 <= b < g.blocks ==> !AllGone(g, flash.lu, b)
    }

    /** How many pages can be had, outside garbage collection, as long as no block comes to be deleted
        throughout. */
    ghost function Left(): nat
      reads this`flash, this`freeBlocks, this`freeCursorBlock, this`freeCursorEntry
    {
      if Shaped(g, flash) && freeCursorBlock < g.blocks then
        StartInRange(g, freeCursorBlock, freeCursorEntry);
        Quota(g, flash.lu, freeBlocks, StartSlot(g, freeCursorBlock, freeCursorEntry), 0)
      else 0
    }

    /** That, and how far every block is from being deleted throughout when the entries of `x` are. */
    ghost function Stock(x: set<int>): Supply
      reads this`flash, this`freeBlocks, this`freeCursorBlock, this`freeCursorEntry
    {
      Supply(Left(), Hold(g, flash.lu, x, g.blocks))
    }

    /** Then whether a page can be had is whether any is left. */
    lemma LeftExact()
      requires Valid()
      ensures Shaped(g, flash) && freeCursorBlock < g.blocks && StartSlot(g, freeCursorBlock, freeCursorEntry) < |flash.lu|
      ensures Left() == Quota(g, flash.lu, freeBlocks, StartSlot(g, freeCursorBlock, freeCursorEntry), 0)
      ensures !cleaning && Steady() ==> (Left() > 0 <==> CanTake())
    {
      hide AllGone;
      hide FreeSuffix;
      hide ErasedFree;
      hide DeadMarked;
      hide AllWords;
      hide All;
      hide FreeBlocks;
      StartInRange(g, freeCursorBlock, freeCursorEntry);
      QuotaSome(g, flash.lu, freeBlocks, StartSlot(g, freeCursorBlock, freeCursorEntry));
    }

    /** A free slot has been picked and the cursor is past it, but its entry is not written yet. */
    ghost predicate Reserved(block: nat, entry: nat)
      reads this
    {
      && Shaped(g, flash) && AllWords(flash.lu) && ErasedFree(flash) && DeadMarked(flash) && FreeSuffix(g, flash.lu)
      && block < g.blocks && entry < g.n
      && g.BlockStart(block) + entry < g.Total()
      && freeCursorBlock == block && freeCursorEntry == entry + 1
      && cursorBlock < g.blocks
      && flash.lu[g.BlockStart(block) + entry] == FREE
      && (entry == 0 || flash.lu[g.BlockStart(block) + entry - 1] != FREE)
      && pagesAllocated == All(flash.lu, InUse)
      && pagesDeleted == All(flash.lu, Gone)
    }

    method Write(op: WriteOp)
      modifies this`flash, this`log
      ensures flash == Apply(g, old(flash), op)
      ensures log == old(log) + [op]
    {
      flash := Apply(g, flash, op);
      log := log + [op];
    }

    /** Programs over a page that is in use. */
    method WritePage(s: nat, page: Page)
      requires Valid() && s < |flash.lu| && Live(flash.lu[s])
      modifies this`flash, this`log
      ensures Valid() && Drift() == old(Drift())
      ensures flash == Apply(g, old(flash), PageWrite(s, page))
      ensures log == old(log) + [PageWrite(s, page)]
      ensures forall x :: Stock(x) == old(Stock(x))
    {
      hide FreeSuffix;
      hide CursorOk;
      hide All;
      hide FreeBlocks;
      hide ProgramPage;
      Write(PageWrite(s, page));
    }

    /** Erases a block and stores its erase count. */
    method EraseBlock(b: nat)
      requires Shaped(g, flash) && b < g.blocks
      modifies this`flash, this`log, this`freeBlocks, this`maxEraseCount
      ensures flash == Erased(g, old(flash), b, old(maxEraseCount))
      ensures log == old(log) + [BlockErase(b), CountWrite(b, old(maxEraseCount))]
      ensures freeBlocks == old(freeBlocks) + 1 && maxEraseCount == NextErase(old(maxEraseCount))
    {
      Write(BlockErase(b));
      freeBlocks := freeBlocks + 1;
      Write(CountWrite(b, maxEraseCount));
      maxEraseCount := maxEraseCount + 1;
      if maxEraseCount == IX_FLAG {
        maxEraseCount := 0;
      }
    }

    /** Marks a page deleted, in the lookup first. */
    method PageDelete(s: nat)
      requires Valid() && s < g.Total() && Live(flash.lu[s])
      modifies this`flash, this`log, this`pagesAllocated, this`pagesDeleted
      ensures Valid() && Drift() == old(Drift())
      ensures flash == Dropped(old(flash), s)
      ensures log == old(log) + DeleteOps(s)
      ensures forall x :: Spent(old(Stock(x)), Stock(x), 0, if s in x then 0 else 1)
    {
      DropTally(g, flash.lu, s);
      ghost var lu := flash.lu;
      Write(EntryWrite(s, DELETED));
      pagesDeleted := pagesDeleted + 1;
      pagesAllocated := pagesAllocated - 1;
      Write(PageWrite(s, Page(-1, -1, DELETE_FLAGS, Blank)));
      ProgramFlags(old(flash).pages[s], DELETE_FLAGS);
      DropQuota(g, lu, flash.lu, freeBlocks, freeCursorBlock, freeCursorEntry);
      forall x
        ensures Hold(g, flash.lu, x, g.blocks) >= Hold(g, lu, x, g.blocks) - (if s in x then 0 else 1)
      {
        HoldDrop(g, lu, flash.lu, x, s, g.blocks);
      }
    }

    /** Erases the first block whose entries are all deleted, if there is one. */
    method GcQuick() returns (res: Status)
      requires Valid()
      modifies this`flash, this`log, this`freeBlocks, this`maxEraseCount, this`pagesDeleted
      ensures Valid() && Drift() == old(Drift())
      ensures QuickStep(old(flash), flash)
      ensures res == OK || res == ERR_NO_DELETED_BLOCKS
      ensures res == OK <==> exists b :: 0 <= b < g.blocks && AllGone(g, old(flash).lu, b)
      ensures res != OK ==> flash == old(flash)
      ensures res == OK ==> exists b: nat :: FirstGone(g, old(flash).lu, b) && b < |old(flash).counts| && flash == Erased(g, old(flash), b, old(maxEraseCount))
      ensures if res == OK then freeBlocks == old(freeBlocks) + 1 && SomeFree() else unchanged(this)
      ensures Logged(g, old(flash), flash, old(log), log, [])
    {
      hide Geometry.Total;
      hide Geometry.BlockStart;
      hide Logged;
      hide FreeSuffix;
      hide CursorOk;
      hide All;
      hide FreeBlocks;
      LoggedNone(g, flash, log);
      var block := 0;
      while block < g.blocks
        invariant block <= g.blocks
        invariant unchanged(this)
        invariant forall b :: 0 <= b < block ==> !AllGone(g, flash.lu, b)
      {
        BlockFits(g, block);
        var deleted, entry := 0, 0;
        while entry < g.n && flash.lu[g.BlockStart(block) + entry] == DELETED
          invariant entry <= g.n && deleted == entry
          invariant forall s :: g.BlockStart(block) <= s < g.BlockStart(block) + entry ==> flash.lu[s] == DELETED
        {
          deleted := deleted + 1;
          entry := entry + 1;
        }
        if deleted == g.n {
          pagesDeleted := pagesDeleted - deleted;
          QuickErase(g, flash, block, maxEraseCount, freeCursorBlock, freeCursorEntry);
          LoggedErase(g, flash, log, block, maxEraseCount);
          EraseBlock(block);
          HasFree(g, old(flash), block, old(maxEraseCount));
          assert FirstGone(g, old(flash).lu, block);
          return OK;
        }
        assert InBlock(g, block, g.BlockStart(block) + entry);
        block := block + 1;
      }
      res := ERR_NO_DELETED_BLOCKS;
    }

    /** Outside garbage collection two blocks must be free: with fewer, a fully deleted block is
        erased, if there is one. */
    method EnsureRoom() returns (full: bool)
      requires Valid()
      modifies this`flash, this`log, this`freeBlocks, this`maxEraseCount, this`pagesDeleted
      ensures Valid() && Drift() == old(Drift())
      ensures QuickStep(old(flash), flash) && (cleaning ==> flash == old(flash) && log == old(log))
      ensures Logged(g, old(flash), flash, old(log), log, [])
      ensures full <==> !cleaning && freeBlocks < 2
      ensures full <==> !cleaning && !old(CanAllocate())
      ensures cleaning || old(freeBlocks) >= 2 || (full && old(freeBlocks) >= 1) ==> unchanged(this)
      ensures !full && !cleaning && old(freeBlocks) < 2 ==> SomeFree()
      ensures !cleaning && old(Steady()) ==> unchanged(this)
    {
      hide Logged;
      hide FreeSuffix;
      hide CursorOk;
      hide All;
      hide FreeBlocks;
      hide AllGone;
      hide Geometry.Total;
      hide Geometry.BlockStart;
      LoggedNone(g, flash, log);
      full := false;
      if !cleaning && freeBlocks < 2 {
        var res := GcQuick();
        if freeBlocks < 2 {
          full := true;
        }
      }
    }

    /** Moves the free cursor past the first free entry from it on. */
    method Advance(block: nat, entry: nat)
      requires Valid() && block < g.blocks && entry < g.n && g.BlockStart(block) + entry < |flash.lu| && flash.lu[g.BlockStart(block) + entry] == FREE
      requires forall t: nat :: t < |flash.lu| && Before(StartSlot(g, freeCursorBlock, freeCursorEntry), t, g.BlockStart(block) + entry) ==> flash.lu[t] != FREE
      modifies this`freeBlocks, this`freeCursorBlock, this`freeCursorEntry
      ensures Reserved(block, entry) && Drift() == old(Drift()) - (if entry == 0 then 1 else 0)
      ensures freeBlocks == old(freeBlocks) - (if entry == 0 then 1 else 0)
      ensures Room(g, freeBlocks, freeCursorEntry) >= Room(g, old(freeBlocks), old(freeCursorEntry)) - 1
    {
      hide Room;
      hide FreeSuffix;
      hide All;
      hide FreeBlocks;
      hide Before;
      hide StartSlot;
      hide Geometry.Total;
      hide Geometry.BlockStart;
      FoundFirstOfBlock(g, flash.lu, freeCursorBlock, freeCursorEntry, block, entry);
      CursorNext(g, flash.lu, freeCursorBlock, freeCursorEntry, block, entry);
      RoomTaken(g, freeBlocks, freeCursorEntry, entry);
      freeCursorBlock := block;
      freeCursorEntry := entry + 1;
      if entry == 0 {
        freeBlocks := freeBlocks - 1;
      }
    }

    /** Picks the first free entry from the free cursor on and moves the cursor past it. Unless
        garbage collection is running, a fully deleted block may be erased first. */
    method FindFree() returns (res: Status, block: nat, entry: nat)
      requires Valid()
      modifies this`flash, this`log, this`freeBlocks, this`maxEraseCount, this`pagesDeleted
      modifies this`freeCursorBlock, this`freeCursorEntry
      ensures Lower(res)
      ensures cleaning ==> res != ERR_FULL && maxEraseCount == old(maxEraseCount)
      ensures QuickStep(old(flash), flash) && (cleaning ==> flash == old(flash) && log == old(log))
      ensures Logged(g, old(flash), flash, old(log), log, [])
      ensures res != OK ==> Valid() && Drift() == old(Drift())
      ensures res == OK ==> Reserved(block, entry)
      ensures res == OK ==> Drift() == old(Drift()) - (if entry == 0 then 1 else 0)
      ensures res == OK ==> forall t: nat :: t < g.Total() && Before(StartSlot(g, old(freeCursorBlock), old(freeCursorEntry)), t, g.BlockStart(block) + entry) ==> flash.lu[t] != FREE
      ensures cleaning && (exists t: nat :: t < g.Total() && flash.lu[t] == FREE) ==> res == OK
      ensures res == OK <==> old(CanTake())
      ensures !cleaning && old(Drift()) == 0 ==> (res == OK <==> old(CanAllocate()))
      ensures !cleaning && old(Drift()) == 0 && old(freeBlocks) >= 2 ==> freeBlocks >= old(freeBlocks) - 1
      ensures !cleaning && old(freeBlocks) >= 1 ==> freeBlocks >= 1
      ensures res != OK && old(freeBlocks) >= 1 ==> unchanged(this)
      ensures res == OK && !cleaning && old(freeBlocks) >= 2 ==> Room(g, freeBlocks, freeCursorEntry) >= Room(g, old(freeBlocks), old(freeCursorEntry)) - 1
      ensures !cleaning && old(Steady()) ==> flash == old(flash) && (res == OK ==> old(freeBlocks) >= 2 && freeBlocks == old(freeBlocks) - (if entry == 0 then 1 else 0))
    {
      hide Spiffs.Steady;
      hide Spiffs.Reserved;
      hide ErasedFree;
      hide DeadMarked;
      hide AllWords;
      hide QuickStep;
      hide AllGone;
      hide Room;
      hide Logged;
      hide FreeSuffix;
      hide All;
      hide FreeBlocks;
      hide Before;
      hide StartSlot;
      hide Geometry.Total;
      hide Geometry.BlockStart;
      block, entry := 0, 0;
      var full := EnsureRoom();
      if full {
        res := ERR_FULL;
        return;
      }
      var found;
      found, block, entry := FindId(g, flash.lu, freeCursorBlock, freeCursorEntry, FREE);
      if !found {
        if Drift() == 0 && freeBlocks > 0 {
          FreeBlockEntry(g, flash.lu, g.blocks);
        }
        res := ERR_NOT_FOUND;
        return;
      }
      Advance(block, entry);
      res := OK;
    }

    /** Allocates a page: lookup entry, header, then data, then the final flag. */
    method AllocateData(id: int, span: int, flags: Flags, body: Body, finalize: bool)
      returns (res: Status, slot: nat, ghost mid: Flash)
      requires Valid() && Live(id) && IsWord(id)
      modifies this`flash, this`log, this`freeBlocks, this`maxEraseCount, this`pagesDeleted, this`pagesAllocated
      modifies this`freeCursorBlock, this`freeCursorEntry
      ensures Valid() && Drift() == old(Drift())
      ensures QuickStep(old(flash), mid)
      ensures res != OK ==> flash == mid
      ensures res == OK ==> slot < g.Total() && slot < |mid.lu| && mid.lu[slot] == FREE
      ensures res == OK ==> flash == Placed(mid, slot, id, AllocatedPage(id, span, flags, body, finalize))
      ensures !cleaning && old(Drift()) == 0 ==> (res == OK <==> old(CanAllocate()))
      ensures res == OK <==> old(CanTake())
      ensures !cleaning && old(freeBlocks) >= 1 ==> freeBlocks >= 1
      ensures res != OK && old(freeBlocks) >= 1 ==> unchanged(this)
      ensures old(Spare()) >= 1 ==> res == OK && Spare() >= old(Spare()) - 1
      ensures !cleaning && old(Steady()) ==> mid == old(flash)
      ensures !cleaning && old(Steady()) ==> (res == OK <==> old(Left()) > 0)
      ensures !cleaning && old(Steady()) && res == OK ==> Left() == old(Left()) - 1
      ensures !cleaning ==> forall x :: if res == OK then Spent(old(Stock(x)), Stock(x), 1, 0) else Ends(old(Stock(x)), 0, 0)
    {
      hide Spiffs.Valid;
      hide Spiffs.Drift;
      hide Spiffs.Spare;
      hide Spiffs.CanTake;
      hide Spiffs.CanAllocate;
      hide Spiffs.Steady;
      hide Spiffs.Left;
      hide QuickStep;
      hide Spent;
      hide Ends;
      hide Hold;
      hide StartSlot;
      hide Before;
      hide Geometry.BlockStart;
      hide Geometry.Total;
      ghost var v, free, cb, ce := flash, freeBlocks, freeCursorBlock, freeCursorEntry;
      LeftExact();
      StockSteady();
      ghost var block, entry;
      res, slot, mid, block, entry := TakePage(id, span, flags, body, finalize);
      if res == OK {
        PlacedLookup(mid, slot, id, AllocatedPage(id, span, flags, body, finalize));
        TakenLeft(v.lu, mid.lu, free, cb, ce, block, entry);
      }
      forall x | !cleaning
        ensures if res == OK then Spent(old(Stock(x)), Stock(x), 1, 0) else Ends(old(Stock(x)), 0, 0)
      {
        if res == OK && mid.lu == v.lu {
          HoldDrop(g, v.lu, flash.lu, x, NONE, g.blocks);
        }
        OneHad(old(Stock(x)), Stock(x));
      }
    }

    /** The pages left after a page was written to the first free entry, past which the cursor now stands. */
    lemma TakenLeft(v: seq<int>, mid: seq<int>, free: int, cb: nat, ce: nat, block: nat, entry: nat)
      requires g.Valid() && Shaped(g, flash) && |v| == |mid| == g.Total() && cb < g.blocks && block < g.blocks && entry < g.n
      requires g.BlockStart(block) + entry < |mid| && mid[g.BlockStart(block) + entry] == FREE && flash.lu[g.BlockStart(block) + entry] != FREE
      requires forall t: nat :: t < |mid| && t != g.BlockStart(block) + entry ==> (flash.lu[t] == FREE <==> mid[t] == FREE)
      requires forall t: nat :: t < |mid| && Before(StartSlot(g, cb, ce), t, g.BlockStart(block) + entry) ==> mid[t] != FREE
      requires freeCursorBlock == block && freeCursorEntry == entry + 1
      ensures StartSlot(g, cb, ce) < |v|
      ensures mid == v && free >= 2 && freeBlocks == free - (if entry == 0 then 1 else 0) ==> Left() == Quota(g, v, free, StartSlot(g, cb, ce), 0) - 1
    {
      hide Quota;
      hide StartSlot;
      hide Before;
      hide Geometry.BlockStart;
      hide Geometry.Total;
      StartInRange(g, cb, ce);
      StartInRange(g, block, entry + 1);
      if mid == v && free >= 2 {
        QuotaTaken(g, v, flash.lu, free, cb, ce, block, entry);
      }
    }

    method TakePage(id: int, span: int, flags: Flags, body: Body, finalize: bool)
      returns (res: Status, slot: nat, ghost mid: Flash, ghost block: nat, ghost entry: nat)
      requires Valid() && Live(id) && IsWord(id)
      modifies this`flash, this`log, this`freeBlocks, this`maxEraseCount, this`pagesDeleted, this`pagesAllocated
      modifies this`freeCursorBlock, this`freeCursorEntry
      ensures Valid() && Drift() == old(Drift())
      ensures QuickStep(old(flash), mid)
      ensures res != OK ==> flash == mid
      ensures res == OK ==> slot < g.Total() && slot < |mid.lu| && mid.lu[slot] == FREE
      ensures res == OK ==> flash == Placed(mid, slot, id, AllocatedPage(id, span, flags, body, finalize))
      ensures !cleaning && old(Drift()) == 0 ==> (res == OK <==> old(CanAllocate()))
      ensures res == OK <==> old(CanTake())
      ensures !cleaning && old(freeBlocks) >= 1 ==> freeBlocks >= 1
      ensures res != OK && old(freeBlocks) >= 1 ==> unchanged(this)
      ensures old(Spare()) >= 1 ==> res == OK && Spare() >= old(Spare()) - 1
      ensures !cleaning && old(Steady()) ==> mid == old(flash)
      ensures Shaped(g, flash) && |mid.lu| == |mid.pages| == g.Total()
      ensures res == OK ==> Picking(block, entry, mid.lu, old(freeCursorBlock), old(freeCursorEntry)) && slot == g.BlockStart(block) + entry
      ensures !cleaning && old(Steady()) && res == OK ==> old(freeBlocks) >= 2 && freeBlocks == old(freeBlocks) - (if entry == 0 then 1 else 0)
    {
      hide Lower;
      hide Room;
      hide QuickStep;
      hide Logged;
      hide FreeSuffix;
      hide CursorOk;
      hide ErasedFree;
      hide DeadMarked;
      hide AllWords;
      hide Spiffs.Reserved;
      hide Spiffs.Steady;
      hide Spiffs.CanTake;
      hide StartSlot;
      hide Before;
      hide All;
      hide FreeBlocks;
      hide Geometry.BlockStart;
      hide Geometry.Total;
      RoomBlocks(g, freeBlocks, freeCursorEntry);
      var b, e;
      res, b, e := FindFree();
      block, entry, mid := b, e, flash;
      QuickSizes(old(flash), flash);
      if res == OK {
        Picked(block, entry);
        slot := WriteAllocated(b, e, id, span, flags, body, finalize);
      } else {
        slot := 0;
      }
    }

    /** The free cursor stood at `cb` and `ce`, and is past the first free entry from there on. */
    ghost predicate Picking(block: nat, entry: nat, lu: seq<int>, cb: nat, ce: nat)
      reads this`freeCursorBlock, this`freeCursorEntry
    {
      && g.Valid() && block < g.blocks && entry < g.n && freeCursorBlock == block && freeCursorEntry == entry + 1
      && forall t: nat :: t < |lu| && Before(StartSlot(g, cb, ce), t, g.BlockStart(block) + entry) ==> lu[t] != FREE
    }

    method WriteAllocated(block: nat, entry: nat, id: int, span: int, flags: Flags, body: Body, finalize: bool)
      returns (slot: nat)
      requires Reserved(block, entry) && Live(id) && IsWord(id) && Drift() >= (if entry == 0 then -1 else 0)
      modifies this`flash, this`log, this`pagesAllocated
      ensures Valid() && Drift() == old(Drift()) + (if entry == 0 then 1 else 0)
      ensures slot == g.BlockStart(block) + entry < g.Total() && old(flash).lu[slot] == FREE
      ensures flash == Placed(old(flash), slot, id, AllocatedPage(id, span, flags, body, finalize))
    {
      hide FreeSuffix;
      hide CursorOk;
      hide All;
      hide FreeBlocks;
      hide Geometry.BlockStart;
      hide Geometry.Total;
      hide ProgramPage;
      AllocatedExact(id, span, flags, body, finalize);
      slot := g.BlockStart(block) + entry;
      Write(EntryWrite(slot, id));
      pagesAllocated := pagesAllocated + 1;
      Write(PageWrite(slot, Page(id, span, AsUsed(flags), Blank)));
      if !body.Blank? {
        Write(PageWrite(slot, Page(-1, -1, ALL_SET, body)));
      }
      if finalize && flags.final {
        Write(PageWrite(slot, Page(-1, -1, AsUsed(flags).(final := false), Blank)));
      }
      assert flash.pages[slot] == AllocatedPage(id, span, flags, body, finalize);
      PlaceSound(g, old(flash), block, entry, id, AllocatedPage(id, span, flags, body, finalize));
    }

    lemma StockSteady()
      ensures forall x {:trigger Stock(x)} :: Stock(x).hold > 0 ==> Steady()
    {
      hide Spiffs.Left;
      hide Hold;
      forall x
        ensures Stock(x).hold > 0 ==> Steady()
      {
        HoldSteady(g, flash.lu, x, g.blocks);
      }
    }

    lemma Picked(block: nat, entry: nat)
      requires Reserved(block, entry)
      ensures Shaped(g, flash) && block < g.blocks && entry < g.n && freeCursorBlock == block && freeCursorEntry == entry + 1
    {
    }

    /** Moves a page to a free slot and deletes the source. With page data the data is written,
        without it the source page is copied. */
    method PageMove(data: Option<Page>, id: int, src: nat)
      returns (res: Status, dst: nat, ghost mid: Flash)
      requires Valid() && Live(id) && IsWord(id) && src < g.Total() && Live(flash.lu[src])
      modifies this`flash, this`log, this`freeBlocks, this`maxEraseCount, this`pagesDeleted, this`pagesAllocated
      modifies this`freeCursorBlock, this`freeCursorEntry
      ensures Lower(res)
      ensures cleaning ==> res != ERR_FULL && maxEraseCount == old(maxEraseCount)
      ensures Valid() && Drift() == old(Drift())
      ensures QuickStep(old(flash), mid) && (cleaning ==> mid == old(flash))
      ensures res != OK ==> flash == mid
      ensures res == OK ==> dst < g.Total() && dst < |mid.lu| && mid.lu[dst] == FREE
      ensures res == OK ==> flash == Moved(mid, src, dst, id, MovedPage(old(flash), data, src))
      ensures res == OK && cleaning ==> log == old(log) + PageMoveOps(old(flash), data, id, src, dst)
      ensures res == OK ==> Logged(g, old(flash), mid, old(log), log, PageMoveOps(old(flash), data, id, src, dst))
      ensures res == OK ==> 0 < freeCursorEntry <= g.n && dst == g.BlockStart(freeCursorBlock) + freeCursorEntry - 1
      ensures cleaning && res == OK ==> forall t: nat :: t < g.Total() && Before(StartSlot(g, old(freeCursorBlock), old(freeCursorEntry)), t, dst) ==> mid.lu[t] != FREE
      ensures cleaning && (exists t: nat :: t < g.Total() && old(flash).lu[t] == FREE) ==> res == OK
      ensures !cleaning && old(Drift()) == 0 ==> (res == OK <==> old(CanAllocate()))
      ensures res == OK <==> old(CanTake())
      ensures !cleaning && old(freeBlocks) >= 1 ==> freeBlocks >= 1
      ensures res != OK && old(freeBlocks) >= 1 ==> unchanged(this)
      ensures old(Spare()) >= 1 ==> res == OK && Spare() >= old(Spare()) - 1
      ensures !cleaning && old(Steady()) ==> mid == old(flash)
      ensures !cleaning && old(Steady()) ==> (res == OK <==> old(Left()) > 0)
      ensures !cleaning && old(Steady()) && res == OK ==> Left() == old(Left()) - 1
      ensures !cleaning ==> forall x :: if res == OK then Spent(old(Stock(x)), Stock(x), 1, if src in x then 0 else 1) else Ends(old(Stock(x)), 0, 0)
    {
      hide Spiffs.Valid;
      hide Spiffs.Drift;
      hide Spiffs.Spare;
      hide Spiffs.CanTake;
      hide Spiffs.CanAllocate;
      hide Spiffs.Steady;
      hide Spiffs.Left;
      hide PageMoveOps;
      hide MovedPage;
      hide Moved;
      hide Logged;
      hide QuickStep;
      hide Spent;
      hide Ends;
      hide Hold;
      hide StartSlot;
      hide Before;
      hide Geometry.BlockStart;
      hide Geometry.Total;
      ghost var v, free, cb, ce := flash, freeBlocks, freeCursorBlock, freeCursorEntry;
      LeftExact();
      StockSteady();
      ghost var block, entry;
      res, dst, mid, block, entry := CarryPage(data, id, src);
      if res == OK {
        QuickLive(v, mid, src);
        MovedLookup(mid, src, dst, id, MovedPage(v, data, src));
        TakenLeft(v.lu, mid.lu, free, cb, ce, block, entry);
      }
      forall x | !cleaning
        ensures if res == OK then Spent(old(Stock(x)), Stock(x), 1, if src in x then 0 else 1) else Ends(old(Stock(x)), 0, 0)
      {
        if res == OK && mid.lu == v.lu {
          HoldDrop(g, v.lu, flash.lu, x, src, g.blocks);
        }
        OneSpent(old(Stock(x)), Stock(x), src in x);
      }
    }

    method CarryPage(data: Option<Page>, id: int, src: nat)
      returns (res: Status, dst: nat, ghost mid: Flash, ghost block: nat, ghost entry: nat)
      requires Valid() && Live(id) && IsWord(id) && src < g.Total() && Live(flash.lu[src])
      modifies this`flash, this`log, this`freeBlocks, this`maxEraseCount, this`pagesDeleted, this`pagesAllocated
      modifies this`freeCursorBlock, this`freeCursorEntry
      ensures Lower(res)
      ensures cleaning ==> res != ERR_FULL && maxEraseCount == old(maxEraseCount)
      ensures Valid() && Drift() == old(Drift())
      ensures QuickStep(old(flash), mid) && (cleaning ==> mid == old(flash))
      ensures res != OK ==> flash == mid
      ensures res == OK ==> dst < g.Total() && dst < |mid.lu| && mid.lu[dst] == FREE
      ensures res == OK ==> flash == Moved(mid, src, dst, id, MovedPage(old(flash), data, src))
      ensures res == OK && cleaning ==> log == old(log) + PageMoveOps(old(flash), data, id, src, dst)
      ensures res == OK ==> Logged(g, old(flash), mid, old(log), log, PageMoveOps(old(flash), data, id, src, dst))
      ensures cleaning && (exists t: nat :: t < g.Total() && old(flash).lu[t] == FREE) ==> res == OK
      ensures !cleaning && old(Drift()) == 0 ==> (res == OK <==> old(CanAllocate()))
      ensures res == OK <==> old(CanTake())
      ensures !cleaning && old(freeBlocks) >= 1 ==> freeBlocks >= 1
      ensures res != OK && old(freeBlocks) >= 1 ==> unchanged(this)
      ensures old(Spare()) >= 1 ==> res == OK && Spare() >= old(Spare()) - 1
      ensures !cleaning && old(Steady()) ==> mid == old(flash)
      ensures Shaped(g, flash) && |mid.lu| == |mid.pages| == g.Total()
      ensures res == OK ==> Picking(block, entry, mid.lu, old(freeCursorBlock), old(freeCursorEntry)) && dst == g.BlockStart(block) + entry
      ensures !cleaning && old(Steady()) && res == OK ==> old(freeBlocks) >= 2 && freeBlocks == old(freeBlocks) - (if entry == 0 then 1 else 0)
    {
      hide Lower;
      hide PageMoveOps;
      hide Moved;
      hide MovedPage;
      hide Room;
      hide Logged;
      hide FreeSuffix;
      hide CursorOk;
      hide All;
      hide FreeBlocks;
      hide Geometry.BlockStart;
      hide Geometry.Total;
      hide ErasedFree;
      hide DeadMarked;
      hide Before;
      hide StartSlot;
      hide AllWords;
      hide Spiffs.Reserved;
      hide Spiffs.Steady;
      hide Spiffs.CanTake;
      hide QuickStep;
      RoomBlocks(g, freeBlocks, freeCursorEntry);
      var b, e;
      res, b, e := FindFree();
      block, entry, mid := b, e, flash;
      QuickSizes(old(flash), flash);
      if res == OK {
        Picked(b, e);
        QuickLive(old(flash), flash, src);
        ghost var before := log;
        SamePageMoved(old(flash), flash, data, id, src);
        dst := MoveTo(b, e, data, id, src);
        ghost var ops := PageMoveOps(old(flash), data, id, src, dst);
        LoggedMore(g, old(flash), mid, old(log), before, [], ops);
        assert [] + ops == ops;
      } else {
        dst := 0;
      }
    }

    /** Writes the page to the slot that was picked, and deletes the source. */
    method MoveTo(block: nat, entry: nat, data: Option<Page>, id: int, src: nat)
      returns (dst: nat)
      requires Reserved(block, entry) && Live(id) && IsWord(id) && Drift() >= (if entry == 0 then -1 else 0)
      requires src < g.Total() && Live(flash.lu[src])
      modifies this`flash, this`log, this`pagesAllocated, this`pagesDeleted
      ensures Valid() && Drift() == old(Drift()) + (if entry == 0 then 1 else 0)
      ensures dst == g.BlockStart(block) + entry < g.Total() && old(flash).lu[dst] == FREE
      ensures flash == Moved(old(flash), src, dst, id, MovedPage(old(flash), data, src))
      ensures log == old(log) + PageMoveOps(old(flash), data, id, src, dst)
    {
      hide FreeSuffix;
      hide CursorOk;
      hide All;
      hide FreeBlocks;
      hide ErasedFree;
      hide DeadMarked;
      hide Geometry.BlockStart;
      hide Geometry.Total;
      hide MovedPage;
      hide PageMoveOps;
      dst := WriteMoved(block, entry, data, id, src);
      PageDelete(src);
    }

    method WriteMoved(block: nat, entry: nat, data: Option<Page>, id: int, src: nat)
      returns (dst: nat)
      requires Reserved(block, entry) && Live(id) && IsWord(id) && Drift() >= (if entry == 0 then -1 else 0)
      requires src < g.Total()
      modifies this`flash, this`log, this`pagesAllocated
      ensures Valid() && Drift() == old(Drift()) + (if entry == 0 then 1 else 0)
      ensures dst == g.BlockStart(block) + entry < g.Total() && old(flash).lu[dst] == FREE
      ensures flash == Placed(old(flash), dst, id, MovedPage(old(flash), data, src))
      ensures log + DeleteOps(src) == old(log) + PageMoveOps(old(flash), data, id, src, dst)
    {
      hide FreeSuffix;
      hide CursorOk;
      hide All;
      hide FreeBlocks;
      hide Geometry.BlockStart;
      hide Geometry.Total;
      hide ProgramPage;
      MovedExact(if data.Some? then data.value else flash.pages[src]);
      dst := g.BlockStart(block) + entry;
      match data {
        case Some(p) =>
          Write(PageWrite(dst, p.(flags := AsUsed(p.flags).(final := true))));
          Write(EntryWrite(dst, id));
          pagesAllocated := pagesAllocated + 1;
          if !p.flags.final {
            Write(PageWrite(dst, Page(-1, -1, AsUsed(p.flags), Blank)));
          }
        case None =>
          Write(PageWrite(dst, flash.pages[src]));
          Write(EntryWrite(dst, id));
          pagesAllocated := pagesAllocated + 1;
      }
      assert flash.pages[dst] == MovedPage(old(flash), data, src);
      PlaceSound(g, old(flash), block, entry, id, MovedPage(old(flash), data, src));
    }

    /** Finds the live page of an id and a span, from the search cursor on. */
    method FindIdAndSpan(id: int, span: int) returns (res: Status, slot: nat)
      requires Shaped(g, flash) && cursorBlock < g.blocks
      modifies this`cursorBlock, this`cursorEntry
      ensures Lower(res)
      ensures cursorBlock < g.blocks
      ensures res == OK || res == ERR_NOT_FOUND
      ensures res == OK ==> slot < g.Total() && Matches(flash, id, span, slot)
      ensures res != OK ==> forall s: nat :: !Matches(flash, id, span, s)
    {
      hide Matches;
      hide Before;
      hide StartSlot;
      hide Geometry.Total;
      hide Geometry.BlockStart;
      var fl := flash;
      var accept := (s: nat) => Matches(fl, id, span, s);
      var found, block, entry;
      ghost var visits;
      found, block, entry, visits := FindEntry(g, cursorBlock, cursorEntry, accept);
      if !found {
        forall s: nat ensures !Matches(fl, id, span, s) {
          assert accept(s) == Matches(fl, id, span, s);
          assert s >= g.Total() ==> !Matches(fl, id, span, s) by { MatchesInRange(fl, id, span, s); }
        }
        return ERR_NOT_FOUND, 0;
      }
      slot := g.BlockStart(block) + entry;
      assert accept(slot);
      BlockFits(g, block);
      cursorBlock := block;
      cursorEntry := entry;
      res := OK;
    }

    /** Tells every descriptor of an object what happened to one of its index pages, and then the
        windows of those that have one. */
    method ObjectEvent(ev: IxEvent, id: int, span: int, pix: int, size: int)
      requires g.Valid() && Carries(g, ev, span)
      modifies this`fds
      ensures |fds| == |old(fds)|
      ensures forall i :: 0 <= i < |fds| ==> fds[i] == EventFd(old(fds)[i], ev, id, span, pix, size)
    {
      TellFields(ev, id, span, pix, size);
      ghost var told := fds;
      if ev.IxUpdated? || ev.IxNew? {
        var i := 0;
        while i < |fds|
          invariant 0 <= i <= |fds| == |told|
          invariant forall j :: 0 <= j < i ==> fds[j] == if ObjectId(told[j].objId) == ObjectId(id) then MapTold(told[j], ev) else told[j]
          invariant forall j :: i <= j < |fds| ==> fds[j] == told[j]
        {
          var fd := fds[i];
          if fd.fileNbr != 0 && fd.win.Some? && ObjectId(fd.objId) == ObjectId(id) {
            var w := UpdateMap(g, fd.win.value, span, ev.refs);
            fds := fds[i := fd.(win := Some(w))];
          }
          i := i + 1;
        }
      }
    }

    /** The first part of an event: header page, length, position and cursor. */
    method TellFields(ev: IxEvent, id: int, span: int, pix: int, size: int)
      modifies this`fds
      ensures |fds| == |old(fds)|
      ensures forall i :: 0 <= i < |fds| ==>
        fds[i] == if ObjectId(old(fds)[i].objId) == ObjectId(id) then FieldsTold(old(fds)[i], ev, span, pix, size) else old(fds)[i]
    {
      var i := 0;
      while i < |fds|
        invariant 0 <= i <= |fds| == |old(fds)|
        invariant forall j :: 0 <= j < i ==>
          fds[j] == if ObjectId(old(fds)[j].objId) == ObjectId(id) then FieldsTold(old(fds)[j], ev, span, pix, size) else old(fds)[j]
        invariant forall j :: i <= j < |fds| ==> fds[j] == old(fds)[j]
      {
        var fd := fds[i];
        if ObjectId(fd.objId) == ObjectId(id) {
          var known := true;
          if span == 0 {
            if ev != IxDeleted {
              if fd.score == 0 {
                known := false;
              } else {
                fd := fd.(hdr := pix);
                if size != 0 {
                  fd := fd.(size := size);
                  var act: nat := if size < 0 then 0 else size;
                  if act > 0 && fd.pending.Some? && fd.pending.value.offset + fd.pending.value.size > act {
                    act := fd.pending.value.offset + fd.pending.value.size;
                  }
                  if fd.position > act {
                    fd := fd.(position := act);
                  }
                  if fd.pending.Some? && fd.pending.value.offset > act + 1 {
                    fd := fd.(pending := None);
                  }
                }
              }
            } else {
              if fd.fileNbr != 0 {
                fd := fd.(pending := None);
              }
              fd := fd.(fileNbr := 0, objId := DELETED);
            }
          }
          if known && fd.cursorSpan == span {
            fd := fd.(cursorPix := if ev != IxDeleted then pix else NONE);
          }
        }
        fds := fds[i := fd];
        i := i + 1;
      }
    }

    /** Writes a new copy of an object index header page, with whatever of index, name and size
        is given, and tells the descriptors. */
    method UpdateIndexHdr(fd: Option<nat>, id0: int, hdr: nat, data: Option<Page>, name: Option<seq<int>>, size: int)
      returns (res: Status, dst: nat, ghost mid: Flash)
      requires Valid() && hdr < g.Total() && Live(flash.lu[hdr]) && Live(IndexId(ObjectId(id0))) && IsWord(IndexId(ObjectId(id0)))
      requires fd.Some? ==> fd.value < |fds|
      modifies this`flash, this`log, this`freeBlocks, this`maxEraseCount, this`pagesDeleted, this`pagesAllocated
      modifies this`freeCursorBlock, this`freeCursorEntry, this`fds
      ensures Lower(res)
      ensures cleaning ==> maxEraseCount == old(maxEraseCount)
      ensures cleaning ==> res != ERR_FULL
      ensures Valid() && Drift() == old(Drift())
      ensures QuickStep(old(flash), mid) && (cleaning ==> mid == old(flash))
      ensures res != OK ==> flash == mid && fds == old(fds)
      ensures
        var id := IndexId(ObjectId(id0));
        var page := EditHeader(if data.Some? then data.value else old(flash).pages[hdr], name, size);
        && (res == OK ==> dst < g.Total() && dst < |mid.lu| && mid.lu[dst] == FREE)
        && (res == OK ==> ValidateObjIx(page, id, 0) == OK)
        && (res == OK ==> flash == Moved(mid, hdr, dst, id, page.(flags := AsUsed(page.flags))))
        && (res == OK && cleaning ==> log == old(log) + MoveOps(hdr, dst, id, page))
        && (res == OK ==> Logged(g, old(flash), mid, old(log), log, MoveOps(hdr, dst, id, page)))
        && (res == OK ==> |fds| == |old(fds)| && forall i :: 0 <= i < |fds| ==>
             fds[i] == var e := EventFd(old(fds)[i], if data.Some? then PageStored(g, 0, page.body) else IxHeaderUpdated, id, page.span, dst, HeaderSize(page));
                       if fd == Some(i) then e.(hdr := dst) else e)
      ensures
        && cleaning && (exists t: nat :: t < g.Total() && old(flash).lu[t] == FREE)
        && ValidateObjIx(if data.Some? then data.value else old(flash).pages[hdr], IndexId(ObjectId(id0)), 0) == OK
        ==> res == OK
      ensures !cleaning && old(Drift()) == 0 ==>
        (res == OK <==> ValidateObjIx(if data.Some? then data.value else old(flash).pages[hdr], IndexId(ObjectId(id0)), 0) == OK && old(CanAllocate()))
      ensures res == OK <==> ValidateObjIx(if data.Some? then data.value else old(flash).pages[hdr], IndexId(ObjectId(id0)), 0) == OK && old(CanTake())
      ensures !cleaning && old(freeBlocks) >= 1 ==> freeBlocks >= 1
      ensures res != OK && old(freeBlocks) >= 1 ==> unchanged(this)
      ensures old(Spare()) >= 1 && ValidateObjIx(if data.Some? then data.value else old(flash).pages[hdr], IndexId(ObjectId(id0)), 0) == OK ==> res == OK
      ensures res == OK && old(Spare()) >= 1 ==> Spare() >= old(Spare()) - 1
      ensures !cleaning ==> forall x :: if res == OK then Spent(old(Stock(x)), Stock(x), 1, if hdr in x then 0 else 1) else ValidateObjIx(if data.Some? then data.value else old(flash).pages[hdr], IndexId(ObjectId(id0)), 0) == OK ==> Ends(old(Stock(x)), 0, 0)
      ensures res == OK ==> 0 < freeCursorEntry <= g.n && dst == g.BlockStart(freeCursorBlock) + freeCursorEntry - 1
    {
      hide Room;
      hide Logged;
      hide FreeSuffix;
      hide CursorOk;
      hide All;
      hide FreeBlocks;
      hide ErasedFree;
      hide DeadMarked;
      hide Moved;
      hide MoveOps;
      hide Before;
      hide StartSlot;
      hide Geometry.Total;
      hide Geometry.BlockStart;
      hide EventFd;
      var id := IndexId(ObjectId(id0));
      var page := if data.Some? then data.value else flash.pages[hdr];
      dst := 0;
      res := ValidateObjIx(page, id, 0);
      mid := flash;
      if res != OK {
        return;
      }
      page := EditHeader(page, name, size);
      res, dst, mid := PageMove(Some(page), id, hdr);
      if res == OK {
        ObjectEvent(if data.Some? then PageStored(g, 0, page.body) else IxHeaderUpdated, id, page.span, dst, HeaderSize(page));
        if fd.Some? {
          fds := fds[fd.value := fds[fd.value].(hdr := dst)];
        }
      }
    }
  }

  /** What every state has: cursors and counters are left out. */
  lemma ValidShape(fs: Spiffs)
    requires fs.Valid()
    ensures Shaped(fs.g, fs.flash) && FreeSuffix(fs.g, fs.flash.lu) && CursorOk(fs.g, fs.flash.lu, fs.freeCursorBlock, fs.freeCursorEntry)
    ensures fs.pagesAllocated == All(fs.flash.lu, InUse)
  {
  }
}
