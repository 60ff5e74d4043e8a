/** The NOR flash: lookup entries, pages, and the three ways of changing them. */
module Medium {
  import opened Words
  import opened Layout

  // Lookup entries. An object id is 1..0x7ffe; its index flag is the sign bit.
  const FREE: int := -1
  const DELETED: int := 0
  const IX_FLAG: int := 0x8000
  const MAX_ID: int := 0x7ffe

  /** A page reference or a file length that has not been written. */
  const NONE: int := -1

  predicate Live(entry: int) {
    entry != FREE && entry != DELETED
  }

  /** The lookup id of the index pages of object `id`: the id with its top bit set. */
  function IndexId(id: int): int {
    id - IX_FLAG
  }

  /** The object a live lookup id belongs to: the id with its top bit cleared. */
  function ObjectId(entry: int): int {
    if entry < 0 then entry + IX_FLAG else entry
  }

  predicate IsIndexId(entry: int) {
    entry < 0
  }

  /** Page flags, active low: true is a bit still one. */
  datatype Flags = Flags(used: bool, final: bool, index: bool, delet: bool, ixdele: bool)

  const ALL_SET := Flags(true, true, true, true, true)
  const DATA_FLAGS := Flags(false, false, true, true, true)
  const INDEX_FLAGS := Flags(false, false, false, true, true)

  function AndFlags(a: Flags, b: Flags): Flags {
    Flags(a.used && b.used, a.final && b.final, a.index && b.index, a.delet && b.delet, a.ixdele && b.ixdele)
  }

  /** What follows the page header.
      Blank   every word erased, not yet laid out
      Data    the bytes of a data page
      Header  an object index header page: file length, name, page references
      Index   any further object index page: page references
      Clash   words of different layouts programmed over each other */
  datatype Body =
    | Blank
    | Data(bytes: seq<int>)
    | Header(size: int, name: seq<int>, refs: seq<int>)
    | Index(refs: seq<int>)
    | Clash

  datatype Page = Page(id: int, span: int, flags: Flags, body: Body)

  const ERASED := Page(-1, -1, ALL_SET, Blank)

  /** The medium: one lookup entry and one page per slot, and each block's erase count. */
  datatype Flash = Flash(lu: seq<int>, pages: seq<Page>, counts: seq<int>)

  predicate Shaped(g: Geometry, fl: Flash) {
    && g.Valid()
    && |fl.lu| == |fl.pages| == g.Total()
    && |fl.counts| == g.blocks
  }

  // Programming: every word of the target is ANDed with the word written.

  function AndWords(a: seq<int>, b: seq<int>): (r: seq<int>)
    requires |a| == |b|
    ensures |r| == |a|
    ensures forall i :: 0 <= i < |r| ==> r[i] == And(a[i], b[i])
  {
    seq(|a|, i requires 0 <= i < |a| => And(a[i], b[i]))
  }

  function ProgramBody(was: Body, w: Body): Body {
    match was
    case Blank => w
    case Data(a) =>
      if w.Blank? then was
      else if w.Data? && |w.bytes| == |a| then Data(AndWords(a, w.bytes))
      else Clash
    case Header(size, name, refs) =>
      if w.Blank? then was
      else if w.Header? && |w.name| == |name| && |w.refs| == |refs| then
        Header(And(size, w.size), AndWords(name, w.name), AndWords(refs, w.refs))
      else Clash
    case Index(refs) =>
      if w.Blank? then was
      else if w.Index? && |w.refs| == |refs| then Index(AndWords(refs, w.refs))
      else Clash
    case Clash => Clash
  }

  function ProgramPage(was: Page, w: Page): Page {
    Page(And(was.id, w.id), And(was.span, w.span), AndFlags(was.flags, w.flags), ProgramBody(was.body, w.body))
  }

  datatype WriteOp =
    | EntryWrite(slot: nat, id: int)
    | PageWrite(slot: nat, page: Page)
    | BlockErase(block: nat)
    | CountWrite(block: nat, count: int)

  function EraseSlots(g: Geometry, fl: Flash, b: nat): (r: Flash)
    ensures |r.lu| == |fl.lu| && |r.pages| == |fl.pages| && |r.counts| == |fl.counts|
    ensures forall s :: 0 <= s < |fl.lu| ==> r.lu[s] == if InBlock(g, b, s) then FREE else fl.lu[s]
    ensures forall s :: 0 <= s < |fl.pages| ==> r.pages[s] == if InBlock(g, b, s) then ERASED else fl.pages[s]
  {
    Flash(
      seq(|fl.lu|, s requires 0 <= s < |fl.lu| => if InBlock(g, b, s) then FREE else fl.lu[s]),
      seq(|fl.pages|, s requires 0 <= s < |fl.pages| => if InBlock(g, b, s) then ERASED else fl.pages[s]),
      if b < |fl.counts| then fl.counts[b := -1] else fl.counts)
  }

  /** One hardware operation. */
  function Apply(g: Geometry, fl: Flash, op: WriteOp): (r: Flash)
    ensures |r.lu| == |fl.lu| && |r.pages| == |fl.pages| && |r.counts| == |fl.counts|
  {
    match op
    case EntryWrite(s, id) => if s < |fl.lu| then fl.(lu := fl.lu[s := And(fl.lu[s], id)]) else fl
    case PageWrite(s, p) => if s < |fl.pages| then fl.(pages := fl.pages[s := ProgramPage(fl.pages[s], p)]) else fl
    case BlockErase(b) => EraseSlots(g, fl, b)
    case CountWrite(b, c) => if b < |fl.counts| then fl.(counts := fl.counts[b := And(fl.counts[b], c)]) else fl
  }

  function Run(g: Geometry, fl: Flash, ops: seq<WriteOp>): (r: Flash)
    ensures |r.lu| == |fl.lu| && |r.pages| == |fl.pages| && |r.counts| == |fl.counts|
    decreases ops
  {
    if ops == [] then fl else Run(g, Apply(g, fl, ops[0]), ops[1..])
  }

  lemma {:induction false} RunAppend(g: Geometry, fl: Flash, a: seq<WriteOp>, b: seq<WriteOp>)
    ensures Run(g, fl, a + b) == Run(g, Run(g, fl, a), b)
    decreases a
  {
    if a == [] {
      assert a + b == b;
    } else {
      assert (a + b)[0] == a[0] && (a + b)[1..] == a[1..] + b;
      RunAppend(g, Apply(g, fl, a[0]), a[1..], b);
    }
  }

  // Programming over words that are still erased, or that already hold the value, is exact.

  predicate ExtendsWords(a: seq<int>, b: seq<int>) {
    |a| == |b| && forall i :: 0 <= i < |a| ==> a[i] == -1 || a[i] == b[i]
  }

  /** `w` differs from `was` only in words that are still all ones in `was`. */
  predicate Extends(was: Body, w: Body) {
    match was
    case Blank => true
    case Data(a) => w.Data? && ExtendsWords(a, w.bytes)
    case Header(size, name, refs) =>
      w.Header? && (size == -1 || size == w.size) && ExtendsWords(name, w.name) && ExtendsWords(refs, w.refs)
    case Index(refs) => w.Index? && ExtendsWords(refs, w.refs)
    case Clash => false
  }

  lemma AndWordsExact(a: seq<int>, b: seq<int>)
    requires ExtendsWords(a, b)
    ensures AndWords(a, b) == b
  {
    forall i | 0 <= i < |a| ensures And(a[i], b[i]) == b[i] {
      AndIdempotent(b[i]);
    }
  }

  /** NOR safety of a whole-page update in place. */
  lemma ProgramExact(was: Page, w: Page)
    requires Extends(was.body, w.body)
    requires was.id == w.id && was.span == w.span && was.flags == w.flags
    ensures ProgramPage(was, w) == w
  {
    AndIdempotent(w.id);
    AndIdempotent(w.span);
    match was.body
    case Blank =>
    case Data(a) => AndWordsExact(a, w.body.bytes);
    case Header(size, name, refs) =>
      AndIdempotent(w.body.size);
      AndWordsExact(name, w.body.name);
      AndWordsExact(refs, w.body.refs);
    case Index(refs) => AndWordsExact(refs, w.body.refs);
    case Clash =>
  }

  lemma ProgramFresh(w: Page)
    ensures ProgramPage(ERASED, w) == w
  {
  }

  /** A flags write leaves every other word of the page alone. */
  lemma ProgramFlags(was: Page, f: Flags)
    ensures ProgramPage(was, Page(-1, -1, f, Blank)) == was.(flags := AndFlags(was.flags, f))
  {
  }
}
