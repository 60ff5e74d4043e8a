/** What a write asks of the medium before it begins: which pages it allocates and in which order, and
    so where it stops when no more can be had. */
module Plans {
  import opened Words
  import opened Layout
  import opened Store
  import opened Files

  /** Where a write stops: for want of a page to store an index page in before data page `span` is
      turned to, for a new index page above it, for the data page itself, or for the last index page;
      or nowhere. */
  datatype Stage = Whole | AtStore(span: nat) | AtBegin(span: nat) | AtData(span: nat) | AtEnd

  /** The data pages that `len` bytes from `off` on touch. */
  function First(g: Geometry, off: nat): nat
    requires g.Valid()
  {
    Quot(off, g.dps)
  }

  function Last(g: Geometry, off: nat, len: nat): nat
    requires g.Valid() && len > 0
  {
    Quot(off + len - 1, g.dps)
  }

  // An append.

  /** The pages that storing index page `k` takes when the file had `off` bytes: a new copy of the
      header, unless the header of an empty file is stored for the first time, over its page. */
  function StoreCost(off: nat, k: nat): nat {
    if k == 0 && off == 0 then 0 else 1
  }

  /** Data page `s` belongs to another index page than the one before it. */
  predicate Crosses(g: Geometry, off: nat, s: nat)
    requires g.Valid()
  {
    s > First(g, off) && IxSpan(g, s) != IxSpan(g, s - 1)
  }

  /** The pages that an append to `off` bytes takes at data page `s`: to store the index page before, for a
      new index page, and for the data page. */
  function StoreAt(g: Geometry, off: nat, s: nat): nat
    requires g.Valid()
  {
    if Crosses(g, off, s) then StoreCost(off, IxSpan(g, s - 1)) else 0
  }

  function BeginAt(g: Geometry, off: nat, s: nat): nat
    requires g.Valid()
  {
    if Crosses(g, off, s) || (s == First(g, off) && IxSpan(g, s) > TopIx(g, off)) then 1 else 0
  }

  function DataAt(g: Geometry, off: nat, s: nat): nat
    requires g.Valid()
  {
    if s == First(g, off) && Rem(off, g.dps) > 0 then 0 else 1
  }

  /** Where an append to `off` bytes stops that has come to data page `s` and wants to reach `last`, when
      `q` more pages can be had. */
  function AppendStop(g: Geometry, off: nat, s: nat, last: nat, q: int): Stage
    requires g.Valid() && s <= last + 1
    decreases last + 1 - s
  {
    if s > last then if q < StoreCost(off, IxSpan(g, last)) then AtEnd else Whole
    else if q < StoreAt(g, off, s) then AtStore(s)
    else if q < StoreAt(g, off, s) + BeginAt(g, off, s) then AtBegin(s)
    else if q < StoreAt(g, off, s) + BeginAt(g, off, s) + DataAt(g, off, s) then AtData(s)
    else AppendStop(g, off, s + 1, last, q - (StoreAt(g, off, s) + BeginAt(g, off, s) + DataAt(g, off, s)))
  }

  /** How many pages it deletes from there on: copies of the header. */
  function AppendDrops(g: Geometry, off: nat, s: nat, last: nat): nat
    requires g.Valid() && s <= last + 1
    decreases last + 1 - s
  {
    if s > last then StoreCost(off, IxSpan(g, last)) else StoreAt(g, off, s) + AppendDrops(g, off, s + 1, last)
  }

  /** The bytes in front of the first that index page `k` covers and the append writes. */
  function RunStart(g: Geometry, off: nat, k: nat): nat
    requires g.Valid()
  {
    if k == IxSpan(g, First(g, off)) then off else FirstSpan(g, k) * g.dps
  }

  /** The bytes of `data` for positions `from` up to `n` are erased ones. */
  ghost predicate BlankBehind(off: nat, data: seq<int>, n: nat, from: int) {
    forall i :: 0 <= i < |data| && from <= off + i < n ==> data[i] == -1
  }

  /** What an append leaves that stops at `stage`: `n` bytes of the file are in place, its header says
      `word`, its index pages go up to `top`. */
  predicate AppendStopped(g: Geometry, off: nat, len: nat, stage: Stage, n: nat, word: int, top: nat)
    requires g.Valid() && len > 0
  {
    match stage
    case Whole => n == off + len && word == n && top == TopIx(g, n)
    case AtStore(s) => s <= Last(g, off, len) && Crosses(g, off, s) && n == s * g.dps && top == IxSpan(g, s - 1) && StoreCost(off, top) == 1 && word == RunStart(g, off, top)
    case AtBegin(s) => s <= Last(g, off, len) && BeginAt(g, off, s) == 1 && n == s * g.dps > 0 && word == n && top + 1 == IxSpan(g, s)
    case AtData(s) => First(g, off) <= s <= Last(g, off, len) && DataAt(g, off, s) == 1 && n == s * g.dps && top == IxSpan(g, s) && word == if StoreCost(off, top) == 0 then n else RunStart(g, off, top)
    case AtEnd => n == off + len && top == IxSpan(g, Last(g, off, len)) && StoreCost(off, top) == 1 && word == RunStart(g, off, top)
  }

  /** The file is in order: the header counts every byte in place, or all it does not count are erased
      ones in the same page, and the index has no page too many. */
  ghost predicate InOrder(g: Geometry, off: nat, data: seq<int>, n: nat, word: int, top: nat)
    requires g.Valid()
  {
    word > 0 && top == TopIx(g, word) && PageCount(g, word) == PageCount(g, n) && BlankBehind(off, data, n, word)
  }

  /** All that was written up to `n` are erased bytes in the page where the file ended. */
  ghost predicate NothingSeen(g: Geometry, off: nat, data: seq<int>, n: nat)
    requires g.Valid()
  {
    off > 0 && PageCount(g, off) == PageCount(g, n) && BlankBehind(off, data, n, off)
  }

  /** The stages at which an append leaves the file in order: when it stops in front of a new index page; at
      a data page, if that is under the header of a file that was empty and not its first, or if it is
      the first of the append and not the first of its index page; and whenever nothing can be seen of
      what it wrote, unless it has begun an index page. */
  ghost predicate AppendOrder(g: Geometry, off: nat, data: seq<int>, stage: Stage)
    requires g.Valid() && |data| > 0
  {
    match stage
    case Whole => true
    case AtBegin(s) => true
    case AtData(s) =>
      if StoreCost(off, IxSpan(g, s)) == 0 then s > 0
      else if s == First(g, off) then IxSpan(g, s) <= TopIx(g, off)
      else !Crosses(g, off, s) && NothingSeen(g, off, data, s * g.dps)
    case AtStore(s) => NothingSeen(g, off, data, s * g.dps)
    case AtEnd => NothingSeen(g, off, data, off + |data|)
  }

  lemma PageStart(g: Geometry, s: nat)
    requires g.Valid()
    ensures s * g.dps >= 0 && Quot(s * g.dps, g.dps) == s && Rem(s * g.dps, g.dps) == 0 && PageCount(g, s * g.dps) == s
    ensures TopIx(g, s * g.dps) == if s == 0 then 0 else IxSpan(g, s - 1)
    ensures s > 0 ==> s * g.dps > 0
  {
    hide Quot;
    hide Rem;
    hide IxSpan;
    QuotRemOf(s, 0, g.dps);
    PagePosition(g, s * g.dps, g.dps);
  }

  /** A file ends in the page of its last byte, at a page start or inside. */
  lemma PageEnd(g: Geometry, n: nat)
    requires g.Valid()
    ensures PageCount(g, n) == Quot(n, g.dps) + (if Rem(n, g.dps) == 0 then 0 else 1)
    ensures Rem(n, g.dps) == 0 ==> n == Quot(n, g.dps) * g.dps
  {
    hide Quot;
    hide Rem;
    PagePosition(g, n, g.dps - Rem(n, g.dps));
    QuotRem(n, g.dps);
  }

  /** The next page is under the same index page or opens the next one. */
  lemma NextPage(g: Geometry, s: nat)
    requires g.Valid() && s > 0
    ensures IxSpan(g, s) == IxSpan(g, s - 1) || (IxSpan(g, s) == IxSpan(g, s - 1) + 1 && FirstSpan(g, IxSpan(g, s)) == s)
  {
    hide IxSpan;
    hide FirstSpan;
    hide IxEntry;
    IxNext(g, s - 1);
    IxCover(g, s);
  }

  lemma Product(a: nat, b: nat, d: nat)
    ensures a <= b ==> a * d <= b * d
    ensures a < b ==> a * d + d <= b * d
  {
    if a < b {
      Spread(a, b, d);
    }
  }

  /** What is in place and not counted by the header, with index page `k` in the buffer. */
  lemma RunSeen(g: Geometry, off: nat, data: seq<int>, n: nat, k: nat)
    requires g.Valid() && off < n && k == IxSpan(g, PageCount(g, n) - 1) && StoreCost(off, k) == 1
    ensures RunStart(g, off, k) < n
    ensures InOrder(g, off, data, n, RunStart(g, off, k), k) <==> NothingSeen(g, off, data, n)
  {
    hide Quot;
    hide Rem;
    hide IxSpan;
    hide FirstSpan;
    hide IxEntry;
    var p := PageCount(g, n) - 1;
    QuotMonotone(off, n - 1, g.dps);
    PageEnd(g, off);
    IxMonotone(g, First(g, off), p);
    assert IxSpan(g, 0) == 0;
    QuotRemOf(0, 0, g.dps);
    if k != IxSpan(g, First(g, off)) {
      IxCover(g, p);
      var s := FirstSpan(g, k);
      Product(s, p, g.dps);
      QuotRem(n - 1, g.dps);
      PageStart(g, s);
    }
  }

  lemma DataOrder(g: Geometry, off: nat, data: seq<int>, s: nat, n: nat, word: int, top: nat)
    requires g.Valid() && |data| > 0 && AppendStopped(g, off, |data|, AtData(s), n, word, top)
    ensures InOrder(g, off, data, n, word, top) <==> AppendOrder(g, off, data, AtData(s))
  {
    hide Quot;
    hide Rem;
    hide IxSpan;
    hide FirstSpan;
    PageStart(g, s);
    PageEnd(g, off);
    if s > 0 {
      NextPage(g, s);
    }
    QuotRemOf(0, 0, g.dps);
    assert IxSpan(g, 0) == 0;
    if StoreCost(off, top) == 0 {
    } else if s == First(g, off) {
    } else {
      IxMonotone(g, First(g, off), s - 1);
      QuotRem(off, g.dps);
      Product(First(g, off), s, g.dps);
      if !Crosses(g, off, s) {
        RunSeen(g, off, data, n, top);
      }
    }
  }

  /** When an append leaves the file in order: exactly if it does by the stage at which it stopped. */
  lemma AppendExact(g: Geometry, off: nat, data: seq<int>, stage: Stage, n: nat, word: int, top: nat)
    requires g.Valid() && |data| > 0 && AppendStopped(g, off, |data|, stage, n, word, top)
    ensures InOrder(g, off, data, n, word, top) <==> AppendOrder(g, off, data, stage)
  {
    hide Quot;
    hide Rem;
    hide IxSpan;
    hide FirstSpan;
    PageEnd(g, off);
    match stage {
      case Whole =>
      case AtEnd =>
        RunSeen(g, off, data, n, top);
      case AtData(s) =>
        DataOrder(g, off, data, s, n, word, top);
      case AtStore(s) =>
        PageStart(g, s);
        QuotRem(off, g.dps);
        Product(First(g, off), s, g.dps);
        RunSeen(g, off, data, n, top);
      case AtBegin(s) =>
        PageStart(g, s);
        assert s > 0;
        NextPage(g, s);
    }
  }

  // What an append does at one data page, and what is then left of the plan.

  /** The append stops at data page `s`, wanting a page. */
  predicate StopsAt(g: Geometry, off: nat, s: nat, stage: Stage)
    requires g.Valid()
  {
    || (stage == AtStore(s) && StoreAt(g, off, s) == 1)
    || (stage == AtBegin(s) && BeginAt(g, off, s) == 1)
    || (stage == AtData(s) && DataAt(g, off, s) == 1)
  }

  /** The pages had at data page `s` in front of that. */
  function HadAt(g: Geometry, off: nat, s: nat, stage: Stage): nat
    requires g.Valid()
  {
    match stage
    case AtBegin(_) => StoreAt(g, off, s)
    case AtData(_) => StoreAt(g, off, s) + BeginAt(g, off, s)
    case _ => 0
  }

  /** Of these, the ones that took the place of a page deleted. */
  function DropsAt(g: Geometry, off: nat, s: nat, stage: Stage): nat
    requires g.Valid()
  {
    if stage.AtBegin? || stage.AtData? then StoreAt(g, off, s) else 0
  }

  function PagesAt(g: Geometry, off: nat, s: nat): nat
    requires g.Valid()
  {
    StoreAt(g, off, s) + BeginAt(g, off, s) + DataAt(g, off, s)
  }

  /** An append that had `start` when it began has come to data page `s` with `now`, according to plan. */
  ghost predicate OnPlan(g: Geometry, off: nat, s: nat, last: nat, start: Supply, now: Supply)
    requires g.Valid() && s <= last + 1 && First(g, off) <= last + 1
  {
    start.hold > AppendDrops(g, off, First(g, off), last) ==>
      && now.hold > AppendDrops(g, off, s, last)
      && AppendStop(g, off, s, last, now.left) == AppendStop(g, off, First(g, off), last, start.left)
  }

  /** An append that had `start` when it began was to stop at `stage`. */
  ghost predicate Foreseen(g: Geometry, off: nat, last: nat, start: Supply, stage: Stage)
    requires g.Valid() && First(g, off) <= last + 1
  {
    start.hold > AppendDrops(g, off, First(g, off), last) ==> stage == AppendStop(g, off, First(g, off), last, start.left)
  }

  lemma PlanOn(g: Geometry, off: nat, s: nat, last: nat, start: Supply, now: Supply, next: Supply)
    requires g.Valid() && s <= last && First(g, off) <= last + 1 && OnPlan(g, off, s, last, start, now)
    requires Spent(now, next, PagesAt(g, off, s), StoreAt(g, off, s))
    ensures OnPlan(g, off, s + 1, last, start, next)
  {
    hide StoreAt;
    hide BeginAt;
    hide DataAt;
  }

  lemma PlanStops(g: Geometry, off: nat, s: nat, last: nat, start: Supply, now: Supply, stage: Stage)
    requires g.Valid() && s <= last && First(g, off) <= last + 1 && OnPlan(g, off, s, last, start, now)
    requires StopsAt(g, off, s, stage) && Ends(now, HadAt(g, off, s, stage), DropsAt(g, off, s, stage))
    ensures Foreseen(g, off, last, start, stage)
  {
    hide StoreAt;
    hide BeginAt;
    hide DataAt;
  }

  lemma PlanEnds(g: Geometry, off: nat, last: nat, start: Supply, now: Supply, next: Supply, ok: bool)
    requires g.Valid() && First(g, off) <= last + 1 && OnPlan(g, off, last + 1, last, start, now)
    requires
      var c := StoreCost(off, IxSpan(g, last));
      if ok then Spent(now, next, c, c) else c == 1 && Ends(now, 0, 0)
    ensures Foreseen(g, off, last, start, if ok then Whole else AtEnd)
  {
  }

  // Where an append turns to another index page.

  lemma RunPositive(g: Geometry, off: nat, k: nat)
    requires g.Valid() && StoreCost(off, k) == 1 && (k == IxSpan(g, First(g, off)) || k > 0)
    ensures RunStart(g, off, k) > 0
  {
    hide Quot;
    QuotRemOf(0, 0, g.dps);
    if k != IxSpan(g, First(g, off)) {
      Product(1, FirstSpan(g, k), g.dps);
      Product(0, k - 1, g.ixLen);
    }
  }

  /** With `n` bytes in place under index page `prev`, the next page being under another one. */
  lemma TurnPage(g: Geometry, off: nat, n: nat, prev: nat)
    requires g.Valid() && off < n && prev == TopIx(g, n) && prev != IxSpan(g, Quot(n, g.dps))
    ensures var s := Quot(n, g.dps);
      && Rem(n, g.dps) == 0 && n == s * g.dps && s > 0 && IxSpan(g, s - 1) == prev && Crosses(g, off, s)
      && RunStart(g, off, IxSpan(g, s)) == n && IxSpan(g, s) == prev + 1
  {
    hide Quot;
    hide Rem;
    hide IxSpan;
    hide FirstSpan;
    var s := Quot(n, g.dps);
    PageEnd(g, n);
    QuotRem(off, g.dps);
    NextPage(g, s);
    QuotMonotone(off, n - 1, g.dps);
    IxMonotone(g, First(g, off), s - 1);
  }

  /** At the start of an append. */
  lemma StartPage(g: Geometry, off: nat)
    requires g.Valid()
    ensures var s := First(g, off);
      && RunStart(g, off, IxSpan(g, s)) == off && StoreAt(g, off, s) == 0
      && (IxSpan(g, s) > TopIx(g, off) ==> Rem(off, g.dps) == 0 && off > 0 && IxSpan(g, s) == TopIx(g, off) + 1)
      && (Rem(off, g.dps) == 0 ==> off == s * g.dps)
  {
    hide Quot;
    hide Rem;
    hide IxSpan;
    hide FirstSpan;
    PageEnd(g, off);
    QuotRemOf(0, 0, g.dps);
    if First(g, off) > 0 {
      NextPage(g, First(g, off));
    }
    assert IxSpan(g, 0) == 0;
  }

  /** Pages of a write in front of its end. */
  lemma InReach(g: Geometry, off: nat, len: nat, n: nat)
    requires g.Valid() && off <= n < off + len
    ensures First(g, off) <= Quot(n, g.dps) <= Last(g, off, len)
  {
    hide Quot;
    QuotMonotone(off, n, g.dps);
    QuotMonotone(n, off + len - 1, g.dps);
  }

  // A modification.

  /** The pages that a modification takes to turn to the index page of data page `s`: a new copy of the
      one before. */
  function TurnAt(g: Geometry, off: nat, s: nat): nat
    requires g.Valid()
  {
    if Crosses(g, off, s) then 1 else 0
  }

  /** Where a modification from `off` on stops that has come to data page `s` and wants to reach `last`,
      when `q` more pages can be had: each data page takes one, and each index page when it is left. */
  function ModifyStop(g: Geometry, off: nat, s: nat, last: nat, q: int): Stage
    requires g.Valid() && s <= last + 1
    decreases last + 1 - s
  {
    if s > last then if q < 1 then AtEnd else Whole
    else if q < TurnAt(g, off, s) then AtStore(s)
    else if q < TurnAt(g, off, s) + 1 then AtData(s)
    else ModifyStop(g, off, s + 1, last, q - (TurnAt(g, off, s) + 1))
  }

  /** What a modification leaves that stops at `stage`: the bytes up to `n` are changed, and the
      references to some of them are lost or not. */
  predicate ModifyStopped(g: Geometry, off: nat, len: nat, stage: Stage, n: nat, lost: bool)
    requires g.Valid() && len > 0
  {
    match stage
    case AtStore(s) => s <= Last(g, off, len) && Crosses(g, off, s) && n == s * g.dps && lost
    case AtData(s) => First(g, off) <= s <= Last(g, off, len) && n == (if s == First(g, off) then off else s * g.dps) && (lost <==> s > First(g, off) && !Crosses(g, off, s))
    case AtEnd => n == off + len && lost
    case Whole => n == off + len && !lost
    case AtBegin(_) => false
  }

  /** The stages at which a modification leaves the file in order: when it stops at the first data page
      under an index page. */
  predicate ModifyOrder(g: Geometry, off: nat, stage: Stage)
    requires g.Valid()
  {
    match stage
    case Whole => true
    case AtData(s) => s == First(g, off) || Crosses(g, off, s)
    case _ => false
  }

  lemma ModifyEnd(g: Geometry, off: nat, len: nat, ok: bool)
    requires g.Valid() && len > 0
    ensures ModifyStopped(g, off, len, if ok then Whole else AtEnd, off + len, !ok)
  {
  }

  /** When a modification loses references: exactly if it does by the stage at which it stopped. */
  lemma ModifyExact(g: Geometry, off: nat, len: nat, stage: Stage, n: nat, lost: bool)
    requires g.Valid() && len > 0 && ModifyStopped(g, off, len, stage, n, lost)
    ensures !lost <==> ModifyOrder(g, off, stage)
  {
  }

  /** A modification that had `start` when it began has come to data page `s` with `now`, according to
      plan. */
  ghost predicate ModifyOnPlan(g: Geometry, off: nat, s: nat, last: nat, start: Supply, now: Supply)
    requires g.Valid() && s <= last + 1 && First(g, off) <= last + 1
  {
    start.hold > 0 ==> now.hold > 0 && ModifyStop(g, off, s, last, now.left) == ModifyStop(g, off, First(g, off), last, start.left)
  }

  /** A modification that had `start` when it began was to stop at `stage`. */
  ghost predicate ModifyForeseen(g: Geometry, off: nat, last: nat, start: Supply, stage: Stage)
    requires g.Valid() && First(g, off) <= last + 1
  {
    start.hold > 0 ==> stage == ModifyStop(g, off, First(g, off), last, start.left)
  }

  lemma ModifyPlanOn(g: Geometry, off: nat, s: nat, last: nat, start: Supply, now: Supply, next: Supply)
    requires g.Valid() && s <= last && First(g, off) <= last + 1 && ModifyOnPlan(g, off, s, last, start, now)
    requires Spent(now, next, TurnAt(g, off, s) + 1, 0)
    ensures ModifyOnPlan(g, off, s + 1, last, start, next)
  {
    hide TurnAt;
  }

  lemma ModifyPlanStops(g: Geometry, off: nat, s: nat, last: nat, start: Supply, now: Supply, stage: Stage)
    requires g.Valid() && s <= last && First(g, off) <= last + 1 && ModifyOnPlan(g, off, s, last, start, now)
    requires if stage == AtStore(s) then TurnAt(g, off, s) == 1 && Ends(now, 0, 0) else stage == AtData(s) && Ends(now, TurnAt(g, off, s), 0)
    ensures ModifyForeseen(g, off, last, start, stage)
  {
    hide TurnAt;
  }

  lemma ModifyPlanEnds(g: Geometry, off: nat, last: nat, start: Supply, now: Supply, next: Supply, ok: bool)
    requires g.Valid() && First(g, off) <= last + 1 && ModifyOnPlan(g, off, last + 1, last, start, now)
    requires if ok then Spent(now, next, 1, 0) else Ends(now, 0, 0)
    ensures ModifyForeseen(g, off, last, start, if ok then Whole else AtEnd)
  {
  }
}
