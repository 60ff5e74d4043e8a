/** Choosing the block to collect: every block is scored and the best are kept, in order, in a
    table of bounded size. */
module Candidates {
  import opened Layout
  import opened Medium
  import opened Tally

  const W_DELETED := 5
  const W_USED := -1
  const W_ERASE_AGE := 50

  function Unsigned16(x: int): int {
    if x < 0 then x + 0x10000 else x
  }

  /** How long ago a block was erased, as the 16-bit distance of its erase count. */
  function EraseAge(maxCount: int, count: int): int {
    var c := Unsigned16(count);
    if maxCount > c then maxCount - c else 0xffff - (c - maxCount)
  }

  function ScoreOf(deleted: int, used: int, age: int, crammed: bool): int {
    deleted * W_DELETED + used * W_USED + age * (if crammed then 0 else W_ERASE_AGE)
  }

  /** The score a block deserves: from all its deleted and all its used entries. */
  function Score(g: Geometry, fl: Flash, maxCount: int, crammed: bool, b: nat): int
    requires Shaped(g, fl) && b < g.blocks
    requires g.BlockStart(b) + g.n <= |fl.lu|
  {
    var lo := g.BlockStart(b);
    ScoreOf(Count(fl.lu, lo, lo + g.n, Gone), Count(fl.lu, lo, lo + g.n, InUse), EraseAge(maxCount, fl.counts[b]), crammed)
  }

  ghost function Scores(g: Geometry, fl: Flash, maxCount: int, crammed: bool): (s: seq<int>)
    requires Shaped(g, fl)
    ensures |s| == g.blocks
  {
    seq(g.blocks, b requires 0 <= b < g.blocks => BlockFits(g, b); Score(g, fl, maxCount, crammed, b))
  }

  /** Counts the deleted and the used entries of a block, up to its first free entry. */
  method CountBlock(g: Geometry, fl: Flash, b: nat) returns (deleted: nat, used: nat)
    requires Shaped(g, fl) && b < g.blocks && FreeSuffix(g, fl.lu)
    ensures g.BlockStart(b) + g.n <= |fl.lu|
    ensures deleted == Count(fl.lu, g.BlockStart(b), g.BlockStart(b) + g.n, Gone)
    ensures used == Count(fl.lu, g.BlockStart(b), g.BlockStart(b) + g.n, InUse)
  {
    hide Geometry.BlockStart;
    hide Geometry.Total;
    BlockFits(g, b);
    var lo, entry := g.BlockStart(b), 0;
    deleted, used := 0, 0;
    while entry < g.n && fl.lu[lo + entry] != FREE
      invariant 0 <= entry <= g.n
      invariant deleted == Count(fl.lu, lo, lo + entry, Gone)
      invariant used == Count(fl.lu, lo, lo + entry, InUse)
    {
      if fl.lu[lo + entry] == DELETED {
        deleted := deleted + 1;
      } else {
        used := used + 1;
      }
      entry := entry + 1;
    }
    forall x | lo + entry <= x < lo + g.n
      ensures fl.lu[x] == FREE
    {
      assert InBlock(g, b, lo + entry) && InBlock(g, b, x);
    }
    CountSplit(fl.lu, lo, lo + entry, lo + g.n, Gone);
    CountSplit(fl.lu, lo, lo + entry, lo + g.n, InUse);
    CountNone(fl.lu, lo + entry, lo + g.n, Gone);
    CountNone(fl.lu, lo + entry, lo + g.n, InUse);
  }

  /** Block `a` goes before block `b`: a higher score, or the same score and a lower number. */
  predicate Better(s: seq<int>, a: int, b: int)
    requires 0 <= a < |s| && 0 <= b < |s|
  {
    s[a] > s[b] || (s[a] == s[b] && a < b)
  }

  /** The table holds the best of the first `seen` blocks: `kept` of them, best first, and the
      rest of the table is empty. */
  ghost predicate TopOf(s: seq<int>, table: seq<int>, seen: nat, kept: nat) {
    && seen <= |s| && kept == (if seen < |table| then seen else |table|)
    && (forall i :: 0 <= i < kept ==> 0 <= table[i] < seen)
    && (forall i, j :: 0 <= i < j < kept ==> Better(s, table[i], table[j]))
    && (forall i :: kept <= i < |table| ==> table[i] == -1)
    && (forall b :: 0 <= b < seen && b !in table[..kept] ==> kept == |table| && forall i :: 0 <= i < kept ==> Better(s, table[i], b))
  }

  /** `x` put at `at`: over what was there, or in front of it with the last entry falling out. */
  function Inserted(t: seq<int>, at: nat, x: int, over: bool): (r: seq<int>)
    requires at < |t|
    ensures |r| == |t|
  {
    if over then t[at := x] else t[..at] + [x] + t[at..|t| - 1]
  }

  lemma InsertedEntries(t: seq<int>, at: nat, x: int, over: bool)
    requires at < |t|
    ensures forall i {:trigger Inserted(t, at, x, over)[i]} :: 0 <= i < |t| ==>
      Inserted(t, at, x, over)[i] == if i < at then t[i] else if i == at then x else if over then t[i] else t[i - 1]
  {
  }

  /** Puts a block into the table: before the first entry that is empty or scores less; what
      was there moves down and the last entry falls out. */
  method Insert(blocks: array<int>, scores: array<int>, block: int, score: int) returns (at: nat)
    requires blocks != scores && blocks.Length == scores.Length
    modifies blocks, scores
    ensures at <= blocks.Length
    ensures forall i :: 0 <= i < at ==> old(blocks[i]) != -1 && old(scores[i]) >= score
    ensures at < blocks.Length ==> old(blocks[at]) == -1 || old(scores[at]) < score
    ensures at == blocks.Length ==> blocks[..] == old(blocks[..]) && scores[..] == old(scores[..])
    ensures at < blocks.Length ==>
      && blocks[..] == Inserted(old(blocks[..]), at, block, old(blocks[at]) == -1)
      && scores[..] == Inserted(old(scores[..]), at, score, old(blocks[at]) == -1)
  {
    hide Inserted;
    at := 0;
    while at < blocks.Length
      invariant at <= blocks.Length
      invariant forall i :: 0 <= i < at ==> blocks[i] != -1 && scores[i] >= score
      invariant blocks[..] == old(blocks[..]) && scores[..] == old(scores[..])
    {
      if blocks[at] == -1 {
        blocks[at], scores[at] := block, score;
        InsertedEntries(old(blocks[..]), at, block, true);
        InsertedEntries(old(scores[..]), at, score, true);
        assert blocks[..] == Inserted(old(blocks[..]), at, block, true);
        assert scores[..] == Inserted(old(scores[..]), at, score, true);
        return;
      } else if scores[at] < score {
        var j := blocks.Length - 2;
        while j >= at
          invariant at - 1 <= j <= blocks.Length - 2
          invariant forall i :: 0 <= i < blocks.Length ==> blocks[i] == if i <= j + 1 then old(blocks[i]) else old(blocks[i - 1])
          invariant forall i :: 0 <= i < blocks.Length ==> scores[i] == if i <= j + 1 then old(scores[i]) else old(scores[i - 1])
        {
          blocks[j + 1], scores[j + 1] := blocks[j], scores[j];
          j := j - 1;
        }
        blocks[at], scores[at] := block, score;
        InsertedEntries(old(blocks[..]), at, block, false);
        InsertedEntries(old(scores[..]), at, score, false);
        assert blocks[..] == Inserted(old(blocks[..]), at, block, false);
        assert scores[..] == Inserted(old(scores[..]), at, score, false);
        return;
      }
      at := at + 1;
    }
  }

  /** Where the next block belongs: behind every kept block that scores no less. */
  lemma PlaceFound(s: seq<int>, t: seq<int>, scores: seq<int>, at: nat, seen: nat, kept: nat)
    requires seen < |s| && TopOf(s, t, seen, kept) && |scores| == |t|
    requires ScoresAgree(s, t, scores, kept)
    requires at <= |t| && (forall i :: 0 <= i < at ==> t[i] != -1 && scores[i] >= s[seen])
    requires at < |t| ==> t[at] == -1 || scores[at] < s[seen]
    ensures at <= kept
    ensures forall i :: 0 <= i < at ==> Better(s, t[i], seen)
    ensures forall i :: at <= i < kept ==> Better(s, seen, t[i])
  {
    assert kept < |t| ==> t[kept] == -1;
    forall i | at <= i < kept
      ensures Better(s, seen, t[i])
    {
      assert i > at ==> Better(s, t[at], t[i]);
    }
  }

  ghost predicate Shifted(t: seq<int>, t': seq<int>, at: nat, x: int, kept': nat) {
    && |t'| == |t|
    && (forall i {:trigger t'[i]} :: 0 <= i < |t| ==>
          t'[i] == if i < at then t[i] else if i == at then x else if i < kept' then t[i - 1] else -1)
  }

  lemma InsertedAt(t: seq<int>, at: nat, x: int, kept: nat)
    requires at <= kept <= |t| && at < |t|
    requires forall i :: 0 <= i < kept ==> t[i] != -1
    requires forall i :: kept <= i < |t| ==> t[i] == -1
    ensures Shifted(t, Inserted(t, at, x, t[at] == -1), at, x, if kept < |t| then kept + 1 else kept)
  {
  }

  /** A block that is not in the new table was dropped now or earlier: every kept block is better. */
  lemma DroppedAreWorse(s: seq<int>, t: seq<int>, t': seq<int>, at: nat, seen: nat, kept: nat, kept': nat, b: nat)
    requires seen < |s| && TopOf(s, t, seen, kept) && |t'| == |t| && at <= kept && at < |t|
    requires kept' == if kept < |t| then kept + 1 else kept
    requires forall i :: 0 <= i < at ==> Better(s, t[i], seen)
    requires forall i :: at <= i < kept ==> Better(s, seen, t[i])
    requires Shifted(t, t', at, seen, kept')
    requires b < seen + 1 && b !in t'[..kept']
    ensures kept' == |t| && forall i :: 0 <= i < kept' ==> 0 <= t'[i] < |s| && Better(s, t'[i], b)
  {
    var u := t'[..kept'];
    assert forall j {:trigger t[j]} :: 0 <= j < kept && (j < at || j + 1 < kept') ==> u[if j < at then j else j + 1] == t[j];
    assert u[at] == seen;
    if i :| 0 <= i < kept && t[i] == b {
      assert at <= i && i + 1 == kept' == |t|;
      forall j | 0 <= j < kept'
        ensures 0 <= t'[j] < |s| && Better(s, t'[j], b)
      {
        assert j > at ==> t'[j] == t[j - 1];
      }
    } else {
      assert b !in t[..kept];
      assert Better(s, t[at], b);
      forall j | 0 <= j < kept'
        ensures 0 <= t'[j] < |s| && Better(s, t'[j], b)
      {
        assert j > at ==> t'[j] == t[j - 1];
      }
    }
  }

  lemma InsertedInOrder(s: seq<int>, t: seq<int>, t': seq<int>, at: nat, seen: nat, kept: nat, kept': nat)
    requires seen < |s| && TopOf(s, t, seen, kept) && |t'| == |t| && at <= kept && at < |t|
    requires kept' == if kept < |t| then kept + 1 else kept
    requires forall i :: 0 <= i < at ==> Better(s, t[i], seen)
    requires forall i :: at <= i < kept ==> Better(s, seen, t[i])
    requires Shifted(t, t', at, seen, kept')
    ensures forall i :: 0 <= i < kept' ==> 0 <= t'[i] < seen + 1
    ensures forall i, j :: 0 <= i < j < kept' ==> Better(s, t'[i], t'[j])
  {
    hide Better;
  }

  lemma InsertKeepsTop(s: seq<int>, t: seq<int>, t': seq<int>, at: nat, seen: nat, kept: nat)
    requires seen < |s| && TopOf(s, t, seen, kept) && |t'| == |t| && at <= kept
    requires forall i :: 0 <= i < at ==> Better(s, t[i], seen)
    requires forall i :: at <= i < kept ==> Better(s, seen, t[i])
    requires if at == |t| then t' == t else t' == Inserted(t, at, seen, t[at] == -1)
    ensures TopOf(s, t', seen + 1, if kept < |t| then kept + 1 else kept)
  {
    hide Better;
    hide Inserted;
    if at == |t| {
      return;
    }
    var kept' := if kept < |t| then kept + 1 else kept;
    InsertedAt(t, at, seen, kept);
    InsertedInOrder(s, t, t', at, seen, kept, kept');
    forall b | 0 <= b < seen + 1 && b !in t'[..kept']
      ensures kept' == |t| && forall i :: 0 <= i < kept' ==> 0 <= t'[i] < |s| && Better(s, t'[i], b)
    {
      DroppedAreWorse(s, t, t', at, seen, kept, kept', b);
    }
  }

  ghost predicate ScoresAgree(s: seq<int>, t: seq<int>, sc: seq<int>, kept: nat) {
    |sc| == |t| && kept <= |t| && forall i :: 0 <= i < kept ==> 0 <= t[i] < |s| && sc[i] == s[t[i]]
  }

  lemma InsertKeepsScores(s: seq<int>, t: seq<int>, sc: seq<int>, at: nat, seen: nat, kept: nat)
    requires seen < |s| && TopOf(s, t, seen, kept) && ScoresAgree(s, t, sc, kept) && at <= kept && at < |t|
    ensures ScoresAgree(s, Inserted(t, at, seen, t[at] == -1), Inserted(sc, at, s[seen], t[at] == -1), if kept < |t| then kept + 1 else kept)
  {
    hide Inserted;
    InsertedEntries(t, at, seen, t[at] == -1);
    InsertedEntries(sc, at, s[seen], t[at] == -1);
    assert kept < |t| ==> t[kept] == -1;
  }

  lemma EmptyTop(s: seq<int>, t: seq<int>, sc: seq<int>)
    requires |sc| == |t| && forall i :: 0 <= i < |t| ==> t[i] == -1
    ensures TopOf(s, t, 0, 0) && ScoresAgree(s, t, sc, 0)
  {
  }

  // What the table prefers, by what is in the blocks and when they were erased.

  /** Block `a` stands in front of block `b` wherever `b` stands. */
  ghost predicate Earlier(table: seq<int>, a: int, b: int) {
    forall j :: 0 <= j < |table| && table[j] == b ==> exists i :: 0 <= i < j && table[i] == a
  }

  /** Of two 16-bit erase counts, the first is from longer ago; counts from `max` on are from before the
      counter came to its end. */
  predicate Older(max: int, a: int, b: int) {
    var x, y := Unsigned16(a), Unsigned16(b);
    if (x < max) == (y < max) then x < y else x >= max && x - y < 0xffff
  }

  /** Erase counts make no difference between two blocks. */
  predicate SameAge(g: Geometry, fl: Flash, crammed: bool, a: nat, b: nat)
    requires Shaped(g, fl) && a < g.blocks && b < g.blocks
  {
    crammed || fl.counts[a] == fl.counts[b]
  }

  /** More deleted entries and fewer used ones come first. */
  ghost predicate Richer(g: Geometry, fl: Flash, crammed: bool, a: nat, b: nat)
    requires Shaped(g, fl) && a < g.blocks && b < g.blocks
  {
    && SameAge(g, fl, crammed, a, b) && CountIn(g, fl.lu, a, Gone) >= CountIn(g, fl.lu, b, Gone) && CountIn(g, fl.lu, a, InUse) <= CountIn(g, fl.lu, b, InUse)
    && (CountIn(g, fl.lu, a, Gone) > CountIn(g, fl.lu, b, Gone) || CountIn(g, fl.lu, a, InUse) < CountIn(g, fl.lu, b, InUse))
  }

  /** A deleted entry makes up for four used ones; five are worth the same, and then the lower number
      comes first. */
  ghost predicate Traded(g: Geometry, fl: Flash, crammed: bool, a: nat, b: nat)
    requires Shaped(g, fl) && a < g.blocks && b < g.blocks
  {
    var more, cost := CountIn(g, fl.lu, a, Gone) - CountIn(g, fl.lu, b, Gone), CountIn(g, fl.lu, a, InUse) - CountIn(g, fl.lu, b, InUse);
    SameAge(g, fl, crammed, a, b) && ((more > 0 && cost <= 4 * more) || (cost == 5 * more && a < b))
  }

  /** Of two blocks that hold the same, the one erased longer ago comes first, unless the medium is
      crammed. */
  ghost predicate Staler(g: Geometry, fl: Flash, max: int, crammed: bool, a: nat, b: nat)
    requires Shaped(g, fl) && a < g.blocks && b < g.blocks
  {
    !crammed && CountIn(g, fl.lu, a, Gone) == CountIn(g, fl.lu, b, Gone) && CountIn(g, fl.lu, a, InUse) == CountIn(g, fl.lu, b, InUse) && Older(max, fl.counts[a], fl.counts[b])
  }

  /** Then an erase makes up for nine deleted entries and four used ones, or for forty-nine used ones; ten
      deleted entries are worth the same. */
  ghost predicate Outlasts(g: Geometry, fl: Flash, max: int, crammed: bool, a: nat, b: nat)
    requires Shaped(g, fl) && a < g.blocks && b < g.blocks
  {
    var x, y := Unsigned16(fl.counts[a]), Unsigned16(fl.counts[b]);
    var ago, less, cost := y - x, CountIn(g, fl.lu, b, Gone) - CountIn(g, fl.lu, a, Gone), CountIn(g, fl.lu, a, InUse) - CountIn(g, fl.lu, b, InUse);
    && !crammed && (x < max) == (y < max)
    && ((ago > 0 && less <= 9 * ago && cost <= 4 * ago) || (ago > 0 && less <= 0 && cost <= 49 * ago) || (less == 10 * ago && cost == 0 && a < b))
  }

  /** The table is in that order. */
  ghost predicate Ranked(g: Geometry, fl: Flash, max: int, crammed: bool, table: seq<int>)
    requires Shaped(g, fl)
  {
    forall a: nat, b: nat {:trigger Earlier(table, a, b)} :: a < g.blocks && b < g.blocks ==>
      Richer(g, fl, crammed, a, b) || Traded(g, fl, crammed, a, b) || Staler(g, fl, max, crammed, a, b) || Outlasts(g, fl, max, crammed, a, b) ==>
        Earlier(table, a, b)
  }

  /** No block comes before block `b`. */
  ghost predicate Foremost(g: Geometry, fl: Flash, max: int, crammed: bool, b: nat)
    requires Shaped(g, fl)
  {
    && b < g.blocks
    && forall a: nat :: a < g.blocks ==>
         !Richer(g, fl, crammed, a, b) && !Traded(g, fl, crammed, a, b) && !Staler(g, fl, max, crammed, a, b) && !Outlasts(g, fl, max, crammed, a, b)
  }

  lemma FirstForemost(g: Geometry, fl: Flash, max: int, crammed: bool, table: seq<int>)
    requires Shaped(g, fl) && Ranked(g, fl, max, crammed, table) && |table| > 0 && 0 <= table[0] < g.blocks
    ensures Foremost(g, fl, max, crammed, table[0])
  {
    hide CountIn;
    var b: nat := table[0];
    forall a: nat | a < g.blocks
      ensures !Richer(g, fl, crammed, a, b) && !Traded(g, fl, crammed, a, b) && !Staler(g, fl, max, crammed, a, b) && !Outlasts(g, fl, max, crammed, a, b)
    {
      assert !Earlier(table, a, b);
    }
  }

  lemma BetterEarlier(s: seq<int>, table: seq<int>, a: nat, b: nat)
    requires TopOf(s, table, |s|, |table|) && a < |s| && b < |s| && Better(s, a, b)
    ensures Earlier(table, a, b)
  {
    forall j | 0 <= j < |table| && table[j] == b
      ensures exists i :: 0 <= i < j && table[i] == a
    {
      assert table[..|table|] == table;
      assert a in table;
      var i :| 0 <= i < |table| && table[i] == a;
      assert i < j;
    }
  }

  /** The order is that of the scores. */
  lemma RankedTop(g: Geometry, fl: Flash, max: int, crammed: bool, table: seq<int>)
    requires Shaped(g, fl) && TopOf(Scores(g, fl, max, crammed), table, g.blocks, |table|)
    ensures Ranked(g, fl, max, crammed, table)
  {
    hide TopOf;
    hide Earlier;
    hide Count;
    hide Geometry.BlockStart;
    hide Geometry.Total;
    var s := Scores(g, fl, max, crammed);
    forall a: nat, b: nat | a < g.blocks && b < g.blocks
      ensures Richer(g, fl, crammed, a, b) || Traded(g, fl, crammed, a, b) || Staler(g, fl, max, crammed, a, b) || Outlasts(g, fl, max, crammed, a, b) ==>
        Earlier(table, a, b)
    {
      BlockFits(g, a);
      BlockFits(g, b);
      if Better(s, a, b) {
        BetterEarlier(s, table, a, b);
      }
    }
  }

  /** Scores every block and keeps the best. `count` is the number of blocks seen, which the
      source also reports when the table could not hold them all. */
  method FindCandidate(g: Geometry, fl: Flash, maxCount: int, maxCandidates: nat, crammed: bool)
    returns (blocks: array<int>, count: nat)
    requires Shaped(g, fl) && FreeSuffix(g, fl.lu)
    ensures fresh(blocks) && blocks.Length == (if g.blocks < maxCandidates then g.blocks else maxCandidates)
    ensures count == g.blocks
    ensures TopOf(Scores(g, fl, maxCount, crammed), blocks[..], g.blocks, blocks.Length)
    ensures Ranked(g, fl, maxCount, crammed, blocks[..])
  {
    hide Ranked;
    hide Geometry.BlockStart;
    hide Geometry.Total;
    hide Count;
    hide FreeSuffix;
    hide TopOf;
    hide Inserted;
    hide ScoresAgree;
    ghost var s := Scores(g, fl, maxCount, crammed);
    var max := if g.blocks < maxCandidates then g.blocks else maxCandidates;
    blocks := new int[max](_ => -1);
    var scores := new int[max](_ => -1);
    var b := 0;
    count := 0;
    ghost var kept := 0;
    EmptyTop(s, blocks[..], scores[..]);
    while b < g.blocks
      invariant b == count <= g.blocks && kept == if b < max then b else max
      invariant blocks.Length == scores.Length == max
      invariant TopOf(s, blocks[..], b, kept)
      invariant ScoresAgree(s, blocks[..], scores[..], kept)
    {
      var deleted, used := CountBlock(g, fl, b);
      var score := ScoreOf(deleted, used, EraseAge(maxCount, fl.counts[b]), crammed);
      ghost var t, sc := blocks[..], scores[..];
      var at := Insert(blocks, scores, b, score);
      PlaceFound(s, t, sc, at, b, kept);
      InsertKeepsTop(s, t, blocks[..], at, b, kept);
      if at < max {
        InsertKeepsScores(s, t, sc, at, b, kept);
      }
      kept := if kept < max then kept + 1 else kept;
      b, count := b + 1, count + 1;
    }
    RankedTop(g, fl, maxCount, crammed, blocks[..]);
  }
}
