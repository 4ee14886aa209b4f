/** Rule L2: from the highest level down to the lowest odd level, reverse every
    contiguous stretch at that level or higher. */
module Reorder {
  import opened BidiTypes

  /** Stands for `usize::max_value()`, which is the index of no character. */
  const DELETED: int := -1

  // ----- What rule L2 means for a line without removed characters -----

  /** First position of the stretch of levels at or above `level` around `p`. */
  function StretchLo(levels: seq<Level>, level: Level, p: nat): (lo: nat)
    requires p < |levels| && levels[p] >= level
    ensures lo <= p
    ensures forall k :: lo <= k <= p ==> levels[k] >= level
    ensures lo == 0 || levels[lo - 1] < level
  {
    if p == 0 || levels[p - 1] < level then p else StretchLo(levels, level, p - 1)
  }

  /** One past the last position of that stretch. */
  function StretchHi(levels: seq<Level>, level: Level, p: nat): (hi: nat)
    requires p < |levels| && levels[p] >= level
    ensures p < hi <= |levels|
    ensures forall k :: p <= k < hi ==> levels[k] >= level
    ensures hi == |levels| || levels[hi] < level
    decreases |levels| - p
  {
    if p + 1 == |levels| || levels[p + 1] < level then p + 1 else StretchHi(levels, level, p + 1)
  }

  /** Where reversing every stretch at or above `level` sends position `p`. */
  function Mirror(levels: seq<Level>, level: Level, p: nat): (q: nat)
    requires p < |levels|
    ensures q < |levels|
  {
    if levels[p] >= level
    then StretchLo(levels, level, p) + StretchHi(levels, level, p) - 1 - p
    else p
  }

  /** One reversal pass. */
  function Pass(levels: seq<Level>, level: Level, order: seq<int>): (r: seq<int>)
    requires |order| == |levels|
    ensures |r| == |order|
  {
    seq(|order|, p requires 0 <= p < |order| => order[Mirror(levels, level, p)])
  }

  /** The passes from level `hi` down to level `lo`. */
  function Passes(levels: seq<Level>, order: seq<int>, hi: Level, lo: Level): (r: seq<int>)
    requires |order| == |levels|
    ensures |r| == |order|
    decreases hi - lo + 1
  {
    if hi < lo then order else Passes(levels, Pass(levels, hi, order), hi - 1, lo)
  }

  /** Where those passes put the element that starts at position `p`. */
  function Place(levels: seq<Level>, p: nat, hi: Level, lo: Level): (q: nat)
    requires p < |levels|
    ensures q < |levels|
    decreases hi - lo + 1
  {
    if hi < lo then p else Place(levels, Mirror(levels, hi, p), hi - 1, lo)
  }

  /** A stretch is fixed by its two ends. */
  lemma StretchBounds(levels: seq<Level>, level: Level, lo: nat, hi: nat, p: nat)
    requires lo <= p < hi <= |levels|
    requires forall k :: lo <= k < hi ==> levels[k] >= level
    requires lo == 0 || levels[lo - 1] < level
    requires hi == |levels| || levels[hi] < level
    ensures StretchLo(levels, level, p) == lo
    ensures StretchHi(levels, level, p) == hi
  {
  }

  /** A pass moves a position to its mirror image in its stretch, and undoes itself. */
  lemma MirrorInvolution(levels: seq<Level>, level: Level, p: nat)
    requires p < |levels|
    ensures Mirror(levels, level, Mirror(levels, level, p)) == p
    ensures levels[p] < level ==> Mirror(levels, level, p) == p
    ensures levels[p] >= level ==>
      var lo, hi, q := StretchLo(levels, level, p), StretchHi(levels, level, p), Mirror(levels, level, p);
      && lo <= q < hi && q - lo == hi - 1 - p && levels[q] >= level
      && StretchLo(levels, level, q) == lo && StretchHi(levels, level, q) == hi
  {
    if levels[p] >= level {
      var lo, hi := StretchLo(levels, level, p), StretchHi(levels, level, p);
      StretchBounds(levels, level, lo, hi, lo + hi - 1 - p);
    }
  }

  /** The passes move the element at `p` to its place and nowhere else. */
  lemma {:induction false} PassesAtPlace(levels: seq<Level>, order: seq<int>, p: nat, hi: Level, lo: Level)
    requires |order| == |levels| && p < |levels|
    ensures Passes(levels, order, hi, lo)[Place(levels, p, hi, lo)] == order[p]
    decreases hi - lo + 1
  {
    if hi >= lo {
      MirrorInvolution(levels, hi, p);
      PassesAtPlace(levels, Pass(levels, hi, order), Mirror(levels, hi, p), hi - 1, lo);
    }
  }

  lemma {:induction false} PlaceInjective(levels: seq<Level>, p: nat, q: nat, hi: Level, lo: Level)
    requires p < |levels| && q < |levels|
    requires Place(levels, p, hi, lo) == Place(levels, q, hi, lo)
    ensures p == q
    decreases hi - lo + 1
  {
    if hi >= lo {
      PlaceInjective(levels, Mirror(levels, hi, p), Mirror(levels, hi, q), hi - 1, lo);
      MirrorInvolution(levels, hi, p);
      MirrorInvolution(levels, hi, q);
    }
  }

  lemma {:induction false} PlaceOnto(levels: seq<Level>, q: nat, hi: Level, lo: Level) returns (p: nat)
    requires q < |levels|
    ensures p < |levels| && Place(levels, p, hi, lo) == q
    decreases hi - lo + 1
  {
    if hi < lo {
      p := q;
    } else {
      var m := PlaceOnto(levels, q, hi - 1, lo);
      p := Mirror(levels, hi, m);
      MirrorInvolution(levels, hi, m);
    }
  }

  /** A block of characters that lies within one stretch is turned around by the
      pass, and is still within a stretch of the next level down. */
  lemma BlockMirror(levels: seq<Level>, from: nat, width: nat, level: Level) returns (to: nat)
    requires from + width <= |levels| && width > 0
    requires forall k :: from <= k < from + width ==> levels[k] >= level
    ensures to + width <= |levels|
    ensures forall k :: from <= k < from + width ==> Mirror(levels, level, k) == to + width - 1 - (k - from)
    ensures forall k :: to <= k < to + width ==> levels[k] >= level
  {
    var a, b := StretchLo(levels, level, from), StretchHi(levels, level, from);
    assert from + width <= b;
    to := a + b - from - width;
    forall k | from <= k < from + width
      ensures Mirror(levels, level, k) == to + width - 1 - (k - from)
    {
      StretchBounds(levels, level, a, b, k);
    }
    forall k | to <= k < to + width
      ensures levels[k] >= level
    {
      assert a <= k < b;
      if k < from { assert a <= k <= from; } else { assert from <= k < b; }
    }
  }

  /** Hence it stays a block through every pass, turned around once a pass. */
  lemma {:induction false} BlockPlaces(levels: seq<Level>, from: nat, width: nat, hi: Level, lo: Level)
    returns (to: nat)
    requires from + width <= |levels| && width > 0
    requires forall k :: from <= k < from + width ==> levels[k] >= hi
    ensures to + width <= |levels|
    ensures forall k :: from <= k < from + width ==>
      Place(levels, k, hi, lo) ==
      if hi < lo || (hi - lo) % 2 == 1 then to + (k - from) else to + width - 1 - (k - from)
    decreases hi - lo + 1
  {
    if hi < lo {
      to := from;
    } else {
      var mid := BlockMirror(levels, from, width, hi);
      to := BlockPlaces(levels, mid, width, hi - 1, lo);
      forall k | from <= k < from + width
        ensures Place(levels, k, hi, lo) ==
          if (hi - lo) % 2 == 1 then to + (k - from) else to + width - 1 - (k - from)
      {
        var m := mid + width - 1 - (k - from);
        assert Mirror(levels, hi, k) == m;
        assert mid <= m < mid + width;
      }
    }
  }

  /** Passes above the level of a character leave it where it is. */
  lemma {:induction false} HighPassesFix(levels: seq<Level>, p: nat, hi: Level, lo: Level)
    requires p < |levels| && levels[p] <= hi
    ensures Place(levels, p, hi, lo) == Place(levels, p, levels[p], lo)
    decreases hi - levels[p]
  {
    if levels[p] < hi && hi >= lo {
      HighPassesFix(levels, p, hi - 1, lo);
    }
  }

  /** A maximal logical run of one level. */
  predicate LevelRun(levels: seq<Level>, start: nat, end: nat) {
    && start < end <= |levels|
    && (forall k :: start <= k < end ==> levels[k] == levels[start])
    && (start == 0 || levels[start - 1] != levels[start])
    && (end == |levels| || levels[end] != levels[start])
  }

  /** The run is shown contiguously, left to right when its level is even and
      right to left when it is odd. */
  predicate Shown(levels: seq<Level>, order: seq<int>, start: nat, end: nat, at: nat)
    requires start < end <= |levels|
  {
    && at + (end - start) <= |order|
    && forall k :: at <= k < at + (end - start) ==>
         order[k] == if IsOdd(levels[start]) then end - 1 - (k - at) else start + (k - at)
  }

  /** The lowest level from `i` to `j`, both included. */
  function Lowest(levels: seq<Level>, i: nat, j: nat): (l: Level)
    requires i <= j < |levels|
    ensures forall k :: i <= k <= j ==> l <= levels[k]
    ensures exists k :: i <= k <= j && levels[k] == l
    decreases j - i
  {
    if i == j then levels[i]
    else
      var l := Lowest(levels, i + 1, j);
      if levels[i] < l then levels[i] else l
  }

  /** What may be shown before what: the lowest level between two characters says which
      way the text that holds both runs. */
  predicate InReadingOrder(levels: seq<Level>, a: int, b: int)
    requires 0 <= a < |levels| && 0 <= b < |levels|
  {
    if a <= b then !IsOdd(Lowest(levels, a, b)) || a == b else IsOdd(Lowest(levels, b, a))
  }

  /** The promise of rule L2: the display order is a permutation in which every
      run reads in the direction of its level, and any two characters stand in the order
      that the lowest level between them asks for. */
  ghost predicate Displayed(levels: seq<Level>, order: seq<int>) {
    && |order| == |levels|
    && (forall q :: 0 <= q < |order| ==> 0 <= order[q] < |levels|)
    && (forall q, r :: 0 <= q < r < |order| ==> order[q] != order[r])
    && (forall i :: 0 <= i < |levels| ==> i in order)
    && (forall start: nat, end: nat :: LevelRun(levels, start, end) ==>
          exists at: nat :: Shown(levels, order, start, end, at))
    && (forall q, r :: 0 <= q < r < |order| ==> InReadingOrder(levels, order[q], order[r]))
  }

  lemma PositionOf(order: seq<int>, i: int) returns (r: nat)
    requires i in order
    ensures r < |order| && order[r] == i
  {
    r :| 0 <= r < |order| && order[r] == i;
  }

  lemma NextSame(levels: seq<Level>, a: seq<int>, b: seq<int>, q: nat)
    requires Displayed(levels, a) && Displayed(levels, b) && q < |levels|
    requires forall r :: 0 <= r < q ==> a[r] == b[r]
    ensures a[q] == b[q]
  {
    hide Lowest, Shown, LevelRun;
    var r := PositionOf(a, b[q]);
    var t := PositionOf(b, a[q]);
    assert q < r ==> InReadingOrder(levels, a[q], a[r]);
    assert q < t ==> InReadingOrder(levels, b[q], b[t]);
  }

  /** There is one such order. */
  lemma DisplayedUnique(levels: seq<Level>, a: seq<int>, b: seq<int>)
    requires Displayed(levels, a) && Displayed(levels, b)
    ensures a == b
  {
    hide InReadingOrder, Shown, LevelRun;
    var q := 0;
    while q < |levels|
      invariant q <= |levels| && forall r :: 0 <= r < q ==> a[r] == b[r]
    {
      NextSame(levels, a, b, q);
      q := q + 1;
    }
  }

  function Identity(n: nat): (r: seq<int>)
    ensures |r| == n
  {
    seq(n, i => i)
  }

  /** The highest level, and 0 for a line of no level. */
  function Highest(levels: seq<Level>): (h: Level)
    ensures forall k :: 0 <= k < |levels| ==> levels[k] <= h
    ensures h == 0 || h in levels
    ensures h >= 0
  {
    if levels == [] then 0 else Max(Highest(levels[..|levels| - 1]), levels[|levels| - 1])
  }

  predicate HasOdd(levels: seq<Level>) {
    exists k :: 0 <= k < |levels| && IsOdd(levels[k])
  }

  /** The lowest odd level, or MAX_DEPTH + 1 when every level is even. */
  function LowestOdd(levels: seq<Level>): (l: Level)
    ensures l <= MAX_DEPTH + 1
    ensures forall k :: 0 <= k < |levels| && IsOdd(levels[k]) ==> l <= levels[k]
    ensures l == MAX_DEPTH + 1 || (IsOdd(l) && l in levels)
  {
    if levels == [] then MAX_DEPTH + 1
    else
      var last, l := levels[|levels| - 1], LowestOdd(levels[..|levels| - 1]);
      if IsOdd(last) && last < l then last else l
  }

  /** The display order of a line without removed characters. */
  function DisplayOrder(levels: seq<Level>): (order: seq<int>)
  {
    Passes(levels, Identity(|levels|), Highest(levels), LowestOdd(levels))
  }

  /** Two neighbours at the level that L2 also uses to mean "no odd level". */
  predicate AdjacentTop(levels: seq<Level>) {
    exists k :: 0 <= k < |levels| - 1 && levels[k] == levels[k + 1] == MAX_DEPTH + 1
  }

  /** What the passes from `hi` down to `lo` do to one run of level `l`. */
  lemma RunPlaces(levels: seq<Level>, start: nat, end: nat, hi: Level, lo: Level) returns (to: nat)
    requires LevelRun(levels, start, end) && levels[start] <= hi
    ensures to + (end - start) <= |levels|
    ensures var l := levels[start];
      forall k :: start <= k < end ==>
        Place(levels, k, hi, lo) ==
        if l < lo || (l - lo) % 2 == 1 then to + (k - start) else to + (end - start) - 1 - (k - start)
  {
    to := BlockPlaces(levels, start, end - start, levels[start], lo);
    forall k | start <= k < end
      ensures Place(levels, k, hi, lo) == Place(levels, k, levels[start], lo)
    {
      HighPassesFix(levels, k, hi, lo);
    }
  }

  /** Whatever the passes, the result is a permutation. */
  lemma PassesPermute(levels: seq<Level>, hi: Level, lo: Level)
    ensures var order := Passes(levels, Identity(|levels|), hi, lo);
      && (forall q :: 0 <= q < |order| ==> 0 <= order[q] < |levels|)
      && (forall q, r :: 0 <= q < r < |order| ==> order[q] != order[r])
      && (forall i :: 0 <= i < |levels| ==> i in order)
  {
    var id := Identity(|levels|);
    var order := Passes(levels, id, hi, lo);
    forall i | 0 <= i < |levels|
      ensures i in order
    {
      PassesAtPlace(levels, id, i, hi, lo);
      assert order[Place(levels, i, hi, lo)] == i;
    }
    forall q | 0 <= q < |order|
      ensures 0 <= order[q] < |levels| && Place(levels, order[q], hi, lo) == q
    {
      var p := PlaceOnto(levels, q, hi, lo);
      PassesAtPlace(levels, id, p, hi, lo);
    }
  }

  /** One run, in the order the passes give. */
  lemma RunShown(levels: seq<Level>, start: nat, end: nat, hi: Level, lo: Level) returns (to: nat)
    requires LevelRun(levels, start, end) && levels[start] <= hi
    ensures var order, l := Passes(levels, Identity(|levels|), hi, lo), levels[start];
      && to + (end - start) <= |order|
      && forall q :: to <= q < to + (end - start) ==>
           order[q] == if l < lo || (l - lo) % 2 == 1 then start + (q - to) else end - 1 - (q - to)
  {
    hide Passes, Place;
    var id := Identity(|levels|);
    var order, l := Passes(levels, id, hi, lo), levels[start];
    to := RunPlaces(levels, start, end, hi, lo);
    forall q | to <= q < to + (end - start)
      ensures order[q] == if l < lo || (l - lo) % 2 == 1 then start + (q - to) else end - 1 - (q - to)
    {
      var k := if l < lo || (l - lo) % 2 == 1 then start + (q - to) else end - 1 - (q - to);
      assert start <= k < end;
      PassesAtPlace(levels, id, k, hi, lo);
    }
  }

  // ----- The order among all characters -----

  /** The lowest level between two positions, in either order. */
  function Between(levels: seq<Level>, p: nat, q: nat): Level
    requires p < |levels| && q < |levels|
  {
    if p <= q then Lowest(levels, p, q) else Lowest(levels, q, p)
  }

  /** A pass at or below the lowest level between two positions turns them around. */
  lemma MirrorTogether(levels: seq<Level>, level: Level, p: nat, q: nat)
    requires p < q < |levels| && Lowest(levels, p, q) >= level
    ensures Mirror(levels, level, q) < Mirror(levels, level, p)
    ensures Lowest(levels, Mirror(levels, level, q), Mirror(levels, level, p)) >= level
  {
    hide StretchLo, StretchHi;
    MirrorInvolution(levels, level, p);
    var lo, hi := StretchLo(levels, level, p), StretchHi(levels, level, p);
    StretchBounds(levels, level, lo, hi, q);
  }

  /** A pass above it keeps their order and that level. */
  lemma MirrorApart(levels: seq<Level>, level: Level, p: nat, q: nat)
    requires p < q < |levels| && Lowest(levels, p, q) < level
    ensures Mirror(levels, level, p) < Mirror(levels, level, q)
    ensures Lowest(levels, Mirror(levels, level, p), Mirror(levels, level, q)) == Lowest(levels, p, q)
  {
    hide StretchLo, StretchHi, Lowest;
    MirrorInvolution(levels, level, p);
    MirrorInvolution(levels, level, q);
    var m := Lowest(levels, p, q);
    var k :| p <= k <= q && levels[k] == m;
    var p', q' := Mirror(levels, level, p), Mirror(levels, level, q);
    assert p' <= k <= q' && p' < q';
    forall j | p' <= j <= q' ensures levels[j] >= m {
    }
  }

  /** How often the passes from `hi` down to `lo` turn two positions around. */
  function Turns(m: Level, hi: Level, lo: Level): nat {
    if m < lo || hi < lo then 0 else if m < hi then m - lo + 1 else hi - lo + 1
  }

  lemma {:induction false} PlaceOrder(levels: seq<Level>, p: nat, q: nat, hi: Level, lo: Level)
    requires p < |levels| && q < |levels| && p != q
    ensures Place(levels, p, hi, lo) < Place(levels, q, hi, lo) <==>
            if Turns(Between(levels, p, q), hi, lo) % 2 == 0 then p < q else q < p
    decreases hi - lo + 1
  {
    hide Mirror, Lowest;
    if hi >= lo {
      var x, y := if p < q then p else q, if p < q then q else p;
      if Lowest(levels, x, y) >= hi { MirrorTogether(levels, hi, x, y); } else { MirrorApart(levels, hi, x, y); }
      PlaceOrder(levels, Mirror(levels, hi, p), Mirror(levels, hi, q), hi - 1, lo);
    }
  }

  lemma NoTopBetween(levels: seq<Level>, x: nat, y: nat)
    requires Plausible(levels) && !AdjacentTop(levels) && x < y < |levels|
    ensures Lowest(levels, x, y) <= MAX_DEPTH
  {
    hide Lowest;
    assert !(levels[x] == levels[x + 1] == MAX_DEPTH + 1);
  }

  /** Any two characters are displayed in the order that the lowest level between them
      asks for. */
  lemma PairOrdered(levels: seq<Level>, q: nat, r: nat)
    requires Plausible(levels) && (HasOdd(levels) || !AdjacentTop(levels))
    requires q < r < |levels|
    ensures |DisplayOrder(levels)| == |levels|
    ensures 0 <= DisplayOrder(levels)[q] < |levels| && 0 <= DisplayOrder(levels)[r] < |levels|
    ensures InReadingOrder(levels, DisplayOrder(levels)[q], DisplayOrder(levels)[r])
  {
    hide Passes, Place, Lowest, Highest, LowestOdd;
    var hi, lo := Highest(levels), LowestOdd(levels);
    var id := Identity(|levels|);
    var a := PlaceOnto(levels, q, hi, lo);
    var b := PlaceOnto(levels, r, hi, lo);
    PassesAtPlace(levels, id, a, hi, lo);
    PassesAtPlace(levels, id, b, hi, lo);
    PlaceOrder(levels, a, b, hi, lo);
    if !HasOdd(levels) { NoTopBetween(levels, if a < b then a else b, if a < b then b else a); }
  }

  predicate Plausible(levels: seq<Level>) {
    forall k :: 0 <= k < |levels| ==> 0 <= levels[k] <= MAX_DEPTH + 1
  }

  /** On such a line every run is displayed in the direction of its level. */
  lemma RunDisplayed(levels: seq<Level>, start: nat, end: nat) returns (at: nat)
    requires Plausible(levels) && LevelRun(levels, start, end)
    requires HasOdd(levels) || !AdjacentTop(levels)
    ensures Shown(levels, DisplayOrder(levels), start, end, at)
  {
    var l, hi, lo := levels[start], Highest(levels), LowestOdd(levels);
    at := RunShown(levels, start, end, hi, lo);
    if !HasOdd(levels) && l == lo {
      assert start + 1 < |levels| ==> levels[start + 1] != l;
    }
  }

  /** Rule L2 does what it is for whenever the line has an odd level or no two
      neighbours at level MAX_DEPTH + 1. */
  lemma DisplayOrderCorrect(levels: seq<Level>)
    requires Plausible(levels)
    requires HasOdd(levels) || !AdjacentTop(levels)
    ensures Displayed(levels, DisplayOrder(levels))
  {
    PassesPermute(levels, Highest(levels), LowestOdd(levels));
    assert DisplayOrder(levels) == Passes(levels, Identity(|levels|), Highest(levels), LowestOdd(levels));
    forall start: nat, end: nat | LevelRun(levels, start, end)
      ensures exists at: nat :: Shown(levels, DisplayOrder(levels), start, end, at)
    {
      var at := RunDisplayed(levels, start, end);
    }
    forall q, r | 0 <= q < r < |levels|
      ensures InReadingOrder(levels, DisplayOrder(levels)[q], DisplayOrder(levels)[r])
    {
      PairOrdered(levels, q, r);
    }
  }

  /** The run of one level around position `k`. */
  lemma RunAround(levels: seq<Level>, k: nat) returns (start: nat, end: nat)
    requires k < |levels|
    ensures LevelRun(levels, start, end) && start <= k < end
  {
    start := k;
    while start > 0 && levels[start - 1] == levels[k]
      invariant start <= k
      invariant forall j :: start <= j <= k ==> levels[j] == levels[k]
    {
      start := start - 1;
    }
    end := k + 1;
    while end < |levels| && levels[end] == levels[k]
      invariant k < end <= |levels|
      invariant forall j :: start <= j < end ==> levels[j] == levels[k]
    {
      end := end + 1;
    }
  }

  /** On every other line it fails: with no odd level, neighbours at level
      MAX_DEPTH + 1 are reversed although that level is even. */
  lemma DisplayOrderWrong(levels: seq<Level>)
    requires Plausible(levels)
    requires !HasOdd(levels) && AdjacentTop(levels)
    ensures !Displayed(levels, DisplayOrder(levels))
  {
    var hi, lo := Highest(levels), LowestOdd(levels);
    var order := DisplayOrder(levels);
    PassesPermute(levels, hi, lo);
    var k :| 0 <= k < |levels| - 1 && levels[k] == levels[k + 1] == MAX_DEPTH + 1;
    var start, end := RunAround(levels, k);
    assert end >= start + 2;
    var to := RunShown(levels, start, end, hi, lo);
    assert order[to] == end - 1 && order[to + 1] == end - 2;
    forall at: nat
      ensures !Shown(levels, order, start, end, at)
    {
      var last := at + (end - start) - 1;
      if last < |order| && order[last] == end - 1 {
        assert last == to;
        assert last > 0 ==> order[last - 1] != order[to + 1];
      }
    }
  }

  /** So the guard is exact. */
  lemma DisplayOrderExact(levels: seq<Level>)
    requires Plausible(levels)
    ensures Displayed(levels, DisplayOrder(levels)) <==> HasOdd(levels) || !AdjacentTop(levels)
  {
    if HasOdd(levels) || !AdjacentTop(levels) {
      DisplayOrderCorrect(levels);
    } else {
      DisplayOrderWrong(levels);
    }
  }

  /** Two Arabic numbers inside 62 left-to-right embeddings reach this case. */
  lemma TopNeighboursReversed()
    ensures DisplayOrder([126, 126]) == [1, 0]
  {
    var levels := [126, 126];
    assert LevelRun(levels, 0, 2);
    assert levels[..1] == [126] && levels[..1][..0] == [];
    assert Highest(levels) == 126 && LowestOdd(levels) == 126;
    var to := RunShown(levels, 0, 2, 126, 126);
    assert DisplayOrder(levels)[to] == 1 && DisplayOrder(levels)[to + 1] == 0;
  }
}
