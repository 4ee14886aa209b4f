/** `reverse_levels`: rule L2 in place, on a line that still holds the characters
    removed by rule X9. Removed characters are transparent: dropping them at the
    end gives the same order as dropping them first. */
module LineOrder {
  import opened Wrappers
  import opened BidiTypes
  import opened Reorder

  /** The levels a line can have: NO_LEVEL where rule X9 removed the character. */
  predicate LineLevels(levels: seq<Level>) {
    forall k :: 0 <= k < |levels| ==> NO_LEVEL <= levels[k] <= MAX_DEPTH + 1
  }

  /** The entries that are not placeholders; NO_LEVEL and DELETED are both -1. */
  function Kept(s: seq<int>): (r: seq<int>)
    ensures |r| <= |s|
  {
    if s == [] then []
    else
      var last := s[|s| - 1];
      assert s == s[..|s| - 1] + [last];
      Kept(s[..|s| - 1]) + if last == NO_LEVEL then [] else [last]
  }

  lemma {:induction false} KeptPlausible(s: seq<Level>)
    requires LineLevels(s)
    ensures Plausible(Kept(s))
  {
    if s != [] { KeptPlausible(s[..|s| - 1]); }
  }

  function Reverse(s: seq<int>): (r: seq<int>)
    ensures |r| == |s|
  {
    seq(|s|, k requires 0 <= k < |s| => s[|s| - 1 - k])
  }

  /** The slice `[lo..hi]` of `s` turned around in place. */
  function ReverseSlice(s: seq<int>, lo: nat, hi: nat): (r: seq<int>)
    requires lo <= hi <= |s|
    ensures |r| == |s|
  {
    s[..lo] + Reverse(s[lo..hi]) + s[hi..]
  }

  lemma {:induction false} KeptConcat(a: seq<int>, b: seq<int>)
    ensures Kept(a + b) == Kept(a) + Kept(b)
  {
    if b == [] {
      assert a + b == a;
    } else {
      var n := |b| - 1;
      assert (a + b)[..|a + b| - 1] == a + b[..n];
      KeptConcat(a, b[..n]);
    }
  }

  lemma {:induction false} KeptReverse(s: seq<int>)
    ensures Kept(Reverse(s)) == Reverse(Kept(s))
  {
    if s == [] {
      assert Reverse(s) == [];
    } else {
      var n := |s| - 1;
      var init, last := s[..n], s[n];
      assert Reverse(s) == [last] + Reverse(init);
      KeptConcat([last], Reverse(init));
      KeptReverse(init);
      assert [last][..0] == [];
      assert Kept([last]) == if last == NO_LEVEL then [] else [last];
      var k := Kept(init);
      assert last != NO_LEVEL ==> Reverse(k + [last]) == [last] + Reverse(k);
    }
  }

  /** How many characters before position `b` are not removed. */
  function Rank(levels: seq<Level>, b: nat): (c: nat)
    requires b <= |levels|
  {
    |Kept(levels[..b])|
  }

  lemma RankStep(levels: seq<Level>, i: nat)
    requires i < |levels|
    ensures Rank(levels, i + 1) == Rank(levels, i) + if levels[i] == NO_LEVEL then 0 else 1
    ensures Rank(levels, i + 1) <= |Kept(levels)|
    ensures levels[i] != NO_LEVEL ==> Kept(levels)[Rank(levels, i)] == levels[i]
  {
    assert levels[..i + 1][..i] == levels[..i];
    assert levels == levels[..i + 1] + levels[i + 1..];
    KeptConcat(levels[..i + 1], levels[i + 1..]);
  }

  lemma {:induction false} RankMonotone(levels: seq<Level>, a: nat, b: nat)
    requires a < b <= |levels|
    ensures Rank(levels, a) <= Rank(levels, b) <= |Kept(levels)|
    ensures levels[a] != NO_LEVEL ==> Rank(levels, a) < Rank(levels, b)
    decreases b
  {
    RankStep(levels, b - 1);
    if a < b - 1 { RankMonotone(levels, a, b - 1); }
  }

  /** A boundary that no reversal at or above `level` crosses. */
  ghost predicate Cut(levels: seq<Level>, level: Level, b: nat) {
    && b <= |levels|
    && (b == |levels| || levels[b] != NO_LEVEL)
    && var live, c := Kept(levels), Rank(levels, b);
       c == 0 || c >= |live| || live[c - 1] < level || live[c] < level
  }

  /** Every cut still has as many real entries before it as the line has. */
  ghost predicate Aligned(levels: seq<Level>, level: Level, visual: seq<int>) {
    && |visual| == |levels|
    && forall b: nat :: Cut(levels, level, b) ==> |Kept(visual[..b])| == Rank(levels, b)
  }

  /** A pass that has only reached compact position `c`. */
  function PassUpTo(live: seq<Level>, level: Level, order: seq<int>, c: nat): (r: seq<int>)
    requires |order| == |live|
    ensures |r| == |order|
  {
    seq(|order|, p requires 0 <= p < |order| => if p < c then order[Mirror(live, level, p)] else order[p])
  }

  lemma AlignedLength(levels: seq<Level>, level: Level, visual: seq<int>)
    requires Aligned(levels, level, visual)
    ensures |Kept(visual)| == |Kept(levels)| == Rank(levels, |levels|)
  {
    assert visual[..|levels|] == visual && levels[..|levels|] == levels;
    assert Cut(levels, level, |levels|);
  }

  /** Turning a slice turns the kept entries of that slice. */
  lemma KeptTurned(v: seq<int>, f: nat, e: nat)
    requires f <= e <= |v|
    ensures Kept(v[..e]) == Kept(v[..f]) + Kept(v[f..e])
    ensures Kept(v) == Kept(v[..f]) + Kept(v[f..e]) + Kept(v[e..])
    ensures Kept(ReverseSlice(v, f, e)) == Kept(v[..f]) + Reverse(Kept(v[f..e])) + Kept(v[e..])
  {
    hide Kept, Reverse, ReverseSlice;
    var a, m, z := v[..f], v[f..e], v[e..];
    InParts(v, f, e);
    SliceTurned(v, f, e);
    KeptConcat(a, m);
    KeptConcat(a + m, z);
    KeptReverse(m);
    KeptConcat(a, Reverse(m));
    KeptConcat(a + Reverse(m), z);
  }

  lemma InParts(v: seq<int>, f: nat, e: nat)
    requires f <= e <= |v|
    ensures v[..e] == v[..f] + v[f..e] && v == v[..f] + v[f..e] + v[e..]
  {
  }

  lemma SliceTurned(v: seq<int>, f: nat, e: nat)
    requires f <= e <= |v|
    ensures ReverseSlice(v, f, e) == v[..f] + Reverse(v[f..e]) + v[e..]
  {
    hide Reverse;
  }

  /** It changes how many entries are kept before no position outside it. */
  lemma KeptBefore(v: seq<int>, f: nat, e: nat, b: nat)
    requires f <= e <= |v| && b <= |v| && (b <= f || e <= b)
    ensures |Kept(ReverseSlice(v, f, e)[..b])| == |Kept(v[..b])|
  {
    if b <= f {
      assert ReverseSlice(v, f, e)[..b] == v[..b];
    } else {
      var w := v[..b];
      assert w[..f] == v[..f] && w[f..e] == v[f..e];
      assert ReverseSlice(v, f, e)[..b] == ReverseSlice(w, f, e);
      KeptTurned(w, f, e);
    }
  }

  lemma SliceOfParts(a: seq<int>, m: seq<int>, z: seq<int>)
    ensures ReverseSlice(a + m + z, |a|, |a + m|) == a + Reverse(m) + z
  {
    var s := a + m + z;
    assert s[..|a|] == a && s[|a|..|a + m|] == m && s[|a + m|..] == z;
  }

  /** Between two cuts, the kept entries are turned between the two ranks. */
  lemma ReverseBetweenCuts(levels: seq<Level>, level: Level, visual: seq<int>, f: nat, e: nat)
    requires Aligned(levels, level, visual)
    requires f <= e && Cut(levels, level, f) && Cut(levels, level, e)
    ensures Rank(levels, f) <= Rank(levels, e) <= |Kept(visual)| == |Kept(levels)|
    ensures Kept(ReverseSlice(visual, f, e)) ==
            ReverseSlice(Kept(visual), Rank(levels, f), Rank(levels, e))
  {
    AlignedLength(levels, level, visual);
    KeptTurned(visual, f, e);
    var a, m, z := Kept(visual[..f]), Kept(visual[f..e]), Kept(visual[e..]);
    assert |Kept(visual[..f])| == Rank(levels, f) && |Kept(visual[..e])| == Rank(levels, e);
    SliceOfParts(a, m, z);
  }

  /** The state of a pass between two characters; `b` is where the work not yet
      accounted for starts. */
  ghost predicate PassState(levels: seq<Level>, level: Level, start: seq<int>, visual: seq<int>, b: nat) {
    && Aligned(levels, level, visual)
    && |Kept(start)| == |Kept(levels)|
    && b <= |levels|
    && Kept(visual) == PassUpTo(Kept(levels), level, Kept(start), Rank(levels, b))
  }

  /** The characters `[f..e)` are, removed ones aside, one stretch at `level`. */
  ghost predicate OpenStretch(levels: seq<Level>, level: Level, f: nat, e: nat) {
    && f < e <= |levels| && levels[f] != NO_LEVEL
    && Rank(levels, f) < Rank(levels, e) <= |Kept(levels)|
    && var live := Kept(levels);
       && (Rank(levels, f) == 0 || live[Rank(levels, f) - 1] < level)
       && (forall p :: Rank(levels, f) <= p < Rank(levels, e) ==> live[p] >= level)
  }

  /** The stretch cannot be extended past `e`. */
  ghost predicate ClosedAt(levels: seq<Level>, level: Level, e: nat) {
    && e <= |levels|
    && (e == |levels| || (levels[e] != NO_LEVEL && levels[e] < level))
  }

  lemma ClosedIsCut(levels: seq<Level>, level: Level, e: nat)
    requires ClosedAt(levels, level, e)
    ensures Cut(levels, level, e)
    ensures Rank(levels, e) >= |Kept(levels)| || Kept(levels)[Rank(levels, e)] < level
  {
    if e < |levels| { RankStep(levels, e); } else { assert levels[..e] == levels; }
  }

  /** No cut lies inside an open stretch. */
  lemma NoCutInside(levels: seq<Level>, level: Level, f: nat, e: nat, b: nat)
    requires OpenStretch(levels, level, f, e)
    requires Cut(levels, level, b)
    ensures b <= f || e <= b
  {
    if f < b < e {
      RankMonotone(levels, f, b);
      RankMonotone(levels, b, e);
    }
  }

  lemma OpenIsCut(levels: seq<Level>, level: Level, f: nat, e: nat)
    requires OpenStretch(levels, level, f, e)
    ensures Cut(levels, level, f)
  {
  }

  /** Turning a closed stretch keeps every cut aligned. */
  lemma CloseAligned(levels: seq<Level>, level: Level, visual: seq<int>, f: nat, e: nat)
    requires Aligned(levels, level, visual)
    requires OpenStretch(levels, level, f, e)
    ensures Aligned(levels, level, ReverseSlice(visual, f, e))
  {
    var turned := ReverseSlice(visual, f, e);
    forall b: nat | Cut(levels, level, b)
      ensures |Kept(turned[..b])| == Rank(levels, b)
    {
      NoCutInside(levels, level, f, e, b);
      KeptBefore(visual, f, e, b);
    }
  }

  lemma ReverseSliceAt(s: seq<int>, lo: nat, hi: nat, k: nat)
    requires lo <= hi <= |s| && k < |s|
    ensures ReverseSlice(s, lo, hi)[k] == if lo <= k < hi then s[lo + hi - 1 - k] else s[k]
  {
  }

  /** The pass, one stretch further on. */
  lemma PassStretch(live: seq<Level>, level: Level, order: seq<int>, cf: nat, ce: nat)
    requires |order| == |live| && cf < ce <= |live|
    requires forall p :: cf <= p < ce ==> live[p] >= level
    requires cf == 0 || live[cf - 1] < level
    requires ce == |live| || live[ce] < level
    ensures ReverseSlice(PassUpTo(live, level, order, cf), cf, ce) == PassUpTo(live, level, order, ce)
    ensures ce == cf + 1 ==> PassUpTo(live, level, order, cf) == PassUpTo(live, level, order, ce)
  {
    hide Mirror, ReverseSlice;
    var before, after := PassUpTo(live, level, order, cf), PassUpTo(live, level, order, ce);
    forall p | cf <= p < ce
      ensures Mirror(live, level, p) == cf + ce - 1 - p
    {
      MirrorInStretch(live, level, cf, ce, p);
    }
    forall k | 0 <= k < |order|
      ensures ReverseSlice(before, cf, ce)[k] == after[k]
    {
      ReverseSliceAt(before, cf, ce, k);
    }
  }

  lemma MirrorInStretch(live: seq<Level>, level: Level, cf: nat, ce: nat, p: nat)
    requires cf <= p < ce <= |live|
    requires forall k :: cf <= k < ce ==> live[k] >= level
    requires cf == 0 || live[cf - 1] < level
    requires ce == |live| || live[ce] < level
    ensures Mirror(live, level, p) == cf + ce - 1 - p
  {
    StretchBounds(live, level, cf, ce, p);
  }

  lemma ClosePasses(levels: seq<Level>, level: Level, start: seq<int>, visual: seq<int>, f: nat, e: nat)
    requires PassState(levels, level, start, visual, f)
    requires OpenStretch(levels, level, f, e) && ClosedAt(levels, level, e)
    ensures PassState(levels, level, start, ReverseSlice(visual, f, e), e)
    ensures Rank(levels, e) == Rank(levels, f) + 1 ==> PassState(levels, level, start, visual, e)
  {
    hide Aligned, Cut, Kept, Rank, PassUpTo, ReverseSlice;
    CloseAligned(levels, level, visual, f, e);
    OpenIsCut(levels, level, f, e);
    ClosedIsCut(levels, level, e);
    ReverseBetweenCuts(levels, level, visual, f, e);
    PassStretch(Kept(levels), level, Kept(start), Rank(levels, f), Rank(levels, e));
  }

  /** A character below `level` is passed over. */
  lemma PassOver(levels: seq<Level>, level: Level, start: seq<int>, visual: seq<int>, i: nat)
    requires level > NO_LEVEL && i < |levels| && levels[i] < level
    requires PassState(levels, level, start, visual, i)
    ensures PassState(levels, level, start, visual, i + 1)
  {
    RankStep(levels, i);
    var live, order, c := Kept(levels), Kept(start), Rank(levels, i);
    assert PassUpTo(live, level, order, c) == PassUpTo(live, level, order, Rank(levels, i + 1));
  }

  /** What the scan of one pass knows before character `i`. */
  ghost predicate Scanned(levels: seq<Level>, level: Level, start: seq<int>, visual: seq<int>, i: nat,
                          firstPos: Option<nat>, lastPos: Option<nat>, significantRange: bool)
  {
    && i <= |levels| == |visual|
    && match firstPos
       case None =>
         && lastPos.None?
         && PassState(levels, level, start, visual, i)
         && Rank(levels, i) <= |Kept(levels)|
         && (Rank(levels, i) == 0 || Kept(levels)[Rank(levels, i) - 1] < level)
       case Some(f) =>
         && PassState(levels, level, start, visual, f)
         && OpenStretch(levels, level, f, i)
         && lastPos == (if i == f + 1 then None else Some(i - 1))
         && (Rank(levels, i) > Rank(levels, f) + 1 ==> significantRange)
  }

  lemma ScanAtOrAbove(levels: seq<Level>, level: Level, start: seq<int>, visual: seq<int>, i: nat,
                      firstPos: Option<nat>, lastPos: Option<nat>, significantRange: bool)
    requires Scanned(levels, level, start, visual, i, firstPos, lastPos, significantRange)
    requires i < |levels| && levels[i] >= level > NO_LEVEL
    ensures firstPos.None? ==> Scanned(levels, level, start, visual, i + 1, Some(i), lastPos, significantRange)
    ensures firstPos.Some? ==> Scanned(levels, level, start, visual, i + 1, firstPos, Some(i), true)
  {
    RankStep(levels, i);
  }

  lemma ScanRemoved(levels: seq<Level>, level: Level, start: seq<int>, visual: seq<int>, i: nat,
                    firstPos: Option<nat>, lastPos: Option<nat>, significantRange: bool)
    requires Scanned(levels, level, start, visual, i, firstPos, lastPos, significantRange)
    requires i < |levels| && levels[i] == NO_LEVEL < level
    ensures firstPos.None? ==> Scanned(levels, level, start, visual, i + 1, None, None, significantRange)
    ensures firstPos.Some? ==> Scanned(levels, level, start, visual, i + 1, firstPos, Some(i), significantRange)
  {
    RankStep(levels, i);
    if firstPos.None? { PassOver(levels, level, start, visual, i); }
  }

  /** What the end of a range does to the entries. */
  function EndRange(visual: seq<int>, firstPos: Option<nat>, lastPos: Option<nat>, significantRange: bool): seq<int>
    requires lastPos.Some? ==> lastPos.value < |visual|
  {
    if lastPos.Some? && firstPos.Some? && significantRange && lastPos.value > firstPos.value
    then ReverseSlice(visual, firstPos.value, lastPos.value + 1)
    else visual
  }

  lemma ScanEnd(levels: seq<Level>, level: Level, start: seq<int>, visual: seq<int>, i: nat,
                firstPos: Option<nat>, lastPos: Option<nat>, significantRange: bool)
    requires Scanned(levels, level, start, visual, i, firstPos, lastPos, significantRange)
    requires ClosedAt(levels, level, i)
    ensures PassState(levels, level, start, EndRange(visual, firstPos, lastPos, significantRange), i)
  {
    hide PassState, Aligned, Kept, ReverseSlice;
    if firstPos.Some? {
      var f := firstPos.value;
      if i == f + 1 { RankStep(levels, f); }
      assert significantRange || Rank(levels, i) == Rank(levels, f) + 1;
      ClosePasses(levels, level, start, visual, f, i);
    }
  }

  lemma ScanBelow(levels: seq<Level>, level: Level, start: seq<int>, visual: seq<int>, i: nat)
    requires level > NO_LEVEL && i < |levels| && NO_LEVEL != levels[i] < level
    requires PassState(levels, level, start, visual, i)
    ensures Scanned(levels, level, start, visual, i + 1, None, None, false)
    ensures Scanned(levels, level, start, visual, i + 1, None, None, true)
  {
    RankStep(levels, i);
    PassOver(levels, level, start, visual, i);
  }

  lemma ScanStart(levels: seq<Level>, level: Level, start: seq<int>)
    requires Aligned(levels, level, start)
    ensures Scanned(levels, level, start, start, 0, None, None, false)
  {
    AlignedLength(levels, level, start);
    assert levels[..0] == [];
    assert Kept(start) == PassUpTo(Kept(levels), level, Kept(start), 0);
  }

  lemma ScanDone(levels: seq<Level>, level: Level, start: seq<int>, visual: seq<int>)
    requires PassState(levels, level, start, visual, |levels|)
    ensures Aligned(levels, level, visual)
    ensures |Kept(start)| == |Kept(levels)|
    ensures Kept(visual) == Pass(Kept(levels), level, Kept(start))
  {
    AlignedLength(levels, level, visual);
  }

  /** One level of rule L2 over the whole line. */
  method ReverseAtLevel(levels: seq<Level>, level: Level, start: seq<int>) returns (visual: seq<int>)
    requires level > NO_LEVEL
    requires forall k :: 0 <= k < |levels| ==> levels[k] >= NO_LEVEL
    requires Aligned(levels, level, start)
    ensures Aligned(levels, level, visual)
    ensures |Kept(start)| == |Kept(levels)|
    ensures Kept(visual) == Pass(Kept(levels), level, Kept(start))
  {
    hide PassState, OpenStretch, Aligned, Kept, Rank;
    visual := start;
    var i := 0;
    var inRange := false;
    var significantRange := false;
    var firstPos: Option<nat> := None;
    var lastPos: Option<nat> := None;
    ScanStart(levels, level, start);
    AlignedLength(levels, level, start);
    while i < |levels|
      invariant Scanned(levels, level, start, visual, i, firstPos, lastPos, significantRange)
      invariant inRange <==> firstPos.Some?
    {
      if levels[i] >= level {
        ScanAtOrAbove(levels, level, start, visual, i, firstPos, lastPos, significantRange);
        if !inRange {
          inRange := true;
          firstPos := Some(i);
        } else {
          significantRange := true;
          lastPos := Some(i);
        }
      } else if levels[i] == NO_LEVEL {
        ScanRemoved(levels, level, start, visual, i, firstPos, lastPos, significantRange);
        if inRange {
          lastPos := Some(i);
        }
      } else {
        ScanEnd(levels, level, start, visual, i, firstPos, lastPos, significantRange);
        inRange := false;
        if lastPos.Some? && firstPos.Some? && significantRange && lastPos.value > firstPos.value {
          visual := ReverseSlice(visual, firstPos.value, lastPos.value + 1);
        }
        firstPos := None;
        lastPos := None;
        ScanBelow(levels, level, start, visual, i);
      }
      i := i + 1;
    }
    ScanEnd(levels, level, start, visual, i, firstPos, lastPos, significantRange);
    if inRange && significantRange {
      if lastPos.Some? && firstPos.Some? && lastPos.value > firstPos.value {
        visual := ReverseSlice(visual, firstPos.value, lastPos.value + 1);
      }
    }
    ScanDone(levels, level, start, visual);
  }

  /** The line as it is read: every character's index, DELETED where removed. */
  function InitialVisual(levels: seq<Level>, firstCidx: nat): (r: seq<int>)
    ensures |r| == |levels|
  {
    seq(|levels|, i requires 0 <= i < |levels| => if levels[i] == NO_LEVEL then DELETED else i + firstCidx)
  }

  /** The indices of the characters that were not removed. */
  function LiveIndices(levels: seq<Level>, firstCidx: nat): (r: seq<int>)
    ensures |r| == |Kept(levels)|
  {
    InitialAligned(levels, firstCidx, |levels|);
    assert levels[..|levels|] == levels;
    var v := InitialVisual(levels, firstCidx);
    assert v[..|levels|] == v;
    Kept(v)
  }

  lemma {:induction false} InitialAligned(levels: seq<Level>, firstCidx: nat, b: nat)
    requires b <= |levels|
    ensures |Kept(InitialVisual(levels, firstCidx)[..b])| == Rank(levels, b)
  {
    var v := InitialVisual(levels, firstCidx);
    if b > 0 {
      InitialAligned(levels, firstCidx, b - 1);
      RankStep(levels, b - 1);
      assert v[..b][..b - 1] == v[..b - 1];
    } else {
      assert v[..0] == [] && levels[..0] == [];
    }
  }

  /** Aligned for a pass is aligned for the next one down. */
  lemma AlignedBelow(levels: seq<Level>, level: Level, visual: seq<int>)
    requires Aligned(levels, level, visual)
    ensures Aligned(levels, level - 1, visual)
  {
    forall b: nat | Cut(levels, level - 1, b)
      ensures |Kept(visual[..b])| == Rank(levels, b)
    {
      assert Cut(levels, level, b);
    }
  }

  /** The order in which the characters that were not removed are displayed. */
  function Reordered(levels: seq<Level>, firstCidx: nat): (r: seq<int>)
  {
    var live := Kept(levels);
    Passes(live, LiveIndices(levels, firstCidx), Highest(live), LowestOdd(live))
  }

  lemma RangeStart()
    ensures Highest([]) == 0 && LowestOdd([]) == MAX_DEPTH + 1
  {
  }

  lemma RangeStep(live: seq<Level>, level: Level)
    ensures Highest(live + [level]) == Max(Highest(live), level)
    ensures LowestOdd(live + [level]) ==
            if IsOdd(level) && level < LowestOdd(live) then level else LowestOdd(live)
  {
    assert (live + [level])[..|live|] == live;
  }

  lemma KeptNext(s: seq<int>, n: nat)
    requires n < |s|
    ensures Kept(s[..n + 1]) == if s[n] == NO_LEVEL then Kept(s[..n]) else Kept(s[..n]) + [s[n]]
  {
    assert s[..n + 1][..n] == s[..n];
  }

  /** The first loop of `reverse_levels`: the range of levels to reverse. */
  method LevelRange(levels: seq<Level>) returns (highestLevel: Level, lowestOddLevel: Level, noLevels: bool)
    ensures highestLevel == Highest(Kept(levels))
    ensures lowestOddLevel == LowestOdd(Kept(levels)) > NO_LEVEL
    ensures noLevels <==> forall k :: 0 <= k < |levels| ==> levels[k] == NO_LEVEL
  {
    hide Highest, LowestOdd, Kept;
    highestLevel := 0;
    lowestOddLevel := MAX_DEPTH + 1;
    noLevels := true;
    RangeStart();
    assert levels[..0] == [];
    for n := 0 to |levels|
      invariant noLevels <==> forall k :: 0 <= k < n ==> levels[k] == NO_LEVEL
      invariant highestLevel == Highest(Kept(levels[..n]))
      invariant lowestOddLevel == LowestOdd(Kept(levels[..n]))
    {
      var level := levels[n];
      KeptNext(levels, n);
      if level == NO_LEVEL {
        continue;
      }
      RangeStep(Kept(levels[..n]), level);
      noLevels := false;
      highestLevel := Max(highestLevel, level);
      if IsOdd(level) && level < lowestOddLevel {
        lowestOddLevel := level;
      }
    }
    assert levels[..|levels|] == levels;
  }

  lemma {:induction false} NothingKept(levels: seq<Level>)
    requires forall k :: 0 <= k < |levels| ==> levels[k] == NO_LEVEL
    ensures Kept(levels) == []
  {
    if levels != [] { NothingKept(levels[..|levels| - 1]); }
  }

  /** The second loop: every character in its place. */
  method InitialOrder(firstCidx: nat, levels: seq<Level>) returns (visual: seq<int>)
    ensures |visual| == |levels|
    ensures forall i :: 0 <= i < |levels| ==> visual[i] == if levels[i] == NO_LEVEL then DELETED else i + firstCidx
    ensures Kept(visual) == LiveIndices(levels, firstCidx)
    ensures forall level :: Aligned(levels, level, visual)
  {
    visual := [];
    for i := 0 to |levels|
      invariant visual == InitialVisual(levels, firstCidx)[..i]
    {
      if levels[i] == NO_LEVEL {
        visual := visual + [DELETED];
      } else {
        visual := visual + [i + firstCidx];
      }
    }
    assert visual == InitialVisual(levels, firstCidx);
    forall b: nat | b <= |levels|
      ensures |Kept(visual[..b])| == Rank(levels, b)
    {
      InitialAligned(levels, firstCidx, b);
    }
  }

  lemma PassesStep(levels: seq<Level>, order: seq<int>, hi: Level, lo: Level)
    requires |order| == |levels| && hi >= lo
    ensures Passes(levels, order, hi, lo) == Passes(levels, Pass(levels, hi, order), hi - 1, lo)
  {
  }

  lemma PassesEnd(levels: seq<Level>, order: seq<int>, hi: Level, lo: Level)
    requires |order| == |levels| && hi < lo
    ensures Passes(levels, order, hi, lo) == order
  {
  }

  /** The loop over levels, highest first. */
  method ReverseHighToLow(levels: seq<Level>, start: seq<int>, highestLevel: Level, lowestOddLevel: Level)
    returns (visual: seq<int>)
    requires lowestOddLevel > NO_LEVEL
    requires forall k :: 0 <= k < |levels| ==> levels[k] >= NO_LEVEL
    requires Aligned(levels, highestLevel, start)
    ensures |Kept(start)| == |Kept(levels)|
    ensures Kept(visual) == Passes(Kept(levels), Kept(start), highestLevel, lowestOddLevel)
  {
    hide Aligned, Kept, Passes, Pass;
    visual := start;
    var level := highestLevel;
    ghost var live := Kept(levels);
    AlignedLength(levels, level, visual);
    while level >= lowestOddLevel
      invariant Aligned(levels, level, visual)
      invariant |Kept(visual)| == |live|
      invariant Passes(live, Kept(visual), level, lowestOddLevel)
                == Passes(live, Kept(start), highestLevel, lowestOddLevel)
      decreases level - lowestOddLevel + 1
    {
      PassesStep(live, Kept(visual), level, lowestOddLevel);
      visual := ReverseAtLevel(levels, level, visual);
      AlignedBelow(levels, level, visual);
      AlignedLength(levels, level, visual);
      level := level - 1;
    }
    PassesEnd(live, Kept(visual), level, lowestOddLevel);
  }

  /** `reverse_levels` with `reorder_nsm` off. */
  method ReverseLevels(firstCidx: nat, levels: seq<Level>) returns (visual: seq<int>)
    requires LineLevels(levels)
    ensures visual == Reordered(levels, firstCidx)
  {
    hide Aligned, Kept, Passes, LiveIndices, Highest, LowestOdd;
    var highestLevel, lowestOddLevel, noLevels := LevelRange(levels);
    if noLevels {
      NothingKept(levels);
      return [];
    }
    visual := InitialOrder(firstCidx, levels);
    visual := ReverseHighToLow(levels, visual, highestLevel, lowestOddLevel);
    // `retain` the entries that are not DELETED
    visual := Kept(visual);
  }

  /** The order is the display order of the live levels, told in paragraph indices. */
  lemma {:induction false} PassesNatural(levels: seq<Level>, order: seq<int>, names: seq<int>, hi: Level, lo: Level)
    requires |order| == |names| == |levels|
    requires forall q :: 0 <= q < |order| ==> 0 <= order[q] < |names|
    ensures var base := Passes(levels, order, hi, lo);
      && (forall q :: 0 <= q < |base| ==> 0 <= base[q] < |names|)
      && Passes(levels, seq(|order|, q requires 0 <= q < |order| => names[order[q]]), hi, lo)
         == seq(|base|, q requires 0 <= q < |base| => names[base[q]])
    decreases hi - lo + 1
  {
    if hi >= lo {
      var named := seq(|order|, q requires 0 <= q < |order| => names[order[q]]);
      var next := Pass(levels, hi, order);
      PassesNatural(levels, next, names, hi - 1, lo);
      assert Pass(levels, hi, named) == seq(|next|, q requires 0 <= q < |next| => names[next[q]]);
    }
  }

  /** Removed characters are transparent to rule L2. */
  lemma RemovedTransparent(levels: seq<Level>, firstCidx: nat)
    ensures var order, names := DisplayOrder(Kept(levels)), LiveIndices(levels, firstCidx);
      && (forall q :: 0 <= q < |order| ==> 0 <= order[q] < |names|)
      && Reordered(levels, firstCidx) == seq(|order|, q requires 0 <= q < |order| => names[order[q]])
  {
    var live, names := Kept(levels), LiveIndices(levels, firstCidx);
    PassesNatural(live, Identity(|live|), names, Highest(live), LowestOdd(live));
    var id := Identity(|live|);
    assert seq(|id|, q requires 0 <= q < |id| => names[id[q]]) == names;
  }

  /** The `c`-th live index is the position whose rank is `c`. */
  lemma LiveIndexAt(levels: seq<Level>, firstCidx: nat, i: nat)
    requires i < |levels| && levels[i] != NO_LEVEL
    ensures Rank(levels, i) < |Kept(levels)|
    ensures LiveIndices(levels, firstCidx)[Rank(levels, i)] == i + firstCidx
  {
    var v := InitialVisual(levels, firstCidx);
    RankStep(levels, i);
    InitialAligned(levels, firstCidx, i);
    RankStep(v, i);
  }

  /** The first position whose rank exceeds `c`. */
  lemma RankOnto(levels: seq<Level>, c: nat) returns (i: nat)
    requires c < |Kept(levels)|
    ensures i < |levels| && levels[i] != NO_LEVEL && Rank(levels, i) == c
  {
    i := 0;
    assert levels[..0] == [] && levels[..|levels|] == levels;
    while Rank(levels, i + 1) <= c
      invariant i < |levels| && Rank(levels, i) <= c
      decreases |levels| - i
    {
      assert i + 1 < |levels|;
      i := i + 1;
    }
    RankStep(levels, i);
  }

  /** Every index that was not removed is displayed. */
  lemma ReorderedComplete(levels: seq<Level>, firstCidx: nat, i: nat) returns (q: nat)
    requires i < |levels| && levels[i] != NO_LEVEL
    ensures q < |Reordered(levels, firstCidx)|
    ensures Reordered(levels, firstCidx)[q] == i + firstCidx
  {
    var live := Kept(levels);
    LiveIndexAt(levels, firstCidx, i);
    RemovedTransparent(levels, firstCidx);
    q := Place(live, Rank(levels, i), Highest(live), LowestOdd(live));
    PassesAtPlace(live, Identity(|live|), Rank(levels, i), Highest(live), LowestOdd(live));
  }

  /** And nothing else is. */
  lemma ReorderedSound(levels: seq<Level>, firstCidx: nat, q: nat) returns (i: nat)
    requires q < |Reordered(levels, firstCidx)|
    ensures i < |levels| && levels[i] != NO_LEVEL
    ensures Reordered(levels, firstCidx)[q] == i + firstCidx
  {
    var live := Kept(levels);
    RemovedTransparent(levels, firstCidx);
    i := RankOnto(levels, DisplayOrder(live)[q]);
    LiveIndexAt(levels, firstCidx, i);
  }

  /** Every displayed index is in the line and was not removed. */
  lemma ReorderedInLine(levels: seq<Level>, firstCidx: nat)
    ensures forall q :: 0 <= q < |Reordered(levels, firstCidx)| ==>
      && firstCidx <= Reordered(levels, firstCidx)[q] < firstCidx + |levels|
      && levels[Reordered(levels, firstCidx)[q] - firstCidx] != NO_LEVEL
  {
    hide Reordered;
    forall q | 0 <= q < |Reordered(levels, firstCidx)|
      ensures firstCidx <= Reordered(levels, firstCidx)[q] < firstCidx + |levels|
      ensures levels[Reordered(levels, firstCidx)[q] - firstCidx] != NO_LEVEL
    {
      var i := ReorderedSound(levels, firstCidx, q);
    }
  }

  lemma {:induction false} KeptAll(s: seq<int>)
    requires forall k :: 0 <= k < |s| ==> s[k] != NO_LEVEL
    ensures Kept(s) == s
  {
    if s != [] {
      KeptAll(s[..|s| - 1]);
      assert s == s[..|s| - 1] + [s[|s| - 1]];
    }
  }

  /** The whole promise for a line: its live characters are displayed in an order
      in which every run reads in the direction of its level, exactly on the lines
      that have an odd level or no two live neighbours at level MAX_DEPTH + 1. */
  lemma LineDisplayed(levels: seq<Level>, firstCidx: nat)
    requires LineLevels(levels)
    ensures var live, order, names := Kept(levels), DisplayOrder(Kept(levels)), LiveIndices(levels, firstCidx);
      && (Displayed(live, order) <==> HasOdd(live) || !AdjacentTop(live))
      && |Reordered(levels, firstCidx)| == |order|
      && (forall q :: 0 <= q < |order| ==>
            0 <= order[q] < |names| && Reordered(levels, firstCidx)[q] == names[order[q]])
  {
    hide Reordered, Displayed, HasOdd, AdjacentTop, DisplayOrder;
    KeptPlausible(levels);
    DisplayOrderExact(Kept(levels));
    RemovedTransparent(levels, firstCidx);
  }

  /** Display indices count from the start of the paragraph: they index the levels of
      the line exactly when no live character is as far into the paragraph as the line
      is long, and so on every line that starts the paragraph. */
  lemma ReorderedIndexable(levels: seq<Level>, firstCidx: nat)
    ensures (forall q :: 0 <= q < |Reordered(levels, firstCidx)| ==> Reordered(levels, firstCidx)[q] < |levels|)
            <==> (forall i :: 0 <= i < |levels| && levels[i] != NO_LEVEL ==> i + firstCidx < |levels|)
  {
    hide Reordered;
    forall q | 0 <= q < |Reordered(levels, firstCidx)|
      ensures exists i :: 0 <= i < |levels| && levels[i] != NO_LEVEL && Reordered(levels, firstCidx)[q] == i + firstCidx
    {
      var i := ReorderedSound(levels, firstCidx, q);
    }
    forall i | 0 <= i < |levels| && levels[i] != NO_LEVEL
      ensures exists q :: 0 <= q < |Reordered(levels, firstCidx)| && Reordered(levels, firstCidx)[q] == i + firstCidx
    {
      var q := ReorderedComplete(levels, firstCidx, i);
    }
  }

  /** The display indices can index the levels of the line. */
  predicate Indexable(levels: seq<Level>, order: seq<int>) {
    forall q :: 0 <= q < |order| ==> 0 <= order[q] < |levels|
  }

  function LevelsRead(levels: seq<Level>, order: seq<int>): (read: seq<Level>)
    requires Indexable(levels, order)
    ensures |read| == |order|
  {
    seq(|order|, q requires 0 <= q < |order| => levels[order[q]])
  }

  lemma {:induction false} KeptShorter(s: seq<int>)
    ensures |Kept(s)| <= |s|
  {
    if s != [] { KeptShorter(s[..|s| - 1]); }
  }

  /** The level read at every display index of the line is that of the character shown. */
  ghost predicate ReadsOwnLevels(levels: seq<Level>, firstCidx: nat) {
    forall q :: 0 <= q < |Reordered(levels, firstCidx)| ==>
      var i := Reordered(levels, firstCidx)[q];
      0 <= i < |levels| && firstCidx <= i && levels[i] == levels[i - firstCidx]
  }

  /** The last character that was not removed. */
  lemma LastLive(levels: seq<Level>, k: nat) returns (i: nat)
    requires k < |levels| && levels[k] != NO_LEVEL
    ensures k <= i < |levels| && levels[i] != NO_LEVEL && forall j :: i < j < |levels| ==> levels[j] == NO_LEVEL
  {
    i := |levels| - 1;
    while levels[i] == NO_LEVEL
      invariant k <= i < |levels| && forall j :: i < j < |levels| ==> levels[j] == NO_LEVEL
      decreases i
    {
      i := i - 1;
    }
  }

  /** Reading the levels of a line at display indices, which count from the start of the
      paragraph, gives every character its own level exactly on lines that start the
      paragraph, and on lines that show nothing. */
  lemma ReadsOwnExactly(levels: seq<Level>, firstCidx: nat)
    ensures ReadsOwnLevels(levels, firstCidx) <==> firstCidx == 0 || forall k :: 0 <= k < |levels| ==> levels[k] == NO_LEVEL
  {
    hide Reordered;
    ReorderedInLine(levels, firstCidx);
    if k :| 0 <= k < |levels| && levels[k] != NO_LEVEL {
      if firstCidx > 0 {
        var i := LastLive(levels, k);
        var q := ReorderedComplete(levels, firstCidx, i);
        assert !(i + firstCidx < |levels| && levels[i + firstCidx] == levels[i]);
      }
    }
  }

  /** A line that starts at 1, of a character and a removed one: the index stays in range,
      but the level read is that of the removed one. */
  lemma LaterLineMisread()
    ensures Reordered([0, NO_LEVEL], 1) == [1] && !ReadsOwnLevels([0, NO_LEVEL], 1)
  {
    hide Reordered;
    var levels := [0, NO_LEVEL];
    ReorderedInLine(levels, 1);
    var q := ReorderedComplete(levels, 1, 0);
    assert levels[..1] == [0] && levels[..1][..0] == [];
    assert Kept(levels) == [0];
    RemovedTransparent(levels, 1);
    ReadsOwnExactly(levels, 1);
  }
}
