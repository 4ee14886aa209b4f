/** Lines of a resolved paragraph: rule L1 and the runs handed to the shaper. */
module Lines {
  import opened Wrappers
  import opened BidiTypes
  import opened TextChains
  import opened Reorder

  // ----- L1 -----

  predicate IsSeparator(bc: BidiClass) {
    bc == SegmentSeparator || bc == ParagraphSeparator
  }

  predicate IsBlank(bc: BidiClass) {
    bc == WhiteSpace || bc.IsIsoControl()
  }

  /** Removed characters aside, only blanks lie strictly between `p` and `e`. */
  ghost predicate BlankTo(orig: seq<BidiClass>, levels: seq<Level>, p: nat, e: nat)
    requires e <= |orig| == |levels|
  {
    forall j :: p < j < e ==> IsBlank(orig[j]) || levels[j] == NO_LEVEL
  }

  /** L1: a separator, or a blank in an unbroken stretch of blanks before a
      separator or the end of the line, goes back to the paragraph level. */
  ghost predicate GoesBack(orig: seq<BidiClass>, levels: seq<Level>, end: nat, p: nat)
    requires p < end <= |orig| == |levels|
  {
    || IsSeparator(orig[p])
    || (IsBlank(orig[p]) && exists e :: p < e <= end && (e == end || IsSeparator(orig[e])) && BlankTo(orig, levels, p, e))
  }

  const BLANKS := {WhiteSpace, LeftToRightIsolate, RightToLeftIsolate, FirstStrongIsolate, PopDirectionalIsolate}

  /** Only blanks and deleted characters lie strictly between `p` and `e`. */
  ghost predicate BlanksBetween(orig: seq<BidiClass>, p: nat, e: nat)
    requires e <= |orig|
  {
    forall j :: p < j < e ==> orig[j] in BLANKS + DELETED_CLASSES
  }

  /** L1 by classes alone: a separator, or a blank from which only blanks and deleted characters
      lead to a separator or to the end of the line. */
  ghost predicate BackByL1(orig: seq<BidiClass>, end: nat, p: nat)
    requires p < end <= |orig|
  {
    || orig[p] in {SegmentSeparator, ParagraphSeparator}
    || (&& orig[p] in BLANKS
        && exists e :: p < e <= end && BlanksBetween(orig, p, e)
             && (e == end || orig[e] in {SegmentSeparator, ParagraphSeparator}))
  }

  /** The levels of the line from `start` to `end` after L1. */
  ghost function AfterL1(orig: seq<BidiClass>, levels: seq<Level>, base: Level, start: nat, end: nat): (line: seq<Level>)
    requires start <= end <= |orig| == |levels|
    ensures |line| == end - start
  {
    seq(end - start, k requires 0 <= k < end - start =>
      if GoesBack(orig, levels, end, start + k) then base else levels[start + k])
  }

  lemma BlankMeans(orig: seq<BidiClass>, levels: seq<Level>, p: nat, e: nat)
    requires Inert(orig, levels) && e <= |orig|
    ensures BlankTo(orig, levels, p, e) <==> BlanksBetween(orig, p, e)
    ensures p < |orig| ==> (IsBlank(orig[p]) <==> orig[p] in BLANKS)
  {
    forall j | p < j < e ensures IsBlank(orig[j]) || levels[j] == NO_LEVEL <==> orig[j] in BLANKS + DELETED_CLASSES {
    }
    hide IsBlank, BLANKS, DELETED_CLASSES, Inert;
  }

  lemma GoesBackMeans(orig: seq<BidiClass>, levels: seq<Level>, end: nat, p: nat)
    requires |orig| == |levels| && Inert(orig, levels) && p < end <= |orig|
    ensures GoesBack(orig, levels, end, p) <==> BackByL1(orig, end, p)
  {
    forall e: nat | e <= end
      ensures BlankTo(orig, levels, p, e) <==> BlanksBetween(orig, p, e)
      ensures IsBlank(orig[p]) <==> orig[p] in BLANKS
    {
      BlankMeans(orig, levels, p, e);
    }
    BlankMeans(orig, levels, p, p);
    hide BlankTo, BlanksBetween, IsBlank, BLANKS, DELETED_CLASSES, Inert;
  }

  lemma AfterL1Is(orig: seq<BidiClass>, levels: seq<Level>, base: Level, start: nat, end: nat, line: seq<Level>)
    requires start <= end <= |orig| == |levels| && |line| == end - start
    requires forall k :: 0 <= k < |line| ==> line[k] == if GoesBack(orig, levels, end, start + k) then base else levels[start + k]
    ensures line == AfterL1(orig, levels, base, start, end)
  {
    hide GoesBack;
  }

  lemma AfterL1Means(orig: seq<BidiClass>, levels: seq<Level>, base: Level, start: nat, end: nat)
    requires |orig| == |levels| && Inert(orig, levels) && start <= end <= |orig|
    ensures forall p :: start <= p < end ==>
      AfterL1(orig, levels, base, start, end)[p - start] == if BackByL1(orig, end, p) then base else levels[p]
  {
    hide GoesBack, BackByL1, Inert;
    forall p | start <= p < end
      ensures AfterL1(orig, levels, base, start, end)[p - start] == if BackByL1(orig, end, p) then base else levels[p]
    {
      GoesBackMeans(orig, levels, end, p);
    }
  }

  /** `reset_contiguous_whitespace_before` */
  method ResetBefore(levels: seq<Level>, orig: seq<BidiClass>, base: Level, start: nat, end: nat) returns (reset: seq<Level>)
    requires start <= end <= |orig| == |levels|
    ensures |reset| == |levels|
    ensures forall p :: 0 <= p < |levels| ==>
      reset[p] == if start <= p < end && IsBlank(orig[p]) && BlankTo(orig, levels, p, end) then base else levels[p]
  {
    reset := levels;
    var i := end;
    while i > start
      invariant start <= i <= end
      invariant |reset| == |levels|
      invariant forall j :: i <= j < end ==> IsBlank(orig[j]) || levels[j] == NO_LEVEL
      invariant forall p :: 0 <= p < |levels| ==>
        reset[p] == if i <= p < end && IsBlank(orig[p]) then base else levels[p]
    {
      i := i - 1;
      if IsBlank(orig[i]) {
        reset := reset[i := base];
      } else if reset[i] != NO_LEVEL {
        return;
      }
    }
  }

  /** What L1 has done once the separators before `n` have been met. */
  ghost predicate GoneBack(orig: seq<BidiClass>, levels: seq<Level>, n: nat, p: nat)
    requires n <= |orig| == |levels| && p < |orig|
  {
    && p < n
    && (|| IsSeparator(orig[p])
        || (IsBlank(orig[p]) && exists e :: p < e < n && IsSeparator(orig[e]) && BlankTo(orig, levels, p, e)))
  }

  /** Rule L1 never touches a removed character, nor makes one. */
  lemma SameBlanks(orig: seq<BidiClass>, a: seq<Level>, b: seq<Level>, p: nat, e: nat)
    requires |orig| == |a| == |b| && e <= |orig|
    requires forall j :: 0 <= j < |a| ==> (a[j] == NO_LEVEL <==> b[j] == NO_LEVEL)
    ensures BlankTo(orig, a, p, e) == BlankTo(orig, b, p, e)
  {
  }

  /** `reset_whitespace_levels`: L1 on the line from `start` to `end`. */
  method ResetWhitespaceLevels(paragraphLevels: seq<Level>, orig: seq<BidiClass>, base: Level, start: nat, end: nat)
    returns (line: seq<Level>)
    requires |orig| == |paragraphLevels| && start <= end <= |orig|
    requires Inert(orig, paragraphLevels) && base >= 0
    ensures line == AfterL1(orig, paragraphLevels, base, start, end)
    ensures |line| == end - start
    ensures forall p :: start <= p < end ==> line[p - start] == if BackByL1(orig, end, p) then base else paragraphLevels[p]
  {
    hide BlankTo, GoesBack, BackByL1, AfterL1;
    var levels := paragraphLevels;
    for idx := start to end
      invariant |levels| == |paragraphLevels|
      invariant forall p :: 0 <= p < |levels| ==>
        levels[p] == if start <= p && GoneBack(orig, paragraphLevels, idx, p) then base else paragraphLevels[p]
    {
      if IsSeparator(orig[idx]) {
        ghost var before := levels;
        levels := levels[idx := base];
        forall p: nat | p < |levels|
          ensures BlankTo(orig, levels, p, idx) == BlankTo(orig, paragraphLevels, p, idx)
        {
          SameBlanks(orig, levels, paragraphLevels, p, idx);
        }
        levels := ResetBefore(levels, orig, base, start, idx);
      }
    }
    ghost var separated := levels;
    levels := ResetBefore(levels, orig, base, start, end);
    line := levels[start..end];
    forall k | 0 <= k < |line|
      ensures line[k] == if GoesBack(orig, paragraphLevels, end, start + k) then base else paragraphLevels[start + k]
    {
      SameBlanks(orig, separated, paragraphLevels, start + k, end);
      BackAtLast(orig, paragraphLevels, end, start + k);
      assert line[k] == levels[start + k];
    }
    AfterL1Is(orig, paragraphLevels, base, start, end, line);
    AfterL1Means(orig, paragraphLevels, base, start, end);
  }

  /** Having met all separators, only the end of the line is left. */
  lemma BackAtLast(orig: seq<BidiClass>, levels: seq<Level>, end: nat, p: nat)
    requires p < end <= |orig| == |levels|
    ensures GoesBack(orig, levels, end, p) <==> GoneBack(orig, levels, end, p) || (IsBlank(orig[p]) && BlankTo(orig, levels, p, end))
  {
    hide BlankTo;
  }

  // ----- Runs -----

  datatype BidiRun = BidiRun(direction: Direction, level: Level, start: nat, end: nat, removedByX9: seq<nat>)

  method SpanLen(start: nat, levels: seq<Level>) returns (len: nat)
    requires start < |levels|
    ensures 0 < len <= |levels| - start
    ensures forall k :: start <= k < start + len ==> levels[k] == levels[start]
    ensures start + len == |levels| || levels[start + len] != levels[start]
  {
    len := 1;
    while start + len < |levels| && levels[start + len] == levels[start]
      invariant 0 < len <= |levels| - start
      invariant forall k :: start <= k < start + len ==> levels[k] == levels[start]
    {
      len := len + 1;
    }
  }

  /** A position where no run of one level is cut in two. */
  predicate AtBoundary(levels: seq<Level>, pos: nat) {
    pos <= |levels| && (pos == 0 || pos == |levels| || levels[pos - 1] != levels[pos])
  }

  /** The removed characters of a span. */
  method RemovedIn(levels: seq<Level>, start: nat, end: nat, lineStart: nat) returns (removed: seq<nat>)
    requires start <= end <= |levels|
    ensures removed == [] <==> forall k :: start <= k < end ==> levels[k] != NO_LEVEL
    ensures forall x :: x in removed <==> lineStart + start <= x < lineStart + end && levels[x - lineStart] == NO_LEVEL
  {
    removed := [];
    for idx := start to end
      invariant removed == [] <==> forall k :: start <= k < idx ==> levels[k] != NO_LEVEL
      invariant forall x :: x in removed <==> lineStart + start <= x < lineStart + idx && levels[x - lineStart] == NO_LEVEL
    {
      if levels[idx] == NO_LEVEL {
        removed := removed + [idx + lineStart];
      }
    }
  }

  /** `run` is a maximal run of one level of the line, with no removed character. */
  predicate IsRun(levels: seq<Level>, lineStart: nat, run: BidiRun) {
    && lineStart <= run.start < run.end <= lineStart + |levels|
    && LevelRun(levels, run.start - lineStart, run.end - lineStart)
    && run.level == levels[run.start - lineStart] != NO_LEVEL
    && run.direction == DirectionOf(run.level)
    && run.removedByX9 == []
  }

  /** Every character of `[from..to)` was removed. */
  predicate AllRemoved(levels: seq<Level>, from: nat, to: nat)
    requires to <= |levels|
  {
    forall k :: from <= k < to ==> levels[k] == NO_LEVEL
  }

  /** The iterator behind `runs` and `line_runs`. */
  class RunIter {
    var pos: nat
    const levels: seq<Level>
    const lineStart: nat

    constructor (levels: seq<Level>, lineStart: nat)
      ensures this.levels == levels && this.lineStart == lineStart && pos == 0
    {
      this.levels := levels;
      this.lineStart := lineStart;
      pos := 0;
    }

    /** The next run of one level. No removed character is ever inside a run. */
    method Next() returns (run: Option<BidiRun>)
      requires AtBoundary(levels, pos)
      modifies this
      ensures old(pos) <= pos && AtBoundary(levels, pos)
      ensures match run
        case None => pos == |levels| && AllRemoved(levels, old(pos), |levels|)
        case Some(r) =>
          && IsRun(levels, lineStart, r) && r.end == lineStart + pos
          && lineStart + old(pos) <= r.start
          && AllRemoved(levels, old(pos), r.start - lineStart)
    {
      while pos < |levels|
        invariant AtBoundary(levels, pos) && old(pos) <= pos
        invariant AllRemoved(levels, old(pos), pos)
      {
        var start := pos;
        var len := SpanLen(start, levels);
        pos := pos + len;
        var level := levels[start];
        if level != NO_LEVEL {
          var removedByX9 := RemovedIn(levels, start, start + len, lineStart);
          return Some(BidiRun(DirectionOf(level), level, lineStart + start, lineStart + start + len, removedByX9));
        }
      }
      run := None;
    }
  }

  /** The positions from `start` to `end` that are not in a list. */
  function Without(start: nat, end: nat, removed: seq<nat>): (indices: seq<nat>)
    requires start <= end
    decreases end - start
  {
    if start == end then []
    else (if start in removed then [] else [start]) + Without(start + 1, end, removed)
  }

  lemma WithoutNext(start: nat, end: nat, removed: seq<nat>)
    requires start < end
    ensures Without(start, end, removed) == (if start in removed then [] else [start]) + Without(start + 1, end, removed)
  {
  }

  /** `indices`: the positions of a run, skipping those listed as removed. */
  method Indices(run: BidiRun) returns (indices: seq<nat>)
    requires run.start <= run.end
    ensures indices == Without(run.start, run.end, run.removedByX9)
  {
    indices := [];
    for idx := run.start to run.end
      invariant indices + Without(idx, run.end, run.removedByX9) == Without(run.start, run.end, run.removedByX9)
    {
      WithoutNext(idx, run.end, run.removedByX9);
      hide Without;
      if exists i :: 0 <= i < |run.removedByX9| && run.removedByX9[i] == idx {
        continue;
      }
      indices := indices + [idx];
    }
  }

  lemma {:induction false} WithoutNone(start: nat, end: nat)
    requires start <= end
    ensures |Without(start, end, [])| == end - start
    ensures forall k :: 0 <= k < end - start ==> Without(start, end, [])[k] == start + k
    decreases end - start
  {
    if start < end { WithoutNone(start + 1, end); }
  }

  /** No run has a removed character in its middle, so `indices` is its whole range. */
  lemma IndicesAreWhole(levels: seq<Level>, lineStart: nat, runs: seq<BidiRun>, r: nat)
    requires RunsTo(levels, lineStart, runs, |levels|) && r < |runs|
    ensures var run := runs[r];
      && lineStart <= run.start < run.end <= lineStart + |levels|
      && (forall k :: run.start - lineStart <= k < run.end - lineStart ==> levels[k] != NO_LEVEL)
      && |Without(run.start, run.end, run.removedByX9)| == run.end - run.start
      && forall k :: 0 <= k < run.end - run.start ==> Without(run.start, run.end, run.removedByX9)[k] == run.start + k
  {
    assert IsRun(levels, lineStart, runs[r]);
    WithoutNone(runs[r].start, runs[r].end);
  }

  /** Position `k` of the line lies in one of the runs. */
  predicate InSomeRun(lineStart: nat, runs: seq<BidiRun>, k: nat) {
    exists r :: 0 <= r < |runs| && runs[r].start <= lineStart + k < runs[r].end
  }

  /** The runs up to position `pos` of a line: the maximal runs of one level, in
      order, holding exactly the characters that were not removed. */
  ghost predicate RunsTo(levels: seq<Level>, lineStart: nat, runs: seq<BidiRun>, pos: nat) {
    && pos <= |levels|
    && (forall r :: 0 <= r < |runs| ==> IsRun(levels, lineStart, runs[r]) && runs[r].end <= lineStart + pos)
    && (forall r, s :: 0 <= r < s < |runs| ==> runs[r].end <= runs[s].start)
    && (forall k :: 0 <= k < pos && levels[k] != NO_LEVEL ==> InSomeRun(lineStart, runs, k))
  }

  lemma RunsAppend(levels: seq<Level>, lineStart: nat, runs: seq<BidiRun>, pos: nat, run: BidiRun)
    requires RunsTo(levels, lineStart, runs, pos)
    requires IsRun(levels, lineStart, run) && lineStart + pos <= run.start
    requires AllRemoved(levels, pos, run.start - lineStart)
    ensures RunsTo(levels, lineStart, runs + [run], run.end - lineStart)
  {
    hide IsRun;
    var next := runs + [run];
    assert IsRun(levels, lineStart, run) && lineStart <= run.start < run.end <= lineStart + |levels| by { RunInLine(levels, lineStart, run); }
    forall k | 0 <= k < run.end - lineStart && levels[k] != NO_LEVEL
      ensures InSomeRun(lineStart, next, k)
    {
      if k < pos {
        var q :| 0 <= q < |runs| && runs[q].start <= lineStart + k < runs[q].end;
        assert next[q] == runs[q];
      } else {
        assert next[|runs|] == run;
      }
    }
  }

  lemma RunInLine(levels: seq<Level>, lineStart: nat, run: BidiRun)
    requires IsRun(levels, lineStart, run)
    ensures lineStart <= run.start < run.end <= lineStart + |levels|
  {
  }

  /** Everything the iterator yields. */
  method CollectRuns(levels: seq<Level>, lineStart: nat) returns (runs: seq<BidiRun>)
    ensures RunsTo(levels, lineStart, runs, |levels|)
  {
    hide IsRun, RunsTo;
    var iter := new RunIter(levels, lineStart);
    runs := [];
    NoRuns(levels, lineStart);
    while true
      invariant iter.levels == levels && iter.lineStart == lineStart && AtBoundary(levels, iter.pos)
      invariant RunsTo(levels, lineStart, runs, iter.pos)
      decreases |levels| - iter.pos
    {
      ghost var before := iter.pos;
      var run := iter.Next();
      match run
      case None =>
        RunsComplete(levels, lineStart, runs, before);
        return;
      case Some(r) =>
        RunInLine(levels, lineStart, r);
        RunsAppend(levels, lineStart, runs, before, r);
        runs := runs + [r];
    }
  }

  lemma NoRuns(levels: seq<Level>, lineStart: nat)
    ensures RunsTo(levels, lineStart, [], 0)
  {
  }

  lemma RunsComplete(levels: seq<Level>, lineStart: nat, runs: seq<BidiRun>, pos: nat)
    requires RunsTo(levels, lineStart, runs, pos) && AllRemoved(levels, pos, |levels|)
    ensures RunsTo(levels, lineStart, runs, |levels|)
  {
  }

  // ----- Runs in display order -----

  datatype ReorderedRun = ReorderedRun(direction: Direction, level: Level, start: int, end: int, indices: seq<int>)

  /** The indices of some runs, in one list. */
  function ShownAs(runs: seq<ReorderedRun>): seq<int> {
    if runs == [] then [] else ShownAs(runs[..|runs| - 1]) + runs[|runs| - 1].indices
  }

  /** The levels of what some runs show. */
  function LevelsShown(runs: seq<ReorderedRun>): seq<Level> {
    if runs == [] then []
    else
      var last := runs[|runs| - 1];
      LevelsShown(runs[..|runs| - 1]) + seq(|last.indices|, _ => last.level)
  }

  /** The range is the hull of the indices. */
  predicate IsHullRun(run: ReorderedRun) {
    && run.direction == DirectionOf(run.level)
    && (forall k :: 0 <= k < |run.indices| ==> run.start <= run.indices[k] < run.end)
    && run.start in run.indices
    && run.end - 1 in run.indices
  }

  /** The first `n` of some indices cut where the levels beside them change. */
  ghost predicate CutInto(order: seq<int>, levels: seq<Level>, runs: seq<ReorderedRun>, n: nat) {
    && n <= |levels| <= |order|
    && ShownAs(runs) == order[..n] && LevelsShown(runs) == levels[..n]
    && (forall r :: 0 <= r < |runs| ==> IsHullRun(runs[r]))
    && forall r :: 0 < r < |runs| ==> runs[r].level != runs[r - 1].level
  }

  lemma NothingCut(order: seq<int>, levels: seq<Level>)
    requires |levels| <= |order|
    ensures CutInto(order, levels, [], 0)
  {
  }

  lemma CutNext(order: seq<int>, levels: seq<Level>, runs: seq<ReorderedRun>, n: nat, run: ReorderedRun, m: nat)
    requires CutInto(order, levels, runs, n) && n <= m <= |levels|
    requires IsHullRun(run) && run.indices == order[n..m]
    requires forall k :: n <= k < m ==> levels[k] == run.level
    requires runs != [] ==> runs[|runs| - 1].level != run.level
    ensures CutInto(order, levels, runs + [run], m)
  {
    hide IsHullRun;
    assert (runs + [run])[..|runs|] == runs;
    assert order[..n] + order[n..m] == order[..m];
    assert seq(m - n, _ => run.level) == levels[n..m];
    assert levels[..n] + levels[n..m] == levels[..m];
  }

  /** One level throughout, the level that the line has at the indices. */
  predicate IsDisplayRun(line: seq<Level>, run: ReorderedRun) {
    && IsHullRun(run)
    && forall k :: 0 <= k < |run.indices| ==> 0 <= run.indices[k] < |line| && line[run.indices[k]] == run.level
  }

  /** The runs show the displayed indices in order, each run has the level of its
      characters, and neighbouring runs have different levels. */
  ghost predicate Displays(line: seq<Level>, order: seq<int>, runs: seq<ReorderedRun>) {
    && ShownAs(runs) == order
    && (forall r :: 0 <= r < |runs| ==> IsDisplayRun(line, runs[r]))
    && forall r :: 0 < r < |runs| ==> runs[r].level != runs[r - 1].level
  }

  /** Where an index of a run stands among all. */
  lemma {:induction false} ShownWhere(runs: seq<ReorderedRun>, r: nat, k: nat) returns (q: nat)
    requires r < |runs| && k < |runs[r].indices|
    ensures q < |ShownAs(runs)| == |LevelsShown(runs)|
    ensures ShownAs(runs)[q] == runs[r].indices[k] && LevelsShown(runs)[q] == runs[r].level
  {
    var n := |runs| - 1;
    SameShown(runs[..n]);
    if r == n {
      q := |ShownAs(runs[..n])| + k;
    } else {
      q := ShownWhere(runs[..n], r, k);
    }
  }

  lemma {:induction false} SameShown(runs: seq<ReorderedRun>)
    ensures |ShownAs(runs)| == |LevelsShown(runs)|
  {
    if runs != [] { SameShown(runs[..|runs| - 1]); }
  }

  /** Where every level read is that of the character shown, the runs display the line. */
  lemma CutDisplays(line: seq<Level>, order: seq<int>, levels: seq<Level>, runs: seq<ReorderedRun>)
    requires CutInto(order, levels, runs, |levels|) && |levels| == |order|
    requires forall q :: 0 <= q < |order| ==> 0 <= order[q] < |line| && levels[q] == line[order[q]]
    ensures Displays(line, order, runs)
  {
    hide IsHullRun;
    assert order[..|order|] == order && levels[..|levels|] == levels;
    forall r | 0 <= r < |runs| ensures IsDisplayRun(line, runs[r]) {
      forall k | 0 <= k < |runs[r].indices|
        ensures 0 <= runs[r].indices[k] < |line| && line[runs[r].indices[k]] == runs[r].level
      {
        var q := ShownWhere(runs, r, k);
      }
    }
  }

  /** The least and greatest of some indices. */
  method Extent(span: seq<int>) returns (lo: int, hi: int)
    requires span != []
    ensures lo in span && hi in span
    ensures forall k :: 0 <= k < |span| ==> lo <= span[k] <= hi
  {
    lo, hi := span[0], span[0];
    for k := 1 to |span|
      invariant lo in span && hi in span
      invariant forall j :: 0 <= j < k ==> lo <= span[j] <= hi
    {
      if span[k] < lo { lo := span[k]; }
      if span[k] > hi { hi := span[k]; }
    }
  }

  /** A span of indices at one level. */
  method OneRun(span: seq<int>, level: Level) returns (run: ReorderedRun)
    requires span != []
    ensures IsHullRun(run) && run.indices == span && run.level == level
  {
    var lo, hi := Extent(span);
    run := ReorderedRun(DirectionOf(level), level, lo, hi + 1, span);
  }

  /** The displayed indices, cut where the levels read for them change. */
  method SplitRuns(order: seq<int>, levels: seq<Level>) returns (runs: seq<ReorderedRun>)
    requires |levels| <= |order|
    ensures CutInto(order, levels, runs, |levels|)
  {
    hide IsHullRun, CutInto;
    runs := [];
    NothingCut(order, levels);
    var idx := 0;
    while idx < |levels|
      invariant idx <= |levels|
      invariant AtBoundary(levels, idx)
      invariant idx == 0 ==> runs == []
      invariant idx > 0 ==> runs != [] && runs[|runs| - 1].level == levels[idx - 1]
      invariant CutInto(order, levels, runs, idx)
    {
      var len := SpanLen(idx, levels);
      var run := OneRun(order[idx..idx + len], levels[idx]);
      CutNext(order, levels, runs, idx, run, idx + len);
      runs := runs + [run];
      idx := idx + len;
    }
  }
}
