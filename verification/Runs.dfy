/** Rule X10: level runs and isolating run sequences. */
module Runs {
  import opened Wrappers
  import opened BidiTypes

  datatype Run = Run(
    start: nat,
    end: nat,
    len: nat,
    seqId: nat,
    level: Level,
    sor: BidiClass,
    eor: BidiClass)

  datatype IsoRun = IsoRun(
    runs: seq<nat>,
    len: nat,
    level: Level,
    sos: BidiClass,
    eos: BidiClass,
    indices: seq<nat>)

  /** BD7, as the source cuts it: from `start` to `end`, past removed characters,
      one level; it ends at an isolate initiator, before the next level, or at the
      end of the paragraph. */
  ghost predicate IsSpan(types: seq<BidiClass>, levels: seq<Level>, start: nat, end: nat, level: Level) {
    && start < end <= |types| == |levels|
    && (forall i :: start <= i < end ==> levels[i] == NO_LEVEL || levels[i] == level)
    && (forall i :: start <= i < end - 1 && types[i].IsIsoInit() ==> levels[i] == NO_LEVEL)
    && (level == NO_LEVEL ==> end == |types|)
    && (level != NO_LEVEL ==> exists i :: start <= i < end && levels[i] == level)
    && (|| end == |types|
        || (types[end - 1].IsIsoInit() && levels[end - 1] != NO_LEVEL)
        || (levels[end] != NO_LEVEL && levels[end] != level))
  }

  method SpanOneRun(types: seq<BidiClass>, levels: seq<Level>, start: nat) returns (spanLevel: Level, spanLen: nat)
    requires start < |types| == |levels|
    ensures IsSpan(types, levels, start, start + spanLen, spanLevel)
  {
    spanLevel := NO_LEVEL;
    var isolateInitFound := false;
    var last := 0;
    var idx := 0;
    while start + idx < |types|
      invariant start + idx <= |types|
      invariant idx > 0 ==> last == idx - 1
      invariant forall i :: start <= i < start + idx ==> levels[i] == NO_LEVEL || levels[i] == spanLevel
      invariant forall i :: start <= i < start + idx && types[i].IsIsoInit() ==> levels[i] == NO_LEVEL
      invariant spanLevel != NO_LEVEL ==> exists i :: start <= i < start + idx && levels[i] == spanLevel
    {
      var bc, level := types[start + idx], levels[start + idx];
      if level != NO_LEVEL {
        if bc.IsIsoInit() {
          isolateInitFound := true;
        }
        if spanLevel == NO_LEVEL {
          spanLevel := level;
        } else if level != spanLevel {
          return spanLevel, last + 1;
        }
      }
      last := idx;
      if isolateInitFound {
        break;
      }
      idx := idx + 1;
    }
    spanLen := last + 1;
  }

  /** Where the runs so far end. */
  function RunsEnd(runs: seq<Run>): nat {
    if runs == [] then 0 else runs[|runs| - 1].end
  }

  /** The runs tile the paragraph from its start up to their end. */
  ghost predicate Tiling(types: seq<BidiClass>, levels: seq<Level>, runs: seq<Run>) {
    && |types| == |levels|
    && (forall r :: 0 <= r < |runs| ==>
          && IsSpan(types, levels, runs[r].start, runs[r].end, runs[r].level)
          && runs[r].level != NO_LEVEL
          && runs[r].len == runs[r].end - runs[r].start)
    && (forall r :: 0 <= r < |runs| ==> runs[r].start == RunsEnd(runs[..r]))
  }

  /** And what is left after them was removed. */
  ghost predicate TailRemoved(levels: seq<Level>, runs: seq<Run>) {
    forall i :: RunsEnd(runs) <= i < |levels| ==> levels[i] == NO_LEVEL
  }

  predicate Directed(run: Run) {
    run.sor in {LeftToRight, RightToLeft} && run.eor in {LeftToRight, RightToLeft}
  }

  /** The level of the text before run `r`, and after it. */
  function LevelBefore(runs: seq<Run>, base: Level, r: nat): Level
    requires r < |runs|
  {
    if r == 0 then base else runs[r - 1].level
  }

  function LevelAfter(runs: seq<Run>, base: Level, r: nat): Level
    requires r < |runs|
  {
    if r == |runs| - 1 then base else runs[r + 1].level
  }

  /** X10: the ends of run `r` take the direction of the higher of the two levels
      that meet there. */
  function WithEnds(runs: seq<Run>, base: Level, r: nat): (run: Run)
    requires r < |runs|
    ensures Directed(run)
  {
    runs[r].(sor := ClassOf(Max(LevelBefore(runs, base, r), runs[r].level)),
             eor := ClassOf(Max(LevelAfter(runs, base, r), runs[r].level)))
  }

  /** The directions of run `r` in plain numbers. */
  ghost predicate EndsByLevels(runs: seq<Run>, base: Level, r: nat, run: Run)
    requires r < |runs|
  {
    var here := runs[r].level;
    && run.sor == (if OddHigher(if r == 0 then base else runs[r - 1].level, here) then RightToLeft else LeftToRight)
    && run.eor == (if OddHigher(here, if r + 1 == |runs| then base else runs[r + 1].level) then RightToLeft else LeftToRight)
  }

  lemma WithEndsMeans(runs: seq<Run>, base: Level, r: nat)
    requires r < |runs|
    ensures EndsByLevels(runs, base, r, WithEnds(runs, base, r))
  {
    hide ClassOf, Max;
    HigherDecides(LevelBefore(runs, base, r), runs[r].level);
    HigherDecides(LevelAfter(runs, base, r), runs[r].level);
  }

  /** Every run has the directions of its ends. */
  ghost predicate RunsEnded(runs: seq<Run>, base: Level) {
    forall r :: 0 <= r < |runs| ==> runs[r] == WithEnds(runs, base, r)
  }

  lemma RunsEndedKept(before: seq<Run>, after: seq<Run>, base: Level)
    requires RunsEnded(before, base) && SameRuns(before, after)
    ensures RunsEnded(after, base)
  {
    hide ClassOf;
    forall r | 0 <= r < |after| ensures after[r] == WithEnds(after, base, r) {
      assert before[r] == WithEnds(before, base, r);
    }
  }

  lemma TilingAppend(types: seq<BidiClass>, levels: seq<Level>, runs: seq<Run>, run: Run)
    requires Tiling(types, levels, runs) && run.start == RunsEnd(runs)
    requires IsSpan(types, levels, run.start, run.end, run.level) && run.level != NO_LEVEL
    requires run.len == run.end - run.start
    ensures Tiling(types, levels, runs + [run])
  {
    hide IsSpan;
    var next := runs + [run];
    assert next[..|runs|] == runs;
    forall r | 0 <= r < |runs|
      ensures next[r].start == RunsEnd(next[..r])
    {
      assert next[..r] == runs[..r];
    }
  }

  lemma NoRunsYet(types: seq<BidiClass>, levels: seq<Level>)
    requires |types| == |levels|
    ensures Tiling(types, levels, [])
  {
  }

  /** A span of no level is all that is left. */
  lemma SpanEnds(types: seq<BidiClass>, levels: seq<Level>, runs: seq<Run>, start: nat, end: nat, level: Level)
    requires IsSpan(types, levels, start, end, level) && RunsEnd(runs) == start
    ensures start < end <= |types|
    ensures level == NO_LEVEL ==> end == |types| && TailRemoved(levels, runs)
  {
  }

  lemma NothingLeft(levels: seq<Level>, runs: seq<Run>)
    ensures RunsEnd(runs) == |levels| ==> TailRemoved(levels, runs)
  {
  }

  /** The two lists have the same spans, whatever else was assigned. */
  ghost predicate SameSpans(before: seq<Run>, after: seq<Run>) {
    && |before| == |after|
    && forall r :: 0 <= r < |before| ==>
         && after[r].start == before[r].start && after[r].end == before[r].end
         && after[r].len == before[r].len && after[r].level == before[r].level
  }

  lemma SpansTile(types: seq<BidiClass>, levels: seq<Level>, before: seq<Run>, after: seq<Run>)
    requires Tiling(types, levels, before) && TailRemoved(levels, before) && SameSpans(before, after)
    ensures Tiling(types, levels, after) && TailRemoved(levels, after)
  {
    hide IsSpan;
    forall r | 0 <= r < |after|
      ensures after[r].start == RunsEnd(after[..r])
    {
      assert before[r].start == RunsEnd(before[..r]);
    }
  }

  lemma SpanForward(types: seq<BidiClass>, levels: seq<Level>, runs: seq<Run>, r: nat)
    requires Tiling(types, levels, runs) && r < |runs|
    ensures runs[r].start < runs[r].end <= |types|
  {
    assert IsSpan(types, levels, runs[r].start, runs[r].end, runs[r].level);
  }

  lemma NextStart(types: seq<BidiClass>, levels: seq<Level>, runs: seq<Run>, b: nat)
    requires Tiling(types, levels, runs) && 0 < b < |runs|
    ensures runs[b].start == runs[b - 1].end
  {
    hide IsSpan;
    assert runs[b].start == RunsEnd(runs[..b]);
    assert runs[..b][b - 1] == runs[b - 1];
  }

  lemma {:induction false} TilingOrder(types: seq<BidiClass>, levels: seq<Level>, runs: seq<Run>, a: nat, b: nat)
    requires Tiling(types, levels, runs) && a < b < |runs|
    ensures runs[a].end <= runs[b].start
    decreases b
  {
    hide Tiling;
    NextStart(types, levels, runs, b);
    if a < b - 1 {
      SpanForward(types, levels, runs, b - 1);
      TilingOrder(types, levels, runs, a, b - 1);
    }
  }

  /** The run that holds position `i`. */
  lemma {:induction false} RunHolding(types: seq<BidiClass>, levels: seq<Level>, runs: seq<Run>, i: nat) returns (r: nat)
    requires Tiling(types, levels, runs) && i < RunsEnd(runs)
    ensures r < |runs| && runs[r].start <= i < runs[r].end
  {
    r := |runs| - 1;
    while i < runs[r].start
      invariant r < |runs| && i < runs[r].end
    {
      assert runs[r].start == RunsEnd(runs[..r]);
      r := r - 1;
    }
  }

  /** The class of the first character of a run that was not removed. */
  function FirstSignificant(types: seq<BidiClass>, levels: seq<Level>, start: nat, end: nat): (bc: Option<BidiClass>)
    requires start <= end <= |types| == |levels|
    decreases end - start
  {
    if start == end then None
    else if levels[start] != NO_LEVEL then Some(types[start])
    else FirstSignificant(types, levels, start + 1, end)
  }

  method FirstSignificantBidiClass(run: Run, types: seq<BidiClass>, levels: seq<Level>) returns (bc: Option<BidiClass>)
    requires run.start <= run.end <= |types| == |levels|
    ensures bc == FirstSignificant(types, levels, run.start, run.end)
  {
    var idx := run.start;
    while idx < run.end
      invariant run.start <= idx <= run.end
      invariant FirstSignificant(types, levels, idx, run.end) == FirstSignificant(types, levels, run.start, run.end)
    {
      if levels[idx] != NO_LEVEL {
        return Some(types[idx]);
      }
      idx := idx + 1;
    }
    bc := None;
  }

  // ----- Isolating run sequences -----

  ghost predicate Increasing(c: seq<nat>) {
    forall j, k :: 0 <= j < k < |c| ==> c[j] < c[k]
  }

  /** Run `a` ends in an isolate initiator that run `b` may continue: `b` has the
      same level and starts, past removed characters, with a PDI. */
  predicate Links(types: seq<BidiClass>, levels: seq<Level>, a: Run, b: Run)
    requires a.start < a.end <= |types| == |levels| && b.start <= b.end <= |types|
  {
    && types[a.end - 1].IsIsoInit()
    && a.level == b.level
    && FirstSignificant(types, levels, b.start, b.end) == Some(PopDirectionalIsolate)
  }

  ghost predicate InRange(types: seq<BidiClass>, levels: seq<Level>, runs: seq<Run>) {
    && |types| == |levels|
    && forall r :: 0 <= r < |runs| ==> runs[r].start < runs[r].end <= |types|
  }

  /** The length of some runs together. */
  function TotalLen(runs: seq<Run>, members: seq<nat>): nat
    requires forall k :: 0 <= k < |members| ==> members[k] < |runs|
  {
    if members == [] then 0 else TotalLen(runs, members[..|members| - 1]) + runs[members[|members| - 1]].len
  }

  lemma TotalLenNext(runs: seq<Run>, members: seq<nat>, idx: nat)
    requires idx < |runs| && forall k :: 0 <= k < |members| ==> members[k] < |runs|
    ensures TotalLen(runs, members + [idx]) == TotalLen(runs, members) + runs[idx].len
  {
    assert (members + [idx])[..|members|] == members;
  }

  lemma {:induction false} TotalLenKept(before: seq<Run>, after: seq<Run>, members: seq<nat>)
    requires SameRuns(before, after)
    requires forall k :: 0 <= k < |members| ==> members[k] < |before|
    ensures TotalLen(before, members) == TotalLen(after, members)
  {
    if members != [] { TotalLenKept(before, after, members[..|members| - 1]); }
  }

  /** One sequence: some runs in order, each linked to the next. */
  ghost predicate IsSequence(types: seq<BidiClass>, levels: seq<Level>, runs: seq<Run>, s: IsoRun)
    requires InRange(types, levels, runs)
  {
    && s.runs != []
    && (forall k :: 0 <= k < |s.runs| ==> s.runs[k] < |runs| && runs[s.runs[k]].level == s.level)
    && Increasing(s.runs)
    && s.len == TotalLen(runs, s.runs)
    && (forall k :: 0 < k < |s.runs| ==> Links(types, levels, runs[s.runs[k - 1]], runs[s.runs[k]]))
  }

  /** Every assigned run belongs to the sequence its id names, and to no other. */
  ghost predicate Assigned(runs: seq<Run>, isoRuns: seq<IsoRun>) {
    && (forall r :: 0 <= r < |runs| && runs[r].seqId != 0 ==>
          runs[r].seqId <= |isoRuns| && r in isoRuns[runs[r].seqId - 1].runs)
    && (forall s, k :: 0 <= s < |isoRuns| && 0 <= k < |isoRuns[s].runs| ==>
          isoRuns[s].runs[k] < |runs| && runs[isoRuns[s].runs[k]].seqId == s + 1)
  }

  /** Nothing about a run changes but its sequence id. */
  predicate SameRuns(before: seq<Run>, after: seq<Run>) {
    && |before| == |after|
    && forall r :: 0 <= r < |before| ==> after[r] == before[r].(seqId := after[r].seqId)
  }

  /** The isolating run sequences partition the runs. */
  ghost predicate Partition(types: seq<BidiClass>, levels: seq<Level>, runs: seq<Run>, isoRuns: seq<IsoRun>) {
    && InRange(types, levels, runs)
    && (forall s :: 0 <= s < |isoRuns| ==> IsSequence(types, levels, runs, isoRuns[s]))
    && Assigned(runs, isoRuns)
    && (forall r :: 0 <= r < |runs| ==> runs[r].seqId != 0)
  }

  /** Each run is in exactly one sequence. */
  lemma PartitionExact(types: seq<BidiClass>, levels: seq<Level>, runs: seq<Run>, isoRuns: seq<IsoRun>, r: nat)
    requires Partition(types, levels, runs, isoRuns) && r < |runs|
    ensures exists s :: 0 <= s < |isoRuns| && r in isoRuns[s].runs
    ensures forall s, t :: 0 <= s < |isoRuns| && 0 <= t < |isoRuns| && r in isoRuns[s].runs && r in isoRuns[t].runs ==> s == t
  {
    assert r in isoRuns[runs[r].seqId - 1].runs;
    forall s | 0 <= s < |isoRuns| && r in isoRuns[s].runs
      ensures s + 1 == runs[r].seqId
    {
      var k :| 0 <= k < |isoRuns[s].runs| && isoRuns[s].runs[k] == r;
    }
  }

  /** The character positions of a run. */
  function Positions(start: nat, end: nat): (p: seq<nat>)
    requires start <= end
    ensures |p| == end - start
    ensures forall k :: 0 <= k < |p| ==> p[k] == start + k
  {
    seq(end - start, k requires 0 <= k => start + k)
  }

  /** The text chain of some runs, in order. */
  function TextChain(runs: seq<Run>, members: seq<nat>): (indices: seq<nat>)
    requires Members(runs, members)
  {
    if members == [] then []
    else
      var last := runs[members[|members| - 1]];
      TextChain(runs, members[..|members| - 1]) + Positions(last.start, last.end)
  }

  ghost predicate Bounded(levels: seq<Level>, indices: seq<nat>) {
    forall k :: 0 <= k < |indices| ==> indices[k] < |levels|
  }

  /** What the passes over the sequences rely on. */
  ghost predicate Chain(levels: seq<Level>, s: IsoRun) {
    && Bounded(levels, s.indices)
    && Increasing(s.indices)
    && (forall k :: 0 <= k < |s.indices| ==> levels[s.indices[k]] == NO_LEVEL || levels[s.indices[k]] == s.level)
    && s.sos in {LeftToRight, RightToLeft}
    && s.eos in {LeftToRight, RightToLeft}
  }

  ghost predicate Disjoint(isoRuns: seq<IsoRun>) {
    forall s, t, i :: 0 <= s < t < |isoRuns| && i in isoRuns[s].indices ==> i !in isoRuns[t].indices
  }

  /** Every character that was not removed is in a sequence. */
  ghost predicate Covering(levels: seq<Level>, isoRuns: seq<IsoRun>) {
    forall i :: 0 <= i < |levels| && levels[i] != NO_LEVEL ==>
      exists s :: 0 <= s < |isoRuns| && i in isoRuns[s].indices
  }

  ghost predicate Chains(levels: seq<Level>, isoRuns: seq<IsoRun>) {
    && (forall s :: 0 <= s < |isoRuns| ==> Chain(levels, isoRuns[s]))
    && Disjoint(isoRuns)
    && Covering(levels, isoRuns)
  }

  predicate Holds(run: Run, i: nat) {
    run.start <= i < run.end
  }

  predicate Members(runs: seq<Run>, members: seq<nat>) {
    forall k :: 0 <= k < |members| ==> members[k] < |runs| && runs[members[k]].start <= runs[members[k]].end
  }

  lemma {:induction false} InChain(runs: seq<Run>, members: seq<nat>, k: nat, i: nat)
    requires Members(runs, members) && k < |members| && Holds(runs[members[k]], i)
    ensures i in TextChain(runs, members)
  {
    var n := |members| - 1;
    var last := runs[members[n]];
    if k < n {
      InChain(runs, members[..n], k, i);
    } else {
      assert Positions(last.start, last.end)[i - last.start] == i;
    }
  }

  lemma {:induction false} ChainHolder(runs: seq<Run>, members: seq<nat>, i: nat) returns (k: nat)
    requires Members(runs, members) && i in TextChain(runs, members)
    ensures k < |members| && Holds(runs[members[k]], i)
  {
    var n := |members| - 1;
    if i in TextChain(runs, members[..n]) {
      k := ChainHolder(runs, members[..n], i);
    } else {
      k := n;
    }
  }

  lemma AppendIncreasing(c: seq<nat>, start: nat, end: nat)
    requires Increasing(c) && start <= end
    requires forall k :: 0 <= k < |c| ==> c[k] < start
    ensures Increasing(c + Positions(start, end))
  {
  }

  /** A chain of runs of a tiling is strictly increasing. */
  lemma {:induction false} ChainIncreasing(types: seq<BidiClass>, levels: seq<Level>, runs: seq<Run>, members: seq<nat>)
    requires Tiling(types, levels, runs)
    requires forall k :: 0 <= k < |members| ==> members[k] < |runs|
    requires Increasing(members)
    ensures Increasing(TextChain(runs, members))
  {
    hide IsSpan;
    if members != [] {
      var n := |members| - 1;
      var rest, last := TextChain(runs, members[..n]), runs[members[n]];
      ChainIncreasing(types, levels, runs, members[..n]);
      forall j | 0 <= j < |rest|
        ensures rest[j] < last.start
      {
        var k := ChainHolder(runs, members[..n], rest[j]);
        TilingOrder(types, levels, runs, members[k], members[n]);
      }
      AppendIncreasing(rest, last.start, last.end);
    }
  }

  /** X10: a sequence has the directions of its outer ends, but after an initiator
      that nothing continues it is the paragraph that follows. */
  ghost predicate Ended(types: seq<BidiClass>, base: Level, runs: seq<Run>, s: IsoRun) {
    && s.runs != [] && s.runs[0] < |runs| && s.runs[|s.runs| - 1] < |runs|
    && var last := runs[s.runs[|s.runs| - 1]];
       && s.sos == runs[s.runs[0]].sor
       && 0 < last.end <= |types|
       && s.eos == if types[last.end - 1].IsIsoInit() then ClassOf(Max(base, s.level)) else last.eor
  }

  ghost predicate SequencesEnded(types: seq<BidiClass>, base: Level, runs: seq<Run>, isoRuns: seq<IsoRun>) {
    forall s :: 0 <= s < |isoRuns| ==> Ended(types, base, runs, isoRuns[s])
  }

  lemma EndedKept(types: seq<BidiClass>, base: Level, runs: seq<Run>, before: seq<IsoRun>, after: seq<IsoRun>)
    requires SequencesEnded(types, base, runs, before) && |before| == |after|
    requires forall s :: 0 <= s < |after| ==> after[s] == before[s].(indices := after[s].indices)
    ensures SequencesEnded(types, base, runs, after)
  {
  }

  /** Directions assigned and chains built. */
  ghost predicate Finished(runs: seq<Run>, isoRuns: seq<IsoRun>) {
    forall s :: 0 <= s < |isoRuns| ==>
      && Members(runs, isoRuns[s].runs)
      && isoRuns[s].indices == TextChain(runs, isoRuns[s].runs)
      && isoRuns[s].sos in {LeftToRight, RightToLeft}
      && isoRuns[s].eos in {LeftToRight, RightToLeft}
  }

  lemma SequenceIsChain(types: seq<BidiClass>, levels: seq<Level>, runs: seq<Run>, isoRuns: seq<IsoRun>, s: nat)
    requires Tiling(types, levels, runs) && Partition(types, levels, runs, isoRuns) && Finished(runs, isoRuns)
    requires s < |isoRuns|
    ensures Chain(levels, isoRuns[s])
  {
    var q := isoRuns[s];
    assert IsSequence(types, levels, runs, q);
    ChainIncreasing(types, levels, runs, q.runs);
    forall k | 0 <= k < |q.indices|
      ensures q.indices[k] < |levels|
      ensures levels[q.indices[k]] == NO_LEVEL || levels[q.indices[k]] == q.level
    {
      var m := ChainHolder(runs, q.runs, q.indices[k]);
      assert IsSpan(types, levels, runs[q.runs[m]].start, runs[q.runs[m]].end, runs[q.runs[m]].level);
    }
  }

  lemma SequencesDisjoint(types: seq<BidiClass>, levels: seq<Level>, runs: seq<Run>, isoRuns: seq<IsoRun>, s: nat, t: nat, i: nat)
    requires Tiling(types, levels, runs) && Partition(types, levels, runs, isoRuns) && Finished(runs, isoRuns)
    requires s < |isoRuns| && t < |isoRuns| && i in isoRuns[s].indices && i in isoRuns[t].indices
    ensures s == t
  {
    hide TextChain, IsSpan, IsSequence;
    var j := ChainHolder(runs, isoRuns[s].runs, i);
    var k := ChainHolder(runs, isoRuns[t].runs, i);
    var a, b := isoRuns[s].runs[j], isoRuns[t].runs[k];
    if a < b { TilingOrder(types, levels, runs, a, b); }
    if b < a { TilingOrder(types, levels, runs, b, a); }
    assert runs[a].seqId == s + 1 && runs[b].seqId == t + 1;
  }

  lemma LiveCovered(types: seq<BidiClass>, levels: seq<Level>, runs: seq<Run>, isoRuns: seq<IsoRun>, i: nat) returns (s: nat)
    requires Tiling(types, levels, runs) && TailRemoved(levels, runs)
    requires Partition(types, levels, runs, isoRuns) && Finished(runs, isoRuns)
    requires i < |levels| && levels[i] != NO_LEVEL
    ensures s < |isoRuns| && i in isoRuns[s].indices
  {
    hide TextChain, IsSpan, IsSequence, Tiling, InRange;
    var r := RunHolding(types, levels, runs, i);
    s := runs[r].seqId - 1;
    var k :| 0 <= k < |isoRuns[s].runs| && isoRuns[s].runs[k] == r;
    InChain(runs, isoRuns[s].runs, k, i);
  }

  /** So the text chains are in order, at one level each, disjoint, and together
      hold every character that was not removed. */
  lemma SequencesAreChains(types: seq<BidiClass>, levels: seq<Level>, runs: seq<Run>, isoRuns: seq<IsoRun>)
    requires Tiling(types, levels, runs) && TailRemoved(levels, runs)
    requires Partition(types, levels, runs, isoRuns) && Finished(runs, isoRuns)
    ensures Chains(levels, isoRuns)
  {
    hide Tiling, TailRemoved, Partition, Finished, Chain;
    forall s | 0 <= s < |isoRuns|
      ensures Chain(levels, isoRuns[s])
    {
      SequenceIsChain(types, levels, runs, isoRuns, s);
    }
    forall s, t, i | 0 <= s < t < |isoRuns| && i in isoRuns[s].indices && i in isoRuns[t].indices
      ensures false
    {
      SequencesDisjoint(types, levels, runs, isoRuns, s, t, i);
    }
    forall i | 0 <= i < |levels| && levels[i] != NO_LEVEL
      ensures exists s :: 0 <= s < |isoRuns| && i in isoRuns[s].indices
    {
      var s := LiveCovered(types, levels, runs, isoRuns, i);
    }
  }

  // ----- Building the sequences -----

  /** The sequences so far, before every run has one. */
  ghost predicate Sequenced(types: seq<BidiClass>, levels: seq<Level>, runs: seq<Run>, isoRuns: seq<IsoRun>)
    requires InRange(types, levels, runs)
  {
    && (forall s :: 0 <= s < |isoRuns| ==> IsSequence(types, levels, runs, isoRuns[s]))
    && Assigned(runs, isoRuns)
  }

  lemma SequencedStart(types: seq<BidiClass>, levels: seq<Level>, runs: seq<Run>)
    requires InRange(types, levels, runs) && forall r :: 0 <= r < |runs| ==> runs[r].seqId == 0
    ensures Sequenced(types, levels, runs, [])
  {
  }

  lemma SequencedEnd(types: seq<BidiClass>, levels: seq<Level>, runs: seq<Run>, isoRuns: seq<IsoRun>)
    requires InRange(types, levels, runs) && Sequenced(types, levels, runs, isoRuns)
    requires forall r :: 0 <= r < |runs| ==> runs[r].seqId != 0
    ensures Partition(types, levels, runs, isoRuns)
  {
    hide IsSequence;
  }

  lemma TilingInRange(types: seq<BidiClass>, levels: seq<Level>, runs: seq<Run>)
    requires Tiling(types, levels, runs)
    ensures InRange(types, levels, runs)
  {
  }

  lemma SameSpansTile(types: seq<BidiClass>, levels: seq<Level>, before: seq<Run>, after: seq<Run>)
    requires Tiling(types, levels, before) && TailRemoved(levels, before) && SameRuns(before, after)
    ensures Tiling(types, levels, after) && TailRemoved(levels, after)
    ensures forall r :: 0 <= r < |after| ==> Directed(after[r]) == Directed(before[r])
  {
    hide Tiling, TailRemoved;
    SpansTile(types, levels, before, after);
  }

  /** Being a sequence does not depend on the ids. */
  lemma SequenceKept(types: seq<BidiClass>, levels: seq<Level>, before: seq<Run>, after: seq<Run>, s: IsoRun)
    requires InRange(types, levels, before) && InRange(types, levels, after) && SameRuns(before, after)
    requires IsSequence(types, levels, before, s)
    ensures IsSequence(types, levels, after, s)
  {
    hide Links;
    TotalLenKept(before, after, s.runs);
    forall k | 0 < k < |s.runs| ensures Links(types, levels, after[s.runs[k - 1]], after[s.runs[k]]) {
      SameLinks(types, levels, before, after, s.runs[k - 1], s.runs[k]);
    }
  }

  lemma StartedIsSequenced(types: seq<BidiClass>, levels: seq<Level>, runs: seq<Run>, seqs: seq<IsoRun>, runIdx: nat)
    requires InRange(types, levels, runs) && Sequenced(types, levels, runs, seqs)
    requires runIdx < |runs| && runs[runIdx].seqId == 0
    ensures var run := runs[runIdx];
      var after := runs[runIdx := run.(seqId := |seqs| + 1)];
      && InRange(types, levels, after)
      && Sequenced(types, levels, after, seqs + [IsoRun([runIdx], run.len, run.level, OtherNeutral, OtherNeutral, [])])
  {
    hide FirstSignificant, IsSequence;
    var run := runs[runIdx];
    var after := runs[runIdx := run.(seqId := |seqs| + 1)];
    var started := IsoRun([runIdx], run.len, run.level, OtherNeutral, OtherNeutral, []);
    var isoRuns := seqs + [started];
    forall s | 0 <= s < |isoRuns|
      ensures IsSequence(types, levels, after, isoRuns[s])
    {
      if s < |seqs| {
        SequenceKept(types, levels, runs, after, seqs[s]);
      } else {
        SingleIsSequence(types, levels, after, started, runIdx);
      }
    }
    StartedAssigned(runs, seqs, runIdx, started);
  }

  lemma SingleIsSequence(types: seq<BidiClass>, levels: seq<Level>, runs: seq<Run>, s: IsoRun, runIdx: nat)
    requires InRange(types, levels, runs) && runIdx < |runs|
    requires s.runs == [runIdx] && s.level == runs[runIdx].level && s.len == runs[runIdx].len
    ensures IsSequence(types, levels, runs, s)
  {
    assert s.runs[..0] == [];
  }

  lemma StartedAssigned(runs: seq<Run>, seqs: seq<IsoRun>, runIdx: nat, started: IsoRun)
    requires Assigned(runs, seqs) && runIdx < |runs| && runs[runIdx].seqId == 0
    requires started.runs == [runIdx]
    ensures Assigned(runs[runIdx := runs[runIdx].(seqId := |seqs| + 1)], seqs + [started])
  {
  }

  /** Run `idx` may continue the sequence. */
  ghost predicate GoesOn(types: seq<BidiClass>, levels: seq<Level>, runs: seq<Run>, s: IsoRun, idx: nat)
    requires InRange(types, levels, runs)
  {
    && s.runs != [] && s.runs[|s.runs| - 1] < idx < |runs|
    && s.level == runs[idx].level
    && Links(types, levels, runs[s.runs[|s.runs| - 1]], runs[idx])
  }

  function WithId(runs: seq<Run>, idx: nat, id: nat): seq<Run>
    requires idx < |runs|
  {
    runs[idx := runs[idx].(seqId := id)]
  }

  /** The last sequence with one more run. */
  function Extended(runs: seq<Run>, seqs: seq<IsoRun>, idx: nat): seq<IsoRun>
    requires idx < |runs| && seqs != []
  {
    var last := |seqs| - 1;
    seqs[last := seqs[last].(runs := seqs[last].runs + [idx], len := seqs[last].len + runs[idx].len)]
  }

  /** One more run linked to the last sequence. */
  lemma ExtendedIsSequenced(types: seq<BidiClass>, levels: seq<Level>, runs: seq<Run>, seqs: seq<IsoRun>, idx: nat)
    requires InRange(types, levels, runs) && Sequenced(types, levels, runs, seqs)
    requires idx < |runs| && runs[idx].seqId == 0
    requires seqs != [] && GoesOn(types, levels, runs, seqs[|seqs| - 1], idx)
    ensures InRange(types, levels, WithId(runs, idx, |seqs|))
    ensures Sequenced(types, levels, WithId(runs, idx, |seqs|), Extended(runs, seqs, idx))
  {
    hide FirstSignificant, IsSequence, Links, Assigned;
    var last := |seqs| - 1;
    var after := runs[idx := runs[idx].(seqId := last + 1)];
    var s := seqs[last].(runs := seqs[last].runs + [idx], len := seqs[last].len + runs[idx].len);
    var isoRuns := seqs[last := s];
    forall t | 0 <= t < |isoRuns|
      ensures IsSequence(types, levels, after, isoRuns[t])
    {
      SequenceKept(types, levels, runs, after, seqs[t]);
      if t == last {
        SameLinks(types, levels, runs, after, s.runs[|s.runs| - 2], idx);
        LongerIsSequence(types, levels, after, seqs[t], s, idx);
      }
    }
    ExtendedAssigned(runs, seqs, idx, s);
  }

  lemma LongerIsSequence(types: seq<BidiClass>, levels: seq<Level>, runs: seq<Run>, s: IsoRun, t: IsoRun, idx: nat)
    requires InRange(types, levels, runs) && IsSequence(types, levels, runs, s) && idx < |runs|
    requires t.runs == s.runs + [idx] && t.level == s.level == runs[idx].level && t.len == s.len + runs[idx].len
    requires s.runs[|s.runs| - 1] < idx
    requires Links(types, levels, runs[s.runs[|s.runs| - 1]], runs[idx])
    ensures IsSequence(types, levels, runs, t)
  {
    TotalLenNext(runs, s.runs, idx);
    hide TotalLen, Links, InRange;
  }

  /** Nor do the links. */
  lemma SameLinks(types: seq<BidiClass>, levels: seq<Level>, a: seq<Run>, b: seq<Run>, p: nat, r: nat)
    requires InRange(types, levels, a) && InRange(types, levels, b) && SameRuns(a, b) && p < |a| && r < |a|
    ensures Links(types, levels, a[p], a[r]) == Links(types, levels, b[p], b[r])
  {
    hide FirstSignificant;
  }

  lemma ExtendedAssigned(runs: seq<Run>, seqs: seq<IsoRun>, idx: nat, s: IsoRun)
    requires Assigned(runs, seqs) && seqs != [] && idx < |runs| && runs[idx].seqId == 0
    requires s.runs == seqs[|seqs| - 1].runs + [idx]
    ensures Assigned(runs[idx := runs[idx].(seqId := |seqs|)], seqs[|seqs| - 1 := s])
  {
    var last := |seqs| - 1;
    var after, isoRuns := runs[idx := runs[idx].(seqId := |seqs|)], seqs[last := s];
    forall r | 0 <= r < |after| && after[r].seqId != 0
      ensures after[r].seqId <= |isoRuns| && r in isoRuns[after[r].seqId - 1].runs
    {
      if r == idx { assert s.runs[|s.runs| - 1] == idx; }
    }
  }

  lemma SequenceLevel(types: seq<BidiClass>, levels: seq<Level>, runs: seq<Run>, isoRuns: seq<IsoRun>, s: nat)
    requires InRange(types, levels, runs) && Sequenced(types, levels, runs, isoRuns) && s < |isoRuns|
    ensures isoRuns[s].runs != [] && isoRuns[s].runs[0] < |runs|
    ensures runs[isoRuns[s].runs[0]].level == isoRuns[s].level
  {
    assert IsSequence(types, levels, runs, isoRuns[s]);
  }

  lemma PartitionMembers(types: seq<BidiClass>, levels: seq<Level>, runs: seq<Run>, isoRuns: seq<IsoRun>, s: nat)
    requires Partition(types, levels, runs, isoRuns) && s < |isoRuns|
    ensures Members(runs, isoRuns[s].runs)
    ensures InRange(types, levels, runs) && IsSequence(types, levels, runs, isoRuns[s])
  {
    assert IsSequence(types, levels, runs, isoRuns[s]);
  }

  lemma SequenceAs(types: seq<BidiClass>, levels: seq<Level>, runs: seq<Run>, a: IsoRun, b: IsoRun)
    requires InRange(types, levels, runs) && IsSequence(types, levels, runs, a)
    requires b.runs == a.runs && b.level == a.level && b.len == a.len
    ensures IsSequence(types, levels, runs, b)
  {
    hide Links, TotalLen, InRange;
  }

  /** The partition does not depend on directions and chains. */
  lemma SameMembers(types: seq<BidiClass>, levels: seq<Level>, runs: seq<Run>, seqs: seq<IsoRun>, isoRuns: seq<IsoRun>)
    requires Partition(types, levels, runs, seqs) && |seqs| == |isoRuns|
    requires forall s :: 0 <= s < |seqs| ==>
      isoRuns[s].runs == seqs[s].runs && isoRuns[s].level == seqs[s].level && isoRuns[s].len == seqs[s].len
    ensures Partition(types, levels, runs, isoRuns)
  {
    hide IsSequence, InRange;
    forall s | 0 <= s < |isoRuns|
      ensures IsSequence(types, levels, runs, isoRuns[s])
    {
      SequenceAs(types, levels, runs, seqs[s], isoRuns[s]);
    }
  }
}
