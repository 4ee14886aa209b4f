/** Rule X10 by characters: the two directions at the ends of an isolating run sequence. */
module SequenceEnds {
  import opened Wrappers
  import opened BidiTypes
  import opened Runs
  import opened Linking
  import opened TextChains
  import opened Resolution

  /** The level of the nearest character before `i` that was not removed, or the base
      level. */
  function NearestBefore(levels: seq<Level>, base: Level, i: nat): (level: Level)
    requires i <= |levels|
    ensures || (level == base && forall j :: 0 <= j < i ==> levels[j] == NO_LEVEL)
            || (exists m :: 0 <= m < i && levels[m] == level != NO_LEVEL && forall j :: m < j < i ==> levels[j] == NO_LEVEL)
  {
    if i == 0 then base else if levels[i - 1] != NO_LEVEL then levels[i - 1] else NearestBefore(levels, base, i - 1)
  }

  /** The level of the nearest one from `i` on, or the base level. */
  function NearestFrom(levels: seq<Level>, base: Level, i: nat): (level: Level)
    requires i <= |levels|
    ensures || (level == base && forall j :: i <= j < |levels| ==> levels[j] == NO_LEVEL)
            || (exists m :: i <= m < |levels| && levels[m] == level != NO_LEVEL && forall j :: i <= j < m ==> levels[j] == NO_LEVEL)
    decreases |levels| - i
  {
    if i == |levels| then base else if levels[i] != NO_LEVEL then levels[i] else NearestFrom(levels, base, i + 1)
  }

  /** The first character of a chain that was not removed, and the last one. */
  ghost predicate IsFirst(levels: seq<Level>, indices: seq<nat>, i: nat) {
    i in indices && i < |levels| && levels[i] != NO_LEVEL && forall j :: 0 <= j < i && j in indices ==> levels[j] == NO_LEVEL
  }

  ghost predicate IsLast(levels: seq<Level>, indices: seq<nat>, i: nat) {
    i in indices && i < |levels| && levels[i] != NO_LEVEL && forall j :: i < j < |levels| && j in indices ==> levels[j] == NO_LEVEL
  }

  /** The higher of the level of the sequence and of the text before its first character. */
  function SosOf(levels: seq<Level>, base: Level, first: nat): BidiClass
    requires first < |levels|
  {
    ClassOf(Max(NearestBefore(levels, base, first), levels[first]))
  }

  /** And of the text after its last character, or of the base level if that one is an
      initiator. */
  function EosOf(classes: seq<BidiClass>, levels: seq<Level>, base: Level, last: nat): BidiClass
    requires last < |classes| == |levels|
  {
    ClassOf(Max(if classes[last].IsIsoInit() then base else NearestFrom(levels, base, last + 1), levels[last]))
  }

  lemma {:induction false} NearestBeforeIs(levels: seq<Level>, base: Level, m: nat, i: nat)
    requires m < i <= |levels| && levels[m] != NO_LEVEL && forall j :: m < j < i ==> levels[j] == NO_LEVEL
    ensures NearestBefore(levels, base, i) == levels[m]
  {
    if m < i - 1 { NearestBeforeIs(levels, base, m, i - 1); }
  }

  lemma {:induction false} NoneBefore(levels: seq<Level>, base: Level, i: nat)
    requires i <= |levels| && forall j :: 0 <= j < i ==> levels[j] == NO_LEVEL
    ensures NearestBefore(levels, base, i) == base
  {
    if i > 0 { NoneBefore(levels, base, i - 1); }
  }

  lemma {:induction false} NearestFromIs(levels: seq<Level>, base: Level, i: nat, m: nat)
    requires i <= m < |levels| && levels[m] != NO_LEVEL && forall j :: i <= j < m ==> levels[j] == NO_LEVEL
    ensures NearestFrom(levels, base, i) == levels[m]
    decreases m - i
  {
    if i < m { NearestFromIs(levels, base, i + 1, m); }
  }

  lemma {:induction false} NoneFrom(levels: seq<Level>, base: Level, i: nat)
    requires i <= |levels| && forall j :: i <= j < |levels| ==> levels[j] == NO_LEVEL
    ensures NearestFrom(levels, base, i) == base
    decreases |levels| - i
  {
    if i < |levels| { NoneFrom(levels, base, i + 1); }
  }

  // ----- Runs -----

  lemma SpanOf(classes: seq<BidiClass>, levels: seq<Level>, runs: seq<Run>, r: nat)
    requires Tiling(classes, levels, runs) && r < |runs|
    ensures IsSpan(classes, levels, runs[r].start, runs[r].end, runs[r].level) && runs[r].level != NO_LEVEL
    ensures if r == 0 then runs[r].start == 0 else runs[r].start == runs[r - 1].end
  {
    hide IsSpan;
    assert runs[r].start == RunsEnd(runs[..r]);
  }

  /** The first character of a run that was not removed, and the last one. */
  lemma FirstOf(classes: seq<BidiClass>, levels: seq<Level>, start: nat, end: nat, level: Level) returns (m: nat)
    requires IsSpan(classes, levels, start, end, level) && level != NO_LEVEL
    ensures start <= m < end <= |levels| && levels[m] == level && forall j :: start <= j < m ==> levels[j] == NO_LEVEL
  {
    m := start;
    while levels[m] == NO_LEVEL
      invariant start <= m < end && forall j :: start <= j < m ==> levels[j] == NO_LEVEL
      decreases end - m
    {
      assert exists i :: m < i < end && levels[i] == level;
      m := m + 1;
    }
  }

  lemma LastOf(classes: seq<BidiClass>, levels: seq<Level>, start: nat, end: nat, level: Level) returns (m: nat)
    requires IsSpan(classes, levels, start, end, level) && level != NO_LEVEL
    ensures start <= m < end <= |levels| && levels[m] == level && forall j :: m < j < end ==> levels[j] == NO_LEVEL
  {
    m := end - 1;
    while levels[m] == NO_LEVEL
      invariant start <= m < end && forall j :: m < j < end ==> levels[j] == NO_LEVEL
      decreases m
    {
      assert exists i :: start <= i < m && levels[i] == level;
      m := m - 1;
    }
  }

  /** Before the first character of run `r` there is the text of the run before it. */
  lemma BeforeRun(classes: seq<BidiClass>, levels: seq<Level>, base: Level, runs: seq<Run>, r: nat, first: nat)
    requires Tiling(classes, levels, runs) && r < |runs|
    requires runs[r].start <= first < runs[r].end && forall j :: runs[r].start <= j < first ==> levels[j] == NO_LEVEL
    ensures first < |levels| && NearestBefore(levels, base, first) == LevelBefore(runs, base, r)
  {
    hide Tiling, IsSpan;
    SpanOf(classes, levels, runs, r);
    SpanForward(classes, levels, runs, r);
    TilingLength(classes, levels, runs);
    if r == 0 {
      NoneBefore(levels, base, first);
    } else {
      SpanOf(classes, levels, runs, r - 1);
      var m := LastOf(classes, levels, runs[r - 1].start, runs[r - 1].end, runs[r - 1].level);
      NearestBeforeIs(levels, base, m, first);
    }
  }

  lemma AfterRun(classes: seq<BidiClass>, levels: seq<Level>, base: Level, runs: seq<Run>, r: nat, last: nat)
    requires Tiling(classes, levels, runs) && TailRemoved(levels, runs) && r < |runs|
    requires runs[r].start <= last < runs[r].end && forall j :: last < j < runs[r].end ==> levels[j] == NO_LEVEL
    ensures last < |levels| && NearestFrom(levels, base, last + 1) == LevelAfter(runs, base, r)
  {
    hide Tiling, IsSpan;
    SpanForward(classes, levels, runs, r);
    if r == |runs| - 1 {
      TilingLength(classes, levels, runs);
      NoneFrom(levels, base, last + 1);
    } else {
      SpanOf(classes, levels, runs, r + 1);
      var m := FirstOf(classes, levels, runs[r + 1].start, runs[r + 1].end, runs[r + 1].level);
      NearestFromIs(levels, base, last + 1, m);
    }
  }

  lemma TilingLength(classes: seq<BidiClass>, levels: seq<Level>, runs: seq<Run>)
    requires Tiling(classes, levels, runs)
    ensures |classes| == |levels|
  {
  }

  /** A run ends in an initiator exactly if its last character is one. */
  lemma EndsInInitiator(classes: seq<BidiClass>, levels: seq<Level>, start: nat, end: nat, level: Level, last: nat)
    requires IsSpan(classes, levels, start, end, level) && Inert(classes, levels)
    requires start <= last < end && levels[last] != NO_LEVEL && forall j :: last < j < end ==> levels[j] == NO_LEVEL
    ensures classes[end - 1].IsIsoInit() <==> classes[last].IsIsoInit()
  {
  }

  // ----- Sequences -----

  lemma SequenceMembers(classes: seq<BidiClass>, levels: seq<Level>, runs: seq<Run>, isoRuns: seq<IsoRun>, s: nat)
    requires Partition(classes, levels, runs, isoRuns) && Finished(runs, isoRuns) && s < |isoRuns|
    ensures isoRuns[s].runs != [] && Increasing(isoRuns[s].runs) && Members(runs, isoRuns[s].runs)
    ensures isoRuns[s].indices == TextChain(runs, isoRuns[s].runs)
    ensures forall k :: 0 <= k < |isoRuns[s].runs| ==> isoRuns[s].runs[k] < |runs| && runs[isoRuns[s].runs[k]].level == isoRuns[s].level
  {
    hide Links, TotalLen, TextChain;
    assert IsSequence(classes, levels, runs, isoRuns[s]);
  }

  /** The first character of the first run is the first one of the chain. */
  lemma FirstOfChain(classes: seq<BidiClass>, levels: seq<Level>, runs: seq<Run>, members: seq<nat>, first: nat)
    requires Tiling(classes, levels, runs) && Members(runs, members) && members != [] && Increasing(members)
    requires Holds(runs[members[0]], first) && first < |levels| && levels[first] != NO_LEVEL
    requires forall j :: runs[members[0]].start <= j < first ==> levels[j] == NO_LEVEL
    ensures IsFirst(levels, TextChain(runs, members), first)
  {
    hide Tiling, TextChain;
    InChain(runs, members, 0, first);
    forall j | 0 <= j < first && j in TextChain(runs, members) ensures levels[j] == NO_LEVEL {
      var k := ChainHolder(runs, members, j);
      if k > 0 { TilingOrder(classes, levels, runs, members[0], members[k]); }
    }
  }

  lemma LastOfChain(classes: seq<BidiClass>, levels: seq<Level>, runs: seq<Run>, members: seq<nat>, last: nat)
    requires Tiling(classes, levels, runs) && Members(runs, members) && members != [] && Increasing(members)
    requires Holds(runs[members[|members| - 1]], last) && last < |levels| && levels[last] != NO_LEVEL
    requires forall j :: last < j < runs[members[|members| - 1]].end ==> (j < |levels| ==> levels[j] == NO_LEVEL)
    ensures IsLast(levels, TextChain(runs, members), last)
  {
    hide Tiling, TextChain;
    InChain(runs, members, |members| - 1, last);
    forall j | last < j < |levels| && j in TextChain(runs, members) ensures levels[j] == NO_LEVEL {
      var k := ChainHolder(runs, members, j);
      if k < |members| - 1 { TilingOrder(classes, levels, runs, members[k], members[|members| - 1]); }
    }
  }

  /** A sequence takes its two ends from its first and its last run. */
  lemma EndRuns(classes: seq<BidiClass>, levels: seq<Level>, base: Level, runs: seq<Run>, isoRuns: seq<IsoRun>, s: nat) returns (a: nat, b: nat)
    requires Sequences(classes, levels, base, runs, isoRuns) && s < |isoRuns|
    ensures isoRuns[s].runs != [] && a == isoRuns[s].runs[0] < |runs| && b == isoRuns[s].runs[|isoRuns[s].runs| - 1] < |runs|
    ensures runs[a].level == runs[b].level == isoRuns[s].level && 0 < runs[b].end <= |classes|
    ensures isoRuns[s].sos == ClassOf(Max(LevelBefore(runs, base, a), runs[a].level))
    ensures isoRuns[s].eos == ClassOf(Max(if classes[runs[b].end - 1].IsIsoInit() then base else LevelAfter(runs, base, b), runs[b].level))
  {
    hide Tiling, TailRemoved, Partition, Greedy, TextChain, ClassOf;
    SequenceMembers(classes, levels, runs, isoRuns, s);
    hide Finished;
    assert Ended(classes, base, runs, isoRuns[s]);
    a, b := isoRuns[s].runs[0], isoRuns[s].runs[|isoRuns[s].runs| - 1];
    assert runs[a] == WithEnds(runs, base, a) && runs[b] == WithEnds(runs, base, b);
  }

  /** X10 by characters: sos goes by the higher of the level of the sequence and the level of
      the character before its first one; eos by the one after its last one, or by the base
      level if the last one is an initiator that nothing continues. */
  lemma EndsByCharacters(classes: seq<BidiClass>, levels: seq<Level>, base: Level, runs: seq<Run>, isoRuns: seq<IsoRun>, s: nat)
    returns (first: nat, last: nat)
    requires Sequences(classes, levels, base, runs, isoRuns) && Inert(classes, levels) && s < |isoRuns|
    ensures IsFirst(levels, isoRuns[s].indices, first) && IsLast(levels, isoRuns[s].indices, last)
    ensures first < |levels| && last < |levels| && levels[first] == levels[last] == isoRuns[s].level
    ensures isoRuns[s].sos == SosOf(levels, base, first) && isoRuns[s].eos == EosOf(classes, levels, base, last)
    ensures isoRuns[s].sos ==
      if OddHigher(NearestBefore(levels, base, first), levels[first]) then RightToLeft else LeftToRight
    ensures isoRuns[s].eos ==
      var next := if classes[last] in {LeftToRightIsolate, RightToLeftIsolate, FirstStrongIsolate} then base
                  else NearestFrom(levels, base, last + 1);
      if OddHigher(levels[last], next) then RightToLeft else LeftToRight
  {
    hide Tiling, TailRemoved, Partition, Greedy, TextChain, IsSpan, ClassOf, Max, Inert, IsFirst, IsLast, NearestBefore, NearestFrom,
      RunsEnded, SequencesEnded, LevelBefore, LevelAfter;
    SequenceMembers(classes, levels, runs, isoRuns, s);
    hide Finished;
    var a, b := EndRuns(classes, levels, base, runs, isoRuns, s);
    SpanOf(classes, levels, runs, a);
    SpanOf(classes, levels, runs, b);
    TilingLength(classes, levels, runs);
    first := FirstOf(classes, levels, runs[a].start, runs[a].end, runs[a].level);
    last := LastOf(classes, levels, runs[b].start, runs[b].end, runs[b].level);
    FirstOfChain(classes, levels, runs, isoRuns[s].runs, first);
    LastOfChain(classes, levels, runs, isoRuns[s].runs, last);
    BeforeRun(classes, levels, base, runs, a, first);
    AfterRun(classes, levels, base, runs, b, last);
    EndsInInitiator(classes, levels, runs[b].start, runs[b].end, runs[b].level, last);
    HigherDecides(NearestBefore(levels, base, first), levels[first]);
    HigherDecides(if classes[last].IsIsoInit() then base else NearestFrom(levels, base, last + 1), levels[last]);
  }
}
