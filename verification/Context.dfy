/** The BidiContext: one paragraph being resolved in place. */
module Context {
  import opened Wrappers
  import opened BidiTypes
  import opened LevelStack
  import opened ParagraphLevels
  import opened Explicit
  import opened ExplicitRules
  import opened IgnoredPushes
  import opened Runs
  import opened Linking
  import opened TextChains
  import opened Rules
  import opened Brackets
  import opened Resolution
  import opened Lines
  import opened LineOrder

  class BidiContext {
    var origCharTypes: seq<BidiClass>
    var charTypes: seq<BidiClass>
    var levels: seq<Level>
    var baseLevel: Level
    var runs: seq<Run>

    constructor ()
      ensures levels == []
    {
      origCharTypes := [];
      charTypes := [];
      levels := [];
      baseLevel := 0;
      runs := [];
    }

    /** X6a's loop: pop everything above the topmost isolate entry, then that
        entry. False where the source indexes below the stack. */
    static method PopIsolate(stack: LevelStack) returns (ok: bool)
      requires stack.Valid()
      modifies stack`depth, stack`Contents
      ensures stack.Valid() && stack.Repr() == old(stack.Repr())
      ensures var down := DownToIsolate(old(stack.Contents));
        && (ok <==> down.Some? && |down.value| > 1)
        && (ok ==> stack.Contents == down.value[..|down.value| - 1])
    {
      while stack.depth > 0 && !stack.IsolateStatus()
        invariant stack.Valid() && stack.Repr() == old(stack.Repr())
        invariant DownToIsolate(stack.Contents) == DownToIsolate(old(stack.Contents))
        decreases stack.depth
      {
        stack.Pop();
      }
      if stack.depth == 0 {
        return false;
      }
      stack.Pop();
      ok := stack.depth > 0;
    }

    /** The character takes the level and the override of the top of the stack. */
    method TakeTop(idx: nat, stack: LevelStack)
      requires idx < |charTypes| == |levels|
      requires stack.Valid() && stack.Contents != []
      modifies this`charTypes, this`levels
      ensures var top := stack.Contents[|stack.Contents| - 1];
        && levels == old(levels)[idx := top.level]
        && charTypes == old(charTypes)[idx := top.overriding.Apply(old(charTypes)[idx])]
    {
      levels := levels[idx := stack.EmbeddingLevel()];
      charTypes := charTypes[idx := stack.OverrideStatus().Apply(charTypes[idx])];
    }

    /** X2-X5 */
    static method OpenEmbedding(stack: LevelStack, bc: BidiClass, rtlIsolate: bool, overflowIsolate: nat, oe: nat, vi: nat)
      returns (overflowEmbedding: nat)
      requires stack.Valid() && stack.Contents != [] && stack.EmbeddingLevel() >= 0
      modifies stack.Repr()
      ensures stack.Valid() && stack.Repr() == old(stack.Repr()) && stack.Contents != []
      ensures XState(stack.Contents, overflowIsolate, overflowEmbedding, vi)
        == Embed(XState(old(stack.Contents), overflowIsolate, oe, vi),
                 Requested(bc, rtlIsolate, old(stack.EmbeddingLevel())), OverrideOf(bc), SOURCE_CAPACITY)
    {
      overflowEmbedding := oe;
      var level := Requested(bc, rtlIsolate, stack.EmbeddingLevel());
      if level.Some? && overflowIsolate == 0 && overflowEmbedding == 0 {
        stack.Push(level.value, OverrideOf(bc), false);
      } else if overflowIsolate == 0 {
        overflowEmbedding := overflowEmbedding + 1;
      }
    }

    /** X5a-X5c */
    static method OpenIsolate(stack: LevelStack, bc: BidiClass, rtlIsolate: bool, oi: nat, overflowEmbedding: nat, vi: nat)
      returns (overflowIsolate: nat, validIsolate: nat)
      requires stack.Valid() && stack.Contents != [] && stack.EmbeddingLevel() >= 0
      modifies stack.Repr()
      ensures stack.Valid() && stack.Repr() == old(stack.Repr()) && stack.Contents != []
      ensures XState(stack.Contents, overflowIsolate, overflowEmbedding, validIsolate)
        == Isolate(XState(old(stack.Contents), oi, overflowEmbedding, vi),
                   Requested(bc, rtlIsolate, old(stack.EmbeddingLevel())), SOURCE_CAPACITY)
    {
      overflowIsolate, validIsolate := oi, vi;
      var level := Requested(bc, rtlIsolate, stack.EmbeddingLevel());
      if level.Some? && overflowIsolate == 0 && overflowEmbedding == 0 {
        validIsolate := validIsolate + 1;
        stack.Push(level.value, Neutral, true);
      } else {
        overflowIsolate := overflowIsolate + 1;
      }
    }

    /** X6a */
    static method EndIsolate(stack: LevelStack, oi: nat, oe: nat, vi: nat)
      returns (overflowIsolate: nat, overflowEmbedding: nat, validIsolate: nat, ok: bool)
      requires stack.Valid() && stack.Contents != []
      modifies stack.Repr()
      ensures stack.Valid() && stack.Repr() == old(stack.Repr())
      ensures ok <==> CloseIsolate(XState(old(stack.Contents), oi, oe, vi)).Some?
      ensures ok ==> stack.Contents != []
      ensures ok ==>
        XState(stack.Contents, overflowIsolate, overflowEmbedding, validIsolate)
        == CloseIsolate(XState(old(stack.Contents), oi, oe, vi)).value
    {
      overflowIsolate, overflowEmbedding, validIsolate, ok := oi, oe, vi, true;
      if overflowIsolate > 0 {
        overflowIsolate := overflowIsolate - 1;
      } else if validIsolate != 0 {
        overflowEmbedding := 0;
        ok := PopIsolate(stack);
        validIsolate := validIsolate - 1;
      }
    }

    /** X7 */
    static method EndEmbedding(stack: LevelStack, overflowIsolate: nat, oe: nat, vi: nat) returns (overflowEmbedding: nat)
      requires stack.Valid() && stack.Contents != []
      modifies stack.Repr()
      ensures stack.Valid() && stack.Repr() == old(stack.Repr()) && stack.Contents != []
      ensures XState(stack.Contents, overflowIsolate, overflowEmbedding, vi)
        == CloseEmbedding(XState(old(stack.Contents), overflowIsolate, oe, vi))
    {
      overflowEmbedding := oe;
      if overflowIsolate == 0 {
        if overflowEmbedding > 0 {
          overflowEmbedding := overflowEmbedding - 1;
        } else if !stack.IsolateStatus() && stack.depth >= 2 {
          stack.Pop();
        }
      }
    }

    /** X5a-X5c for the character `idx`. */
    method EmbedIsolate(idx: nat, stack: LevelStack, oi: nat, oe: nat, vi: nat) returns (overflowIsolate: nat, validIsolate: nat)
      requires idx < |charTypes| == |levels| && charTypes[idx].IsIsoInit()
      requires stack.Valid() && stack.Contents != [] && stack.EmbeddingLevel() >= 0
      modifies this`charTypes, this`levels, stack.Repr()
      ensures stack.Valid() && stack.Repr() == old(stack.Repr()) && stack.Contents != []
      ensures XState(stack.Contents, overflowIsolate, oe, validIsolate)
        == Isolate(XState(old(stack.Contents), oi, oe, vi),
                   Requested(old(charTypes)[idx], FsiIsRtl(old(charTypes), idx), old(stack.EmbeddingLevel())), SOURCE_CAPACITY)
      ensures var top := old(stack.Contents)[|old(stack.Contents)| - 1];
        && levels == old(levels)[idx := top.level]
        && charTypes == old(charTypes)[idx := top.overriding.Apply(old(charTypes)[idx])]
    {
      hide FsiIsRtl, Isolate, Requested;
      var bc := charTypes[idx];
      var rtlIsolate := IsolateDirection(idx);
      SameRequest(bc, rtlIsolate, FsiIsRtl(charTypes, idx), stack.EmbeddingLevel());
      TakeTop(idx, stack);
      overflowIsolate, validIsolate := OpenIsolate(stack, bc, rtlIsolate, oi, oe, vi);
    }

    /** X2-X8 for one character. False where the source panics. */
    method EmbedCharacter(idx: nat, stack: LevelStack, oi: nat, oe: nat, vi: nat)
      returns (overflowIsolate: nat, overflowEmbedding: nat, validIsolate: nat, ok: bool)
      requires idx < |charTypes| == |levels|
      requires stack.Valid() && stack.Contents != [] && stack.EmbeddingLevel() >= 0
      modifies this`charTypes, this`levels, stack.Repr()
      ensures stack.Valid() && stack.Repr() == old(stack.Repr())
      ensures var st, bc := XState(old(stack.Contents), oi, oe, vi), old(charTypes)[idx];
        ok <==> Step(st, bc, FsiIsRtl(old(charTypes), idx), SOURCE_CAPACITY).Some?
      ensures ok ==>
        var st, bc := XState(old(stack.Contents), oi, oe, vi), old(charTypes)[idx];
        var next := XState(stack.Contents, overflowIsolate, overflowEmbedding, validIsolate);
        && Step(st, bc, FsiIsRtl(old(charTypes), idx), SOURCE_CAPACITY) == Some(next)
        && next.stack != []
        && charTypes == old(charTypes)[idx := ClassBetween(st, next, bc)]
        && levels == old(levels)[idx := if bc.IsFormat() then old(levels)[idx] else LevelBetween(st, next, bc, baseLevel)]
      ensures ok ==>
        var st := XState(old(stack.Contents), oi, oe, vi);
        var next := XState(stack.Contents, overflowIsolate, overflowEmbedding, validIsolate);
        && StepsByRules(old(charTypes), idx, st, 125, next)
        && Given(old(charTypes)[idx], baseLevel, st, next,
                 if old(charTypes)[idx].IsFormat() then -1 else levels[idx], charTypes[idx])
    {
      hide FsiIsRtl, Embed, Isolate, CloseIsolate, CloseEmbedding, Requested, StepsByRules, Given;
      var bc := charTypes[idx];
      ghost var types, before := charTypes, XState(stack.Contents, oi, oe, vi);
      overflowIsolate, overflowEmbedding, validIsolate, ok := oi, oe, vi, true;
      if IsEmbedding(bc) { // X2-X5
        ghost var rtl := FsiIsRtl(charTypes, idx);
        SameRequest(bc, false, rtl, stack.EmbeddingLevel());
        overflowEmbedding := OpenEmbedding(stack, bc, false, oi, oe, vi);
      } else if bc.IsIsoInit() { // X5a-X5c
        overflowIsolate, validIsolate := EmbedIsolate(idx, stack, oi, oe, vi);
      } else if bc == PopDirectionalIsolate { // X6a
        overflowIsolate, overflowEmbedding, validIsolate, ok := EndIsolate(stack, oi, oe, vi);
        if ok {
          TakeTop(idx, stack);
        }
      } else if bc == PopDirectionalFormat { // X7
        overflowEmbedding := EndEmbedding(stack, oi, oe, vi);
      } else if bc == ParagraphSeparator { // X8
        levels := levels[idx := baseLevel];
      } else if bc != BoundaryNeutral { // X6
        TakeTop(idx, stack);
      }
      if ok { FollowsRules(types, idx, before, XState(stack.Contents, overflowIsolate, overflowEmbedding, validIsolate)); }
    }

    /** What the machine does and gives is what the rules say. */
    lemma FollowsRules(types: seq<BidiClass>, idx: nat, st: XState, next: XState)
      requires idx < |types| && st.stack != [] && Top(st).level >= 0 && next.stack != []
      requires Step(st, types[idx], FsiIsRtl(types, idx), SOURCE_CAPACITY) == Some(next)
      ensures StepsByRules(types, idx, st, 125, next)
      ensures var bc := types[idx];
        Given(bc, baseLevel, st, next, LevelBetween(st, next, bc, baseLevel), ClassBetween(st, next, bc))
    {
      hide StepsByRules, Given, Step, FsiIsRtl;
      StepMeans(types, idx, st, SOURCE_CAPACITY, next);
      var bc := types[idx];
      GivenMeans(bc, baseLevel, st, next, LevelBetween(st, next, bc, baseLevel), ClassBetween(st, next, bc));
    }

    /** Only an FSI asks which way the text that follows runs. */
    static lemma SameRequest(bc: BidiClass, a: bool, b: bool, level: Level)
      requires level >= 0 && (bc == FirstStrongIsolate ==> a == b)
      ensures Requested(bc, a, level) == Requested(bc, b, level)
    {
    }

    /** X5c: an FSI looks ahead; the other initiators name their direction. */
    method IsolateDirection(idx: nat) returns (rtlIsolate: bool)
      requires idx < |charTypes|
      ensures charTypes[idx] == FirstStrongIsolate ==> rtlIsolate == FsiIsRtl(charTypes, idx)
      ensures rtlIsolate <==> charTypes[idx] == FirstStrongIsolate && RightInside(charTypes, idx + 1)
    {
      FsiMeans(charTypes, idx);
      rtlIsolate := false;
      if charTypes[idx] == FirstStrongIsolate {
        var level := ParagraphLevel(charTypes[idx + 1..], true, Ltr);
        rtlIsolate := level == 1;
      }
    }

    /** One character of the run of the state machine. */
    method EmbedNext(ghost types: seq<BidiClass>, idx: nat, stack: LevelStack, oi: nat, oe: nat, vi: nat)
      returns (overflowIsolate: nat, overflowEmbedding: nat, validIsolate: nat, ok: bool)
      requires Embedded(types, baseLevel, idx, charTypes, levels) && idx < |types|
      requires stack.Valid()
      requires RunTo(types, baseLevel, SOURCE_CAPACITY, idx) == Some(XState(stack.Contents, oi, oe, vi))
      modifies this`charTypes, this`levels, stack.Repr()
      ensures stack.Valid() && stack.Repr() == old(stack.Repr())
      ensures ok ==>
        RunTo(types, baseLevel, SOURCE_CAPACITY, idx + 1)
        == Some(XState(stack.Contents, overflowIsolate, overflowEmbedding, validIsolate))
      ensures ok ==> Embedded(types, baseLevel, idx + 1, charTypes, levels)
      ensures !ok ==> RunTo(types, baseLevel, SOURCE_CAPACITY, idx + 1).None?
    {
      hide Step, ClassBetween, LevelBetween, EmbeddedAt, RunTo, Stacked, CountIsolates, FsiIsRtl;
      SoundTop(XState(stack.Contents, oi, oe, vi), baseLevel);
      RunNext(types, baseLevel, SOURCE_CAPACITY, idx);
      SameDirection(charTypes, types, idx);
      ghost var classes, levelsBefore := charTypes, levels;
      overflowIsolate, overflowEmbedding, validIsolate, ok := EmbedCharacter(idx, stack, oi, oe, vi);
      if ok {
        EmbeddedNext(types, baseLevel, idx, classes, levelsBefore, charTypes[idx], levels[idx]);
        assert charTypes == classes[idx := charTypes[idx]] && levels == levelsBefore[idx := levels[idx]];
      }
    }

    /** X1-X8. False where the source panics: its pop loop ran off the stack. */
    method ExplicitEmbeddingLevels() returns (ok: bool)
      requires 0 <= baseLevel <= 1
      modifies this`charTypes, this`levels
      ensures ok <==> RunTo(old(charTypes), baseLevel, SOURCE_CAPACITY, |old(charTypes)|).Some?
      ensures ok <==> !Panics(old(charTypes), baseLevel)
      ensures ok ==> Embedded(old(charTypes), baseLevel, |old(charTypes)|, charTypes, levels)
    {
      hide Embedded, RunTo, Sound, Strands;
      PanicsExactly(charTypes, baseLevel, SOURCE_CAPACITY, |charTypes|);
      var stack := new LevelStack();
      stack.Push(baseLevel, Neutral, false);
      assert stack.Contents == [Status(baseLevel, Neutral, false)];
      RunStart(charTypes, baseLevel, SOURCE_CAPACITY);
      var len := |charTypes|;
      levels := if |levels| >= len then levels[..len] else levels + seq(len - |levels|, _ => 0);
      ghost var types := charTypes;
      var overflowIsolate, overflowEmbedding, validIsolate := 0, 0, 0;
      for idx := 0 to len
        invariant fresh(stack.Repr()) && stack.Valid()
        invariant len == |types|
        invariant RunTo(types, baseLevel, SOURCE_CAPACITY, idx)
                  == Some(XState(stack.Contents, overflowIsolate, overflowEmbedding, validIsolate))
        invariant Embedded(types, baseLevel, idx, charTypes, levels)
      {
        overflowIsolate, overflowEmbedding, validIsolate, ok :=
          EmbedNext(types, idx, stack, overflowIsolate, overflowEmbedding, validIsolate);
        if !ok {
          Panicked(types, baseLevel, SOURCE_CAPACITY, idx + 1);
          return;
        }
      }
      ok := true;
    }

    /** X9 */
    method DeleteFormatCharacters(ghost types: seq<BidiClass>)
      requires Embedded(types, baseLevel, |types|, charTypes, levels)
      modifies this`levels
      ensures Explained(types, baseLevel, charTypes, levels)
    {
      hide RunTo, ClassAt, LevelAt;
      ghost var before := levels;
      for i := 0 to |charTypes|
        invariant |levels| == |charTypes|
        invariant forall k :: i <= k < |levels| ==> levels[k] == before[k]
        invariant forall k :: 0 <= k < i ==> ExplainedAt(types, baseLevel, k, charTypes[k], levels[k])
      {
        assert EmbeddedAt(types, baseLevel, i, charTypes[i], levels[i]);
        if charTypes[i].IsFormat() {
          levels := levels[i := NO_LEVEL];
        }
      }
    }

    /** X10: the level runs. */
    method IdentifyRuns()
      requires |charTypes| == |levels|
      modifies this`runs
      ensures Tiling(charTypes, levels, runs) && TailRemoved(levels, runs)
      ensures forall r :: 0 <= r < |runs| ==> runs[r].seqId == 0 && Directed(runs[r])
      ensures RunsEnded(runs, baseLevel)
    {
      hide IsSpan, Tiling, TailRemoved, RunsEnded;
      var idx := 0;
      runs := [];
      NoRunsYet(charTypes, levels);
      while idx < |charTypes|
        invariant idx <= |charTypes|
        invariant Tiling(charTypes, levels, runs)
        invariant RunsEnd(runs) <= idx
        invariant RunsEnd(runs) == idx || TailRemoved(levels, runs)
        invariant RunsEnd(runs) < idx ==> idx == |charTypes|
        invariant forall r :: 0 <= r < |runs| ==> runs[r].seqId == 0
      {
        var spanLevel, spanLen := SpanOneRun(charTypes, levels, idx);
        SpanEnds(charTypes, levels, runs, idx, idx + spanLen, spanLevel);
        if spanLevel != NO_LEVEL {
          var run := Run(idx, idx + spanLen, spanLen, 0, spanLevel, OtherNeutral, OtherNeutral);
          TilingAppend(charTypes, levels, runs, run);
          runs := runs + [run];
        }
        idx := idx + spanLen;
      }
      NothingLeft(levels, runs);
      CalculateSorEor();
    }

    /** The directions at the two ends of every run. */
    method CalculateSorEor()
      requires Tiling(charTypes, levels, runs) && TailRemoved(levels, runs)
      requires forall r :: 0 <= r < |runs| ==> runs[r].seqId == 0
      modifies this`runs
      ensures Tiling(charTypes, levels, runs) && TailRemoved(levels, runs)
      ensures forall r :: 0 <= r < |runs| ==> runs[r].seqId == 0 && Directed(runs[r])
      ensures |runs| == |old(runs)|
      ensures forall r :: 0 <= r < |runs| ==> runs[r] == WithEnds(old(runs), baseLevel, r)
      ensures RunsEnded(runs, baseLevel)
      ensures forall r :: 0 <= r < |runs| ==> EndsByLevels(old(runs), baseLevel, r, runs[r])
    {
      hide IsSpan, Tiling, TailRemoved, ClassOf, EndsByLevels;
      var priorRunLevel := baseLevel;
      ghost var before := runs;
      for r := 0 to |runs|
        invariant |runs| == |before|
        invariant priorRunLevel == if r == 0 then baseLevel else before[r - 1].level
        invariant forall q :: r <= q < |runs| ==> runs[q] == before[q]
        invariant forall q :: 0 <= q < r ==> runs[q] == WithEnds(before, baseLevel, q)
      {
        var run := runs[r];
        var nextRunLevel := if r + 1 < |runs| then runs[r + 1].level else baseLevel;
        runs := runs[r := run.(sor := ClassOf(Max(priorRunLevel, run.level)), eor := ClassOf(Max(nextRunLevel, run.level)))];
        priorRunLevel := run.level;
      }
      SpansTile(charTypes, levels, before, runs);
      forall r | 0 <= r < |runs| ensures EndsByLevels(before, baseLevel, r, runs[r]) {
        WithEndsMeans(before, baseLevel, r);
      }
    }

    /** BD13: gather the runs into isolating run sequences. */
    method IdentifyIsolatingRunSequences() returns (isoRuns: seq<IsoRun>)
      requires Tiling(charTypes, levels, runs) && TailRemoved(levels, runs)
      requires forall r :: 0 <= r < |runs| ==> runs[r].seqId == 0 && Directed(runs[r])
      modifies this`runs
      ensures SameRuns(old(runs), runs)
      ensures Tiling(charTypes, levels, runs) && TailRemoved(levels, runs)
      ensures Partition(charTypes, levels, runs, isoRuns)
      ensures Greedy(charTypes, levels, runs, isoRuns)
      ensures SequencesEnded(charTypes, baseLevel, runs, isoRuns)
      ensures Finished(runs, isoRuns)
    {
      hide IsSpan, Tiling, Greedy, Partition, Ended;
      var gathered := GatherRuns();
      isoRuns := CalculateSosEos(gathered);
      ghost var ended := isoRuns;
      isoRuns := BuildTextChains(isoRuns);
      EndedKept(charTypes, baseLevel, runs, ended, isoRuns);
      GreedyKept(charTypes, levels, runs, gathered, isoRuns);
    }

    /** The loop over the runs: each one that is still free starts a sequence. */
    method GatherRuns() returns (isoRuns: seq<IsoRun>)
      requires Tiling(charTypes, levels, runs) && TailRemoved(levels, runs)
      requires forall r :: 0 <= r < |runs| ==> runs[r].seqId == 0 && Directed(runs[r])
      modifies this`runs
      ensures SameRuns(old(runs), runs)
      ensures Tiling(charTypes, levels, runs) && TailRemoved(levels, runs)
      ensures forall r :: 0 <= r < |runs| ==> Directed(runs[r])
      ensures Partition(charTypes, levels, runs, isoRuns)
      ensures Greedy(charTypes, levels, runs, isoRuns)
    {
      hide Tiling, TailRemoved, Greedy, InRange, Sequenced, Partition;
      ghost var before := runs;
      TilingInRange(charTypes, levels, runs);
      isoRuns := [];
      GreedyStart(charTypes, levels, runs);
      SequencedStart(charTypes, levels, runs);
      var numRuns := |runs|;
      for runIdx := 0 to numRuns
        invariant SameRuns(before, runs) && numRuns == |before|
        invariant InRange(charTypes, levels, runs)
        invariant Sequenced(charTypes, levels, runs, isoRuns)
        invariant forall r :: 0 <= r < runIdx ==> runs[r].seqId != 0
        invariant Greedy(charTypes, levels, runs, isoRuns)
        invariant forall s :: 0 <= s < |isoRuns| ==> isoRuns[s].runs != [] && isoRuns[s].runs[0] < runIdx
      {
        if runs[runIdx].seqId == 0 {
          isoRuns := GatherOne(isoRuns, runIdx);
        }
      }
      SequencedEnd(charTypes, levels, runs, isoRuns);
      SameSpansTile(charTypes, levels, before, runs);
    }

    /** A new sequence from a free run on. */
    method GatherOne(seqs: seq<IsoRun>, runIdx: nat) returns (isoRuns: seq<IsoRun>)
      requires InRange(charTypes, levels, runs) && Sequenced(charTypes, levels, runs, seqs)
      requires Greedy(charTypes, levels, runs, seqs)
      requires runIdx < |runs| && runs[runIdx].seqId == 0
      requires forall s :: 0 <= s < |seqs| ==> seqs[s].runs != [] && seqs[s].runs[0] < runIdx
      modifies this`runs
      ensures KeepsIds(old(runs), runs) && runs[runIdx].seqId != 0
      ensures InRange(charTypes, levels, runs) && Sequenced(charTypes, levels, runs, isoRuns)
      ensures Greedy(charTypes, levels, runs, isoRuns)
      ensures forall s :: 0 <= s < |isoRuns| ==> isoRuns[s].runs != [] && isoRuns[s].runs[0] <= runIdx
    {
      hide SkipsTaken, FirstsIncrease, Greedy, Sequenced;
      isoRuns := StartSequence(seqs, runIdx);
      if charTypes[runs[runIdx].end - 1].IsIsoInit() {
        isoRuns := ExtendSequence(isoRuns, runIdx);
      } else {
        SkipsStart(charTypes, levels, runs, runIdx, |seqs|);
        SkipsRest(charTypes, levels, runs, [runIdx], |seqs|, runIdx + 1);
      }
      assert forall s :: 0 <= s < |seqs| ==> isoRuns[s] == isoRuns[..|seqs|][s];
      GreedyNext(charTypes, levels, old(runs), runs, seqs, isoRuns);
    }

    /** An unassigned run starts a sequence of its own. */
    method StartSequence(seqs: seq<IsoRun>, runIdx: nat) returns (isoRuns: seq<IsoRun>)
      requires InRange(charTypes, levels, runs) && Sequenced(charTypes, levels, runs, seqs)
      requires runIdx < |runs| && runs[runIdx].seqId == 0
      modifies this`runs
      ensures runs == old(runs)[runIdx := old(runs)[runIdx].(seqId := |isoRuns|)]
      ensures InRange(charTypes, levels, runs) && Sequenced(charTypes, levels, runs, isoRuns)
      ensures |isoRuns| == |seqs| + 1 && isoRuns[..|seqs|] == seqs && isoRuns[|seqs|].runs == [runIdx]
    {
      var run := runs[runIdx];
      isoRuns := seqs + [IsoRun([runIdx], run.len, run.level, OtherNeutral, OtherNeutral, [])];
      runs := runs[runIdx := run.(seqId := |isoRuns|)];
      StartedIsSequenced(charTypes, levels, old(runs), seqs, runIdx);
    }

    /** Look ahead for the runs that continue the last sequence. */
    method ExtendSequence(seqs: seq<IsoRun>, runIdx: nat) returns (isoRuns: seq<IsoRun>)
      requires InRange(charTypes, levels, runs) && Sequenced(charTypes, levels, runs, seqs)
      requires seqs != [] && runIdx < |runs| && seqs[|seqs| - 1].runs == [runIdx]
      requires charTypes[runs[runIdx].end - 1].IsIsoInit()
      modifies this`runs
      ensures KeepsIds(old(runs), runs)
      ensures InRange(charTypes, levels, runs) && Sequenced(charTypes, levels, runs, isoRuns)
      ensures |isoRuns| == |seqs| && isoRuns[..|seqs| - 1] == seqs[..|seqs| - 1]
      ensures var s := isoRuns[|seqs| - 1].runs;
        s != [] && s[0] == runIdx && SkipsTaken(charTypes, levels, runs, s, |seqs| - 1, |runs|)
    {
      hide Sequenced, FirstSignificant, SkipsTaken;
      ghost var before := runs;
      isoRuns := seqs;
      var saveLevel := runs[runIdx].level;
      var last := |isoRuns| - 1;
      SequenceLevel(charTypes, levels, runs, isoRuns, last);
      ghost var end := runIdx;
      var numRuns := |runs|;
      SkipsStart(charTypes, levels, runs, runIdx, last);
      for idx := runIdx + 1 to numRuns
        invariant KeepsIds(before, runs) && numRuns == |before|
        invariant InRange(charTypes, levels, runs) && Sequenced(charTypes, levels, runs, isoRuns)
        invariant |isoRuns| == |seqs| == last + 1 && isoRuns[..last] == seqs[..last]
        invariant isoRuns[last].runs != [] && isoRuns[last].runs[0] == runIdx
        invariant SkipsTaken(charTypes, levels, runs, isoRuns[last].runs, last, idx)
        invariant isoRuns[last].level == saveLevel
        invariant isoRuns[last].runs != [] && end == isoRuns[last].runs[|isoRuns[last].runs| - 1] < idx
        invariant charTypes[runs[end].end - 1].IsIsoInit() && runs[end].level == saveLevel
      {
        var run := runs[idx];
        var bc := FirstSignificantBidiClass(run, charTypes, levels);
        if run.seqId == 0 && run.level == saveLevel && bc == Some(PopDirectionalIsolate) {
          ExtendedIsSequenced(charTypes, levels, runs, isoRuns, idx);
          ghost var members, runsBefore := isoRuns[last].runs, runs;
          isoRuns := isoRuns[last := isoRuns[last].(runs := isoRuns[last].runs + [idx], len := isoRuns[last].len + run.len)];
          runs := runs[idx := run.(seqId := last + 1)];
          end := idx;
          SkipsTake(charTypes, levels, runsBefore, members, last, idx);
          SkipsKept(charTypes, levels, runsBefore, runs, members + [idx], last, idx + 1);
          if !charTypes[run.end - 1].IsIsoInit() {
            SkipsRest(charTypes, levels, runs, isoRuns[last].runs, last, idx + 1);
            break;
          }
        } else {
          if run.seqId != 0 { TakenEarlier(charTypes, levels, runs, isoRuns, idx); }
          SkipsOne(charTypes, levels, runs, isoRuns[last].runs, last, idx);
        }
      }
    }

    /** The directions at the two ends of every sequence. */
    method CalculateSosEos(seqs: seq<IsoRun>) returns (isoRuns: seq<IsoRun>)
      requires Partition(charTypes, levels, runs, seqs)
      requires forall r :: 0 <= r < |runs| ==> Directed(runs[r])
      ensures Partition(charTypes, levels, runs, isoRuns)
      ensures |isoRuns| == |seqs|
      ensures forall s :: 0 <= s < |seqs| ==>
        && isoRuns[s] == seqs[s].(sos := isoRuns[s].sos, eos := isoRuns[s].eos)
        && isoRuns[s].sos in {LeftToRight, RightToLeft}
        && isoRuns[s].eos in {LeftToRight, RightToLeft}
      ensures SequencesEnded(charTypes, baseLevel, runs, isoRuns)
      ensures forall s :: 0 <= s < |seqs| ==> EndsFromRuns(isoRuns[s])
    {
      hide Ended, Directed, Partition, EndsFromRuns;
      isoRuns := seqs;
      for s := 0 to |seqs|
        invariant |isoRuns| == |seqs|
        invariant forall t :: s <= t < |seqs| ==> isoRuns[t] == seqs[t]
        invariant forall t :: 0 <= t < s ==>
          && isoRuns[t] == seqs[t].(sos := isoRuns[t].sos, eos := isoRuns[t].eos)
          && isoRuns[t].sos in {LeftToRight, RightToLeft}
          && isoRuns[t].eos in {LeftToRight, RightToLeft}
          && Ended(charTypes, baseLevel, runs, isoRuns[t]) && EndsFromRuns(isoRuns[t])
      {
        PartitionMembers(charTypes, levels, runs, seqs, s);
        var isoRun := WithSosEos(seqs[s]);
        isoRuns := isoRuns[s := isoRun];
      }
      SameMembers(charTypes, levels, runs, seqs, isoRuns);
    }

    /** A sequence takes the ends of its first and last run, or at an open initiator the higher
        of its own level and the base level. */
    ghost predicate EndsFromRuns(s: IsoRun)
      reads this
    {
      && s.runs != [] && s.runs[0] < |runs| && s.runs[|s.runs| - 1] < |runs|
      && s.sos == runs[s.runs[0]].sor
      && var last := runs[s.runs[|s.runs| - 1]];
         && 0 < last.end <= |charTypes|
         && s.eos == if charTypes[last.end - 1] in {LeftToRightIsolate, RightToLeftIsolate, FirstStrongIsolate}
                     then (if OddHigher(baseLevel, s.level) then RightToLeft else LeftToRight)
                     else last.eor
    }

    method WithSosEos(given: IsoRun) returns (isoRun: IsoRun)
      requires InRange(charTypes, levels, runs) && IsSequence(charTypes, levels, runs, given)
      requires forall r :: 0 <= r < |runs| ==> Directed(runs[r])
      ensures isoRun == given.(sos := isoRun.sos, eos := isoRun.eos)
      ensures isoRun.sos in {LeftToRight, RightToLeft} && isoRun.eos in {LeftToRight, RightToLeft}
      ensures Ended(charTypes, baseLevel, runs, isoRun) && EndsFromRuns(isoRun)
    {
      hide Links;
      HigherDecides(baseLevel, given.level);
      var firstRun, lastRun := runs[given.runs[0]], runs[given.runs[|given.runs| - 1]];
      assert Directed(firstRun) && Directed(lastRun);
      var eos := lastRun.eor;
      if charTypes[lastRun.end - 1].IsIsoInit() {
        eos := ClassOf(Max(baseLevel, given.level));
      }
      isoRun := given.(sos := firstRun.sor, eos := eos);
    }

    /** The positions of some runs, in one list. */
    method BuildTextChain(members: seq<nat>) returns (indices: seq<nat>)
      requires Members(runs, members)
      ensures indices == TextChain(runs, members)
    {
      indices := [];
      for k := 0 to |members|
        invariant indices == TextChain(runs, members[..k])
      {
        var run := runs[members[k]];
        assert members[..k + 1][..k] == members[..k];
        indices := indices + Positions(run.start, run.end);
      }
      assert members[..|members|] == members;
    }

    /** The positions of every sequence. */
    method BuildTextChains(seqs: seq<IsoRun>) returns (isoRuns: seq<IsoRun>)
      requires Partition(charTypes, levels, runs, seqs)
      requires forall s :: 0 <= s < |seqs| ==>
        seqs[s].sos in {LeftToRight, RightToLeft} && seqs[s].eos in {LeftToRight, RightToLeft}
      ensures Partition(charTypes, levels, runs, isoRuns)
      ensures Finished(runs, isoRuns)
      ensures |isoRuns| == |seqs|
      ensures forall s :: 0 <= s < |seqs| ==> isoRuns[s] == seqs[s].(indices := isoRuns[s].indices)
    {
      hide Partition, TextChain, Members;
      isoRuns := seqs;
      for s := 0 to |seqs|
        invariant |isoRuns| == |seqs|
        invariant forall t :: s <= t < |seqs| ==> isoRuns[t] == seqs[t]
        invariant forall t :: 0 <= t < s ==>
          Members(runs, seqs[t].runs) && isoRuns[t] == seqs[t].(indices := TextChain(runs, seqs[t].runs))
      {
        PartitionMembers(charTypes, levels, runs, seqs, s);
        var indices := BuildTextChain(seqs[s].runs);
        isoRuns := isoRuns[s := seqs[s].(indices := indices)];
      }
      SameMembers(charTypes, levels, runs, seqs, isoRuns);
    }

    /** I1 and I2 */
    method ResolveImplicitLevels()
      requires |charTypes| == |levels|
      modifies this`levels
      ensures Levelled(old(levels), charTypes, levels)
      ensures forall k :: 0 <= k < |levels| ==>
        && (old(levels)[k] == NO_LEVEL ==> levels[k] == NO_LEVEL)
        && (old(levels)[k] >= 0 ==> Implied(old(levels)[k], charTypes[k], levels[k]))
        && (old(levels)[k] >= 0 && charTypes[k] !in {LeftToRight, RightToLeft, EuropeanNumber, ArabicNumber} ==>
              levels[k] == old(levels)[k])
    {
      ghost var before := levels;
      for idx := 0 to |levels|
        invariant |levels| == |before|
        invariant forall k :: idx <= k < |levels| ==> levels[k] == before[k]
        invariant forall k :: 0 <= k < idx ==>
          levels[k] == if before[k] == NO_LEVEL then NO_LEVEL else ImplicitLevel(before[k], charTypes[k])
      {
        var level, bc := levels[idx], charTypes[idx];
        if level == NO_LEVEL {
          continue;
        }
        match DirectionOf(level)
        case Ltr => // I1
          if bc == RightToLeft {
            levels := levels[idx := level + 1];
          } else if bc == ArabicNumber || bc == EuropeanNumber {
            levels := levels[idx := level + 2];
          }
        case Rtl => // I2
          if bc == LeftToRight || bc == ArabicNumber || bc == EuropeanNumber {
            levels := levels[idx := level + 1];
          }
      }
      forall k | 0 <= k < |levels| && before[k] >= 0 ensures Implied(before[k], charTypes[k], levels[k]) {
        ImplicitMeans(before[k], charTypes[k]);
      }
    }

    /** The base level a hint asks for. */
    method BaseLevelFor(hint: Hint) returns (level: Level)
      ensures level == HintedLevel(hint, charTypes)
      ensures level == match hint {
        case LeftToRightHint => 0
        case RightToLeftHint => 1
        case AutoLeftToRight => if StartsRight(charTypes, Ltr) then 1 else 0
        case AutoRightToLeft => if StartsRight(charTypes, Rtl) then 1 else 0
      }
    {
      match hint
      case LeftToRightHint => level := 0;
      case RightToLeftHint => level := 1;
      case AutoLeftToRight => level := ParagraphLevel(charTypes, false, Ltr);
      case AutoRightToLeft => level := ParagraphLevel(charTypes, false, Rtl);
    }

    /** `resolve`: all the rules, from X1 to I2. False where the source panics. */
    method Resolve(hint: Hint, paragraph: seq<char>, lookup: BracketTable) returns (ok: bool, ghost st: Stages)
      requires paragraph != [] ==> |paragraph| == |origCharTypes|
      modifies this`charTypes, this`levels, this`baseLevel, this`runs
      ensures baseLevel == HintedLevel(hint, origCharTypes)
      ensures ok <==> !Panics(origCharTypes, baseLevel)
      ensures ok ==> Resolved(origCharTypes, baseLevel, paragraph, lookup, st, charTypes, levels)
      ensures ok ==> Ready()
    {
      hide RunTo, Panics, Explained, Embedded, Inert, Tiling, TailRemoved, Partition, Finished, Chains, AllWeakened, AllNeutralized,
        LiveClasses, N0, OnlySides, Levelled, ParagraphLevelOf, BoundedRuns, RunsEnded, Greedy, SequencesEnded;
      st := Stages([], [], [], [], [], []);
      charTypes := origCharTypes;
      baseLevel := BaseLevelFor(hint);
      ok := ExplicitEmbeddingLevels();
      if !ok {
        return;
      }
      DeleteFormatCharacters(origCharTypes);
      ExplainedInert(origCharTypes, baseLevel, charTypes, levels);
      ExplainedLengths(origCharTypes, baseLevel, charTypes, levels);
      ghost var classes0 := charTypes;
      IdentifyRuns();
      ghost var spans := runs;
      var isoRuns := IdentifyIsolatingRunSequences();
      RunsEndedKept(spans, runs, baseLevel);
      SequencesAreChains(charTypes, levels, runs, isoRuns);
      ChainsBounded(levels, isoRuns);
      charTypes := RunWeak(charTypes, levels, isoRuns);
      ghost var weak := charTypes;
      if paragraph != [] {
        ChainsOne(levels, isoRuns);
        charTypes := ResolvePairedBrackets(charTypes, origCharTypes, levels, isoRuns, paragraph, lookup);
        OnlySidesInert(weak, charTypes, levels);
        OnlySidesLength(weak, charTypes, levels);
        OnlySidesClasses(weak, charTypes, levels);
      }
      ghost var paired := charTypes;
      charTypes := RunNeutral(charTypes, levels, isoRuns);
      st := Stages(classes0, levels, runs, isoRuns, weak, paired);
      ResolveImplicitLevels();
      LevelledLength(st.explicitLevels, charTypes, levels);
      ResolvedIsReady(origCharTypes, baseLevel, paragraph, lookup, st, charTypes, levels);
    }

    /** The context holds a resolved paragraph. */
    ghost predicate Ready()
      reads this
    {
      Inert(origCharTypes, levels) && LineLevels(levels) && 0 <= baseLevel <= 1
    }

    /** `resolve_paragraph`, with the class table as a function. */
    method ResolveParagraph(paragraph: seq<char>, hint: Hint, classOf: char -> BidiClass, lookup: BracketTable)
      returns (ok: bool, ghost st: Stages)
      modifies this
      ensures |origCharTypes| == |paragraph|
      ensures forall i :: 0 <= i < |paragraph| ==> origCharTypes[i] == classOf(paragraph[i])
      ensures baseLevel == HintedLevel(hint, origCharTypes)
      ensures ok <==> !Panics(origCharTypes, baseLevel)
      ensures ok ==> Resolved(origCharTypes, baseLevel, paragraph, lookup, st, charTypes, levels)
      ensures ok ==> Ready()
    {
      hide Resolved, RunTo, HintedLevel, Panics;
      origCharTypes := seq(|paragraph|, i requires 0 <= i < |paragraph| => classOf(paragraph[i]));
      ok, st := Resolve(hint, paragraph, lookup);
    }

    /** `set_char_types`: classes without a text, and so without brackets. */
    method SetCharTypes(classes: seq<BidiClass>, hint: Hint, lookup: BracketTable) returns (ok: bool, ghost st: Stages)
      modifies this
      ensures origCharTypes == classes
      ensures baseLevel == HintedLevel(hint, classes)
      ensures ok <==> !Panics(classes, baseLevel)
      ensures ok ==> Resolved(classes, baseLevel, [], lookup, st, charTypes, levels)
      ensures ok ==> Ready()
    {
      hide Resolved, RunTo, HintedLevel, Panics;
      origCharTypes := classes;
      ok, st := Resolve(hint, [], lookup);
    }

    /** `reorder_line`: L1 and then L2 on the line from `start` to `end`. */
    method ReorderLine(start: nat, end: nat) returns (line: seq<Level>, reordered: seq<int>)
      requires Ready() && start <= end <= |levels|
      ensures line == AfterL1(origCharTypes, levels, baseLevel, start, end)
      ensures LineLevels(line)
      ensures reordered == Reordered(line, start)
    {
      hide Reordered, AfterL1;
      line := ResetWhitespaceLevels(levels, origCharTypes, baseLevel, start, end);
      LineStaysInRange(start, end);
      reordered := ReverseLevels(start, line);
    }

    lemma LineStaysInRange(start: nat, end: nat)
      requires Ready() && start <= end <= |levels|
      ensures LineLevels(AfterL1(origCharTypes, levels, baseLevel, start, end))
    {
      hide GoesBack;
    }

    /** `runs`: the whole paragraph, without L1. */
    method AllRuns() returns (paragraphRuns: seq<BidiRun>)
      ensures RunsTo(levels, 0, paragraphRuns, |levels|)
    {
      paragraphRuns := CollectRuns(levels, 0);
    }

    /** `line_runs` */
    method LineRuns(start: nat, end: nat) returns (lineRuns: seq<BidiRun>)
      requires Ready() && start <= end <= |levels|
      ensures var line := AfterL1(origCharTypes, levels, baseLevel, start, end);
        RunsTo(line, start, lineRuns, |line|)
    {
      hide AfterL1, RunsTo;
      var line := ResetWhitespaceLevels(levels, origCharTypes, baseLevel, start, end);
      lineRuns := CollectRuns(line, start);
    }

    /** `reordered_runs`. It reads the levels of the line at display indices, which count
        from the start of the paragraph: false where that panics, and right for a line
        that starts the paragraph. */
    method ReorderedRuns(start: nat, end: nat) returns (ok: bool, reorderedRuns: seq<ReorderedRun>)
      requires Ready() && start <= end <= |levels|
      ensures var line := AfterL1(origCharTypes, levels, baseLevel, start, end);
        ok <==> Indexable(line, Reordered(line, start))
      ensures ok ==>
        var line := AfterL1(origCharTypes, levels, baseLevel, start, end);
        var read := Kept(LevelsRead(line, Reordered(line, start)));
        CutInto(Reordered(line, start), read, reorderedRuns, |read|)
      ensures start == 0 ==>
        var line := AfterL1(origCharTypes, levels, baseLevel, start, end);
        ok && Displays(line, Reordered(line, start), reorderedRuns)
    {
      hide Reordered, Displays, AfterL1, Ready, CutInto;
      reorderedRuns := [];
      var line, reordered := ReorderLine(start, end);
      ReorderedInLine(line, start);
      ok := true;
      var reorderedLevels: seq<Level> := [];
      for visIdx := 0 to |reordered|
        invariant |reorderedLevels| == visIdx
        invariant forall q :: 0 <= q < visIdx ==> 0 <= reordered[q] < |line| && reorderedLevels[q] == line[reordered[q]]
      {
        if reordered[visIdx] >= |line| {
          return false, [];
        }
        reorderedLevels := reorderedLevels + [line[reordered[visIdx]]];
      }
      assert reorderedLevels == LevelsRead(line, reordered);
      // `retain` the levels that were not removed
      if start == 0 { KeptAll(reorderedLevels); }
      KeptShorter(reorderedLevels);
      var kept := Kept(reorderedLevels);
      reorderedRuns := SplitRuns(reordered, kept);
      if start == 0 { CutDisplays(line, reordered, kept, reorderedRuns); }
    }
  }
}
