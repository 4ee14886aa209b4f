/** When the pop loop of rule X6a runs off the stack: a full stack has ignored the entry
    of an isolate that was counted all the same. */
module IgnoredPushes {
  import opened Wrappers
  import opened BidiTypes
  import opened LevelStack
  import opened Explicit

  /** The step counts an isolate whose entry a full stack ignores. */
  predicate IgnoresIsolate(st: XState, bc: BidiClass, rtlIsolate: bool, capacity: nat)
    requires st.stack != [] && Top(st).level >= 0
  {
    bc.IsIsoInit() && FullPush(st, bc, rtlIsolate, capacity)
  }

  /** The isolates counted beyond those with an entry. */
  function Uncovered(st: XState): int {
    st.validIsolate - CountIsolates(st.stack)
  }

  lemma PushCounts(stack: seq<Status>, entry: Status, capacity: nat)
    ensures CountIsolates(Push(stack, entry, capacity)) ==
            CountIsolates(stack) + if |stack| < capacity && entry.isolate then 1 else 0
  {
    assert (stack + [entry])[..|stack|] == stack;
  }

  lemma EmbedUncovers(st: XState, level: Option<Level>, overriding: Override, capacity: nat)
    ensures Uncovered(Embed(st, level, overriding, capacity)) == Uncovered(st)
  {
    if level.Some? { PushCounts(st.stack, Status(level.value, overriding, false), capacity); }
    hide CountIsolates;
  }

  lemma IsolateUncovers(st: XState, level: Option<Level>, capacity: nat)
    ensures Uncovered(Isolate(st, level, capacity)) ==
            Uncovered(st) + if level.Some? && NoOverflow(st) && |st.stack| >= capacity then 1 else 0
  {
    if level.Some? { PushCounts(st.stack, Status(level.value, Neutral, true), capacity); }
    hide CountIsolates;
  }

  lemma CloseIsolateUncovers(st: XState)
    ensures CloseIsolate(st).Some? ==> Uncovered(CloseIsolate(st).value) == Uncovered(st)
  {
    DownToIsolateCount(st.stack);
  }

  lemma CloseEmbeddingUncovers(st: XState)
    requires st.stack != []
    ensures Uncovered(CloseEmbedding(st)) == Uncovered(st)
  {
  }

  /** Only an ignored isolate push leaves one more isolate uncovered, and nothing covers
      it again. */
  lemma StepUncovers(st: XState, bc: BidiClass, rtlIsolate: bool, capacity: nat, base: Level)
    requires 0 <= base && Sound(st, base)
    ensures st.stack != [] && Top(st).level >= 0
    ensures var next := Step(st, bc, rtlIsolate, capacity);
      next.Some? ==> Uncovered(next.value) == Uncovered(st) + if IgnoresIsolate(st, bc, rtlIsolate, capacity) then 1 else 0
  {
    hide Sound, Uncovered, Embed, Isolate, CloseIsolate, CloseEmbedding, Requested;
    SoundTop(st, base);
    var level := Requested(bc, rtlIsolate, Top(st).level);
    EmbedUncovers(st, level, OverrideOf(bc), capacity);
    IsolateUncovers(st, level, capacity);
    CloseIsolateUncovers(st);
    CloseEmbeddingUncovers(st);
  }

  /** The step panics exactly for a PDI that no overflowed isolate takes, when isolates
      are counted and no entry is one. */
  lemma StepPanics(st: XState, bc: BidiClass, rtlIsolate: bool, capacity: nat, base: Level)
    requires 0 <= base && Sound(st, base)
    ensures st.stack != [] && Top(st).level >= 0
    ensures Step(st, bc, rtlIsolate, capacity).None? <==>
            bc == PopDirectionalIsolate && st.overflowIsolate == 0 && CountIsolates(st.stack) == 0 && st.validIsolate > 0
  {
    SoundTop(st, base);
    DownToIsolateCount(st.stack);
  }

  /** Some isolate initiator before position `n` was counted without an entry. */
  ghost predicate IgnoredBefore(types: seq<BidiClass>, base: Level, capacity: nat, n: nat)
    requires n <= |types| && 0 <= base <= 1
  {
    exists k :: 0 <= k < n && IgnoredAt(types, base, capacity, k)
  }

  predicate IgnoredAt(types: seq<BidiClass>, base: Level, capacity: nat, k: nat)
    requires k < |types| && 0 <= base <= 1
  {
    var st := RunTo(types, base, capacity, k);
    st.Some? && (SoundTop(st.value, base); IgnoresIsolate(st.value, types[k], FsiIsRtl(types, k), capacity))
  }

  /** Isolates are uncovered exactly after such an initiator. */
  lemma {:induction false} UncoveredAfter(types: seq<BidiClass>, base: Level, capacity: nat, n: nat)
    requires n <= |types| && 0 <= base <= 1
    requires RunTo(types, base, capacity, n).Some?
    ensures Uncovered(RunTo(types, base, capacity, n).value) >= 0
    ensures Uncovered(RunTo(types, base, capacity, n).value) > 0 <==> IgnoredBefore(types, base, capacity, n)
  {
    hide Step, IgnoresIsolate, FsiIsRtl, Sound;
    if n == 0 {
      InitialGood(base);
    } else {
      UncoveredAfter(types, base, capacity, n - 1);
      StepUncovers(RunTo(types, base, capacity, n - 1).value, types[n - 1], FsiIsRtl(types, n - 1), capacity, base);
      if IgnoredBefore(types, base, capacity, n - 1) {
        var k :| 0 <= k < n - 1 && IgnoredAt(types, base, capacity, k);
      }
      if IgnoredAt(types, base, capacity, n - 1) {
        assert IgnoredBefore(types, base, capacity, n);
      }
    }
  }

  /** The PDI at `n` finds no isolate entry, although an isolate is counted. */
  ghost predicate Strands(types: seq<BidiClass>, base: Level, capacity: nat, n: nat)
    requires n < |types| && 0 <= base <= 1
  {
    var st := RunTo(types, base, capacity, n);
    && st.Some?
    && types[n] == PopDirectionalIsolate
    && st.value.overflowIsolate == 0
    && (forall i :: 0 <= i < |st.value.stack| ==> !st.value.stack[i].isolate)
    && IgnoredBefore(types, base, capacity, n)
  }

  lemma {:induction false} NoneCounted(stack: seq<Status>)
    ensures CountIsolates(stack) == 0 <==> forall i :: 0 <= i < |stack| ==> !stack[i].isolate
  {
    if stack != [] { NoneCounted(stack[..|stack| - 1]); }
  }

  /** A run that has come to position `n` panics there exactly if that is a PDI, no
      isolate overflows, the stack has no isolate entry, and an isolate before was
      counted without one. */
  lemma PanicsExactlyAt(types: seq<BidiClass>, base: Level, capacity: nat, n: nat)
    requires n < |types| && 0 <= base <= 1
    requires RunTo(types, base, capacity, n).Some?
    ensures RunTo(types, base, capacity, n + 1).None? <==> Strands(types, base, capacity, n)
  {
    hide Step, FsiIsRtl, IgnoredBefore;
    var st := RunTo(types, base, capacity, n).value;
    UncoveredAfter(types, base, capacity, n);
    NoneCounted(st.stack);
    RunNext(types, base, capacity, n);
    hide RunTo;
    StepPanics(st, types[n], FsiIsRtl(types, n), capacity, base);
  }

  /** A paragraph ends in a panic exactly if it has such a position. */
  lemma {:induction false} PanicsExactly(types: seq<BidiClass>, base: Level, capacity: nat, n: nat)
    requires n <= |types| && 0 <= base <= 1
    ensures RunTo(types, base, capacity, n).None? <==> exists k :: 0 <= k < n && Strands(types, base, capacity, k)
  {
    hide Step, FsiIsRtl, Strands;
    if n > 0 {
      PanicsExactly(types, base, capacity, n - 1);
      if RunTo(types, base, capacity, n - 1).Some? {
        PanicsExactlyAt(types, base, capacity, n - 1);
      }
    }
  }

  /** An ignored push alone is not enough: with the isolate still open nothing panics. */
  lemma OpenIsolateDoesNotPanic()
    ensures !NoFullPush(Overfull(), 0, SOURCE_CAPACITY, MAX_DEPTH)
    ensures RunTo(Overfull(), 0, SOURCE_CAPACITY, MAX_DEPTH).Some?
  {
    hide RunTo, FsiIsRtl;
    var types := Overfull();
    ClimbLadder(MAX_DEPTH - 1);
    assert Requested(RightToLeftIsolate, FsiIsRtl(types, MAX_DEPTH - 1), 124) == Some(125);
    RunNext(types, 0, SOURCE_CAPACITY, MAX_DEPTH - 1);
    assert FullPush(RunTo(types, 0, SOURCE_CAPACITY, MAX_DEPTH - 1).value, types[MAX_DEPTH - 1], FsiIsRtl(types, MAX_DEPTH - 1), SOURCE_CAPACITY);
  }

  /** The source panics on the paragraph. */
  ghost predicate Panics(types: seq<BidiClass>, base: Level)
    requires 0 <= base <= 1
  {
    exists k :: 0 <= k < |types| && Strands(types, base, SOURCE_CAPACITY, k)
  }
}
