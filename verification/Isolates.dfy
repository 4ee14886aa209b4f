/** What rules X5a-X6a are for: an isolate and its matching PDI leave the state
    as they found it, whatever lies between them. */
module Isolates {
  import opened Wrappers
  import opened BidiTypes
  import opened LevelStack
  import opened ParagraphLevels
  import opened Explicit

  /** `open` isolates have been opened since `outer` and not closed yet; the first
      `valid` of them are on the stack and the others overflowed. */
  ghost predicate Under(outer: XState, st: XState, open: nat, valid: nat) {
    && valid <= open
    && open >= 1
    && if valid == 0
       then st == outer.(overflowIsolate := outer.overflowIsolate + open)
       else
         && NoOverflow(outer)
         && st.overflowIsolate == open - valid
         && st.validIsolate == outer.validIsolate + valid
         && |outer.stack| < |st.stack|
         && st.stack[..|outer.stack|] == outer.stack
         && st.stack[|outer.stack|].isolate
         && CountIsolates(st.stack) == CountIsolates(outer.stack) + valid
  }

  lemma {:induction false} CountBelow(stack: seq<Status>, n: nat)
    requires n < |stack|
    ensures CountIsolates(stack[..n]) + (if stack[n].isolate then 1 else 0) <= CountIsolates(stack)
  {
    var last := |stack| - 1;
    if n < last {
      assert stack[..last][..n] == stack[..n];
      CountBelow(stack[..last], n);
    }
  }

  lemma {:induction false} DownToIsolateReaches(stack: seq<Status>, k: nat)
    requires k < |stack| && stack[k].isolate
    ensures DownToIsolate(stack).Some? && |DownToIsolate(stack).value| >= k + 1
  {
    if !stack[|stack| - 1].isolate { DownToIsolateReaches(stack[..|stack| - 1], k); }
  }

  lemma PushUnder(outer: XState, st: XState, open: nat, valid: nat, entry: Status)
    requires Under(outer, st, open, valid) && valid >= 1
    ensures var stack := st.stack + [entry];
      && stack[..|outer.stack|] == outer.stack
      && stack[|outer.stack|].isolate
      && CountIsolates(stack) == CountIsolates(outer.stack) + valid + if entry.isolate then 1 else 0
  {
    assert (st.stack + [entry])[..|st.stack|] == st.stack;
  }

  /** An initiator inside: one more open. */
  lemma OpenUnder(outer: XState, st: XState, open: nat, valid: nat, level: Option<Level>, capacity: nat)
    returns (valid': nat)
    requires Under(outer, st, open, valid)
    requires level.Some? && NoOverflow(st) ==> |st.stack| < capacity
    ensures Under(outer, Isolate(st, level, capacity), open + 1, valid')
    ensures valid' >= 1 <==> valid >= 1
  {
    valid' := valid;
    if level.Some? && NoOverflow(st) {
      PushUnder(outer, st, open, valid, Status(level.value, Neutral, true));
      valid' := valid + 1;
    }
  }

  lemma EmbedUnder(outer: XState, st: XState, open: nat, valid: nat, level: Option<Level>, overriding: Override, capacity: nat)
    requires Under(outer, st, open, valid)
    requires level.Some? && NoOverflow(st) ==> |st.stack| < capacity
    ensures Under(outer, Embed(st, level, overriding, capacity), open, valid)
  {
    if level.Some? && NoOverflow(st) {
      PushUnder(outer, st, open, valid, Status(level.value, overriding, false));
    }
  }

  lemma PopUnder(outer: XState, st: XState, open: nat, valid: nat)
    requires Under(outer, st, open, valid) && st.stack != []
    ensures Under(outer, CloseEmbedding(st), open, valid)
  {
    if valid > 0 && st.overflowIsolate == 0 && st.overflowEmbedding == 0 && !Top(st).isolate {
      var n := |st.stack| - 1;
      assert st.stack[..n][..|outer.stack|] == outer.stack;
    }
  }

  /** The popped stack still starts with the outer one. */
  lemma PoppedPrefix(stack: seq<Status>, s: seq<Status>, n: nat)
    requires s <= stack && n < |s|
    ensures s[..|s| - 1][..n] == stack[..n]
    ensures n < |s| - 1 ==> s[..|s| - 1][n] == stack[n]
  {
  }

  /** A PDI inside: one fewer open, and the last one restores the outer state. */
  lemma CloseUnder(outer: XState, st: XState, open: nat, valid: nat) returns (valid': nat)
    requires Under(outer, st, open, valid) && outer.stack != []
    ensures CloseIsolate(st).Some?
    ensures open == 1 ==> CloseIsolate(st).value == outer
    ensures open >= 2 ==> Under(outer, CloseIsolate(st).value, open - 1, valid')
    ensures open >= 2 ==> (valid' >= 1 <==> valid >= 1)
  {
    valid' := valid;
    if st.overflowIsolate == 0 {
      var n := |outer.stack|;
      DownToIsolateReaches(st.stack, n);
      DownToIsolateCount(st.stack);
      var s := DownToIsolate(st.stack).value;
      var rest := s[..|s| - 1];
      PoppedPrefix(st.stack, s, n);
      if n < |rest| {
        CountBelow(rest, n);
      } else {
        assert rest == outer.stack;
      }
      valid' := valid - 1;
    }
  }

  /** How many isolates are open after `bc`. */
  function OpenAfter(bc: BidiClass, open: nat): int {
    if bc.IsIsoInit() then open + 1 else if bc == PopDirectionalIsolate then open - 1 else open
  }

  lemma StepUnder(outer: XState, st: XState, bc: BidiClass, rtlIsolate: bool, capacity: nat, open: nat, valid: nat)
    returns (valid': nat)
    requires Under(outer, st, open, valid)
    requires outer.stack != [] && st.stack != [] && Top(st).level >= 0
    requires !FullPush(st, bc, rtlIsolate, capacity)
    ensures var next := Step(st, bc, rtlIsolate, capacity);
      && next.Some?
      && (OpenAfter(bc, open) == 0 ==> next.value == outer)
      && (OpenAfter(bc, open) > 0 ==> Under(outer, next.value, OpenAfter(bc, open), valid'))
    ensures OpenAfter(bc, open) > 0 ==> (valid' >= 1 <==> valid >= 1)
  {
    hide Under, Isolate, Embed, CloseIsolate, CloseEmbedding;
    var level := Requested(bc, rtlIsolate, Top(st).level);
    valid' := valid;
    if bc.IsIsoInit() {
      valid' := OpenUnder(outer, st, open, valid, level, capacity);
    } else if bc == PopDirectionalIsolate {
      valid' := CloseUnder(outer, st, open, valid);
    } else if IsEmbedding(bc) {
      EmbedUnder(outer, st, open, valid, level, OverrideOf(bc), capacity);
    } else {
      PopUnder(outer, st, open, valid);
    }
  }

  /** Everything between an initiator and its matching PDI, one character at a time. */
  lemma {:induction false} InsideIsolate(types: seq<BidiClass>, base: Level, capacity: nat, outer: XState, i: nat, open: nat, valid: nat)
    requires i <= |types| && 0 <= base <= 1 && open >= 1
    requires outer.stack != []
    requires RunTo(types, base, capacity, i).Some?
    requires Under(outer, RunTo(types, base, capacity, i).value, open, valid)
    requires NoFullPush(types, base, capacity, |types|)
    ensures var m := MatchingPdi(types, i, open);
      m.Some? ==> RunTo(types, base, capacity, m.value + 1) == Some(outer)
    decreases |types| - i
  {
    hide Under, Step, Sound, FsiIsRtl, FullPush;
    if i < |types| && MatchingPdi(types, i, open).Some? {
      var st, bc, rtl := RunTo(types, base, capacity, i).value, types[i], FsiIsRtl(types, i);
      SoundTop(st, base);
      var v := StepUnder(outer, st, bc, rtl, capacity, open, valid);
      var next := OpenAfter(bc, open);
      if next > 0 { InsideIsolate(types, base, capacity, outer, i + 1, next, v); }
    }
  }

  lemma EnterIsolate(st: XState, bc: BidiClass, rtlIsolate: bool, capacity: nat) returns (valid: nat)
    requires st.stack != [] && Top(st).level >= 0 && bc.IsIsoInit()
    requires !FullPush(st, bc, rtlIsolate, capacity)
    ensures Step(st, bc, rtlIsolate, capacity).Some?
    ensures Under(st, Step(st, bc, rtlIsolate, capacity).value, 1, valid)
    ensures valid >= 1 <==> Step(st, bc, rtlIsolate, capacity).value.overflowIsolate == 0
  {
    valid := 0;
    var level := Requested(bc, rtlIsolate, Top(st).level);
    if level.Some? && NoOverflow(st) {
      valid := 1;
      var entry := Status(level.value, Neutral, true);
      assert (st.stack + [entry])[..|st.stack|] == st.stack;
    }
  }

  /** BD9 and X5a-X6a: after the PDI that matches the initiator at `k` the state is
      the one before the initiator: same stack, same counters, and so the same
      level and override for the text on both sides. */
  lemma IsolateRestores(types: seq<BidiClass>, base: Level, capacity: nat, k: nat)
    requires k < |types| && 0 <= base <= 1 && types[k].IsIsoInit()
    requires NoFullPush(types, base, capacity, |types|)
    ensures var m := MatchingPdi(types, k + 1, 1);
      m.Some? ==> RunTo(types, base, capacity, m.value + 1) == RunTo(types, base, capacity, k)
  {
    hide Under, Step, Sound, Good, FsiIsRtl, FullPush, MatchingPdi, CountIsolates, Stacked;
    RunKeeps(types, base, capacity, k);
    var st := RunTo(types, base, capacity, k).value;
    SoundTop(st, base);
    var valid := EnterIsolate(st, types[k], FsiIsRtl(types, k), capacity);
    InsideIsolate(types, base, capacity, st, k + 1, 1, valid);
  }
}
