/** Rules X1-X9 as relations between the state before a character, the state after it and what
    the character is given. They say the same as the state machine. */
module ExplicitRules {
  import opened Wrappers
  import opened BidiTypes
  import opened LevelStack
  import opened ParagraphLevels
  import opened Explicit

  // ----- The rules -----

  /** The character asks for a right-to-left level. */
  ghost predicate AsksRight(types: seq<BidiClass>, i: nat)
    requires i < |types|
  {
    || types[i] in {RightToLeftEmbedding, RightToLeftOverride, RightToLeftIsolate}
    || (types[i] == FirstStrongIsolate && RightInside(types, i + 1))
  }

  /** Nothing has overflowed, and `to` is the least level above the current one of the
      parity asked for, not over 125. */
  ghost predicate CanOpen(st: XState, odd: bool, to: Level)
    requires st.stack != []
  {
    var level := st.stack[|st.stack| - 1].level;
    && st.overflowIsolate == 0 && st.overflowEmbedding == 0
    && level < to <= level + 2 && to <= 125
    && (to % 2 == 1 <==> odd)
  }

  ghost predicate CannotOpen(st: XState, odd: bool)
    requires st.stack != []
  {
    forall to :: !CanOpen(st, odd, to)
  }

  /** `next` is `stack` with the entry on top; with no room left for it, `stack`. */
  ghost predicate Entered(stack: seq<Status>, entry: Status, room: nat, next: seq<Status>) {
    if |stack| < room
    then |next| == |stack| + 1 && next[..|stack|] == stack && next[|stack|] == entry
    else next == stack
  }

  /** X2-X5 */
  ghost predicate EmbedRule(bc: BidiClass, odd: bool, st: XState, room: nat, next: XState)
    requires st.stack != []
  {
    var overriding := if bc == RightToLeftOverride then RTL else if bc == LeftToRightOverride then LTR else Neutral;
    && next.overflowIsolate == st.overflowIsolate
    && next.validIsolate == st.validIsolate
    && (|| (exists to ::
              && CanOpen(st, odd, to)
              && Entered(st.stack, Status(to, overriding, false), room, next.stack)
              && next.overflowEmbedding == 0)
        || (&& CannotOpen(st, odd)
            && next.stack == st.stack
            && next.overflowEmbedding == if st.overflowIsolate == 0 then st.overflowEmbedding + 1 else st.overflowEmbedding))
  }

  /** X5a-X5c */
  ghost predicate IsolateRule(odd: bool, st: XState, room: nat, next: XState)
    requires st.stack != []
  {
    && next.overflowEmbedding == st.overflowEmbedding
    && (|| (exists to ::
              && CanOpen(st, odd, to)
              && Entered(st.stack, Status(to, Neutral, true), room, next.stack)
              && next.validIsolate == st.validIsolate + 1
              && next.overflowIsolate == 0)
        || (&& CannotOpen(st, odd)
            && next.stack == st.stack
            && next.validIsolate == st.validIsolate
            && next.overflowIsolate == st.overflowIsolate + 1))
  }

  /** The topmost isolate entry is the `m`-th; the base entry is none. */
  ghost predicate TopIsolate(stack: seq<Status>, m: nat) {
    && 0 < m < |stack| && stack[m].isolate
    && forall h :: m < h < |stack| ==> !stack[h].isolate
  }

  /** X6a */
  ghost predicate PdiRule(st: XState, next: XState) {
    if st.overflowIsolate > 0 then
      next == st.(overflowIsolate := st.overflowIsolate - 1)
    else if st.validIsolate == 0 then
      next == st
    else
      && (exists m: nat :: TopIsolate(st.stack, m) && next.stack == st.stack[..m])
      && next.overflowIsolate == 0 && next.overflowEmbedding == 0 && next.validIsolate == st.validIsolate - 1
  }

  /** X7 */
  ghost predicate PdfRule(st: XState, next: XState)
    requires st.stack != []
  {
    if st.overflowIsolate > 0 then next == st
    else if st.overflowEmbedding > 0 then next == st.(overflowEmbedding := st.overflowEmbedding - 1)
    else if st.stack[|st.stack| - 1].isolate || |st.stack| == 1 then next == st
    else next == st.(stack := st.stack[..|st.stack| - 1])
  }

  /** X2-X8 for the character at `i`. */
  ghost predicate StepsByRules(types: seq<BidiClass>, i: nat, st: XState, room: nat, next: XState)
    requires i < |types| && st.stack != []
  {
    match types[i]
    case RightToLeftEmbedding | LeftToRightEmbedding | RightToLeftOverride | LeftToRightOverride =>
      EmbedRule(types[i], AsksRight(types, i), st, room, next)
    case RightToLeftIsolate | LeftToRightIsolate | FirstStrongIsolate =>
      IsolateRule(AsksRight(types, i), st, room, next)
    case PopDirectionalIsolate => PdiRule(st, next)
    case PopDirectionalFormat => PdfRule(st, next)
    case _ => next == st
  }

  /** X5a-X9: the level and the class of the character. */
  ghost predicate Given(bc: BidiClass, base: Level, st: XState, next: XState, level: Level, to: BidiClass)
    requires st.stack != [] && next.stack != []
  {
    if bc in DELETED_CLASSES then level == -1 && to == bc
    else if bc == ParagraphSeparator then level == base && to == bc
    else
      var stack := if bc == PopDirectionalIsolate then next.stack else st.stack;
      var top := stack[|stack| - 1];
      && level == top.level
      && to == match top.overriding { case RTL => RightToLeft case LTR => LeftToRight case Neutral => bc }
  }

  // ----- They say what the state machine does -----

  /** X5c */
  lemma FsiMeans(types: seq<BidiClass>, i: nat)
    requires i < |types|
    ensures FsiIsRtl(types, i) <==> RightInside(types, i + 1)
  {
    hide ParagraphLevelOf, RightInside;
    InsideLevelFrom(types, i + 1);
  }

  lemma RequestedMeans(types: seq<BidiClass>, i: nat, st: XState)
    requires i < |types| && st.stack != [] && Top(st).level >= 0
    requires IsEmbedding(types[i]) || types[i].IsIsoInit()
    ensures var level, odd := Requested(types[i], FsiIsRtl(types, i), Top(st).level), AsksRight(types, i);
      && (forall to :: CanOpen(st, odd, to) <==> NoOverflow(st) && level == Some(to))
      && (CannotOpen(st, odd) <==> !(level.Some? && NoOverflow(st)))
  {
    hide FsiIsRtl, RightInside;
    FsiMeans(types, i);
    var level, odd := Requested(types[i], FsiIsRtl(types, i), Top(st).level), AsksRight(types, i);
    assert forall to :: CanOpen(st, odd, to) <==> NoOverflow(st) && level == Some(to);
    if level.Some? && NoOverflow(st) { assert CanOpen(st, odd, level.value); }
  }

  lemma EnteredIsPush(stack: seq<Status>, entry: Status, room: nat, next: seq<Status>)
    ensures Entered(stack, entry, room, next) <==> next == Push(stack, entry, room)
  {
    if |stack| < room && Entered(stack, entry, room, next) { assert next == next[..|stack|] + [next[|stack|]]; }
  }

  lemma EmbedMeans(types: seq<BidiClass>, i: nat, st: XState, room: nat, next: XState)
    requires i < |types| && st.stack != [] && Top(st).level >= 0 && IsEmbedding(types[i])
    ensures EmbedRule(types[i], AsksRight(types, i), st, room, next) <==>
      next == Embed(st, Requested(types[i], FsiIsRtl(types, i), Top(st).level), OverrideOf(types[i]), room)
  {
    RequestedMeans(types, i, st);
    var level := Requested(types[i], FsiIsRtl(types, i), Top(st).level);
    if level.Some? { EnteredIsPush(st.stack, Status(level.value, OverrideOf(types[i]), false), room, next.stack); }
    hide Requested, FsiIsRtl, AsksRight, CanOpen, CannotOpen, Entered, Push;
  }

  lemma IsolateMeans(types: seq<BidiClass>, i: nat, st: XState, room: nat, next: XState)
    requires i < |types| && st.stack != [] && Top(st).level >= 0 && types[i].IsIsoInit()
    ensures IsolateRule(AsksRight(types, i), st, room, next) <==>
      next == Isolate(st, Requested(types[i], FsiIsRtl(types, i), Top(st).level), room)
  {
    RequestedMeans(types, i, st);
    var level := Requested(types[i], FsiIsRtl(types, i), Top(st).level);
    if level.Some? { EnteredIsPush(st.stack, Status(level.value, Neutral, true), room, next.stack); }
    hide Requested, FsiIsRtl, AsksRight, CanOpen, CannotOpen, Entered, Push;
  }

  lemma {:induction false} DownMeans(stack: seq<Status>, m: nat)
    ensures TopIsolate(stack, m) <==>
      m > 0 && m < |stack| && DownToIsolate(stack) == Some(stack[..m + 1])
  {
    if stack != [] && !stack[|stack| - 1].isolate {
      var rest := stack[..|stack| - 1];
      DownMeans(rest, m);
      if m < |rest| { assert rest[..m + 1] == stack[..m + 1]; }
    } else if stack != [] {
      assert stack[..|stack|] == stack;
      if TopIsolate(stack, m) { assert m == |stack| - 1; }
    }
  }

  lemma PdiMeans(st: XState, next: XState)
    requires st.stack != []
    ensures PdiRule(st, next) <==> CloseIsolate(st) == Some(next)
  {
    if st.overflowIsolate == 0 && st.validIsolate > 0 {
      forall m: nat ensures TopIsolate(st.stack, m) <==> m > 0 && m < |st.stack| && DownToIsolate(st.stack) == Some(st.stack[..m + 1]) {
        DownMeans(st.stack, m);
      }
      hide TopIsolate, DownToIsolate;
      var down := DownToIsolate(st.stack);
      if down.Some? && |down.value| > 1 {
        var n := |down.value| - 1;
        assert st.stack[..n + 1] == down.value;
        assert TopIsolate(st.stack, n) && down.value[..n] == st.stack[..n];
        forall m: nat | TopIsolate(st.stack, m) ensures m == n {
          assert |st.stack[..m + 1]| == m + 1;
        }
      }
    }
  }

  /** X2-X8: the machine makes exactly the steps of the rules. */
  lemma StepMeans(types: seq<BidiClass>, i: nat, st: XState, room: nat, next: XState)
    requires i < |types| && st.stack != [] && Top(st).level >= 0
    ensures StepsByRules(types, i, st, room, next) <==> Step(st, types[i], FsiIsRtl(types, i), room) == Some(next)
  {
    hide EmbedRule, IsolateRule, PdiRule, FsiIsRtl, AsksRight, Embed, Isolate, CloseIsolate, Requested;
    if IsEmbedding(types[i]) {
      EmbedMeans(types, i, st, room, next);
    } else if types[i].IsIsoInit() {
      IsolateMeans(types, i, st, room, next);
    } else if types[i] == PopDirectionalIsolate {
      PdiMeans(st, next);
    }
  }

  lemma GivenMeans(bc: BidiClass, base: Level, st: XState, next: XState, level: Level, to: BidiClass)
    requires st.stack != [] && next.stack != []
    ensures Given(bc, base, st, next, level, to) <==>
      level == LevelBetween(st, next, bc, base) && to == ClassBetween(st, next, bc)
  {
    DeletedMeans(bc);
    hide BidiClass.IsFormat, DELETED_CLASSES;
  }

  // ----- Whole paragraphs -----

  /** From one entry with the base level, every state follows from the one before, and every
      character gets what they give it. */
  ghost predicate ByRules(types: seq<BidiClass>, base: Level, room: nat, states: seq<XState>, classes: seq<BidiClass>, levels: seq<Level>) {
    && |states| == |types| + 1 && |classes| == |levels| == |types|
    && states[0] == XState([Status(base, Neutral, false)], 0, 0, 0)
    && (forall i :: 0 <= i < |states| ==> states[i].stack != [])
    && forall i :: 0 <= i < |types| ==> ByRulesAt(types, base, room, i, states[i], states[i + 1], classes[i], levels[i])
  }

  ghost predicate ByRulesAt(types: seq<BidiClass>, base: Level, room: nat, i: nat, st: XState, next: XState, bc: BidiClass, level: Level)
    requires i < |types| && st.stack != [] && next.stack != []
  {
    StepsByRules(types, i, st, room, next) && Given(types[i], base, st, next, level, bc)
  }

  lemma ByRulesHere(types: seq<BidiClass>, base: Level, room: nat, states: seq<XState>, classes: seq<BidiClass>, levels: seq<Level>, i: nat)
    requires ByRules(types, base, room, states, classes, levels) && i < |types|
    ensures |states| == |types| + 1 && |classes| == |levels| == |types|
    ensures states[i].stack != [] && states[i + 1].stack != []
    ensures ByRulesAt(types, base, room, i, states[i], states[i + 1], classes[i], levels[i])
  {
  }

  lemma {:induction false} RunByRules(types: seq<BidiClass>, base: Level, room: nat, states: seq<XState>, classes: seq<BidiClass>,
                                      levels: seq<Level>, n: nat)
    requires ByRules(types, base, room, states, classes, levels) && n <= |types| && 0 <= base <= 1
    ensures n < |states| && RunTo(types, base, room, n) == Some(states[n])
  {
    hide StepsByRules, Given, Step, Sound, FsiIsRtl;
    if n > 0 {
      RunByRules(types, base, room, states, classes, levels, n - 1);
      ByRulesHere(types, base, room, states, classes, levels, n - 1);
      SoundTop(states[n - 1], base);
      StepMeans(types, n - 1, states[n - 1], room, states[n]);
      RunNext(types, base, room, n - 1);
    }
  }

  /** X1-X9: what the machine makes of a paragraph is what the rules make of it. */
  lemma ExplainedExactly(types: seq<BidiClass>, base: Level, classes: seq<BidiClass>, levels: seq<Level>)
    ensures Explained(types, base, classes, levels) <==>
      0 <= base <= 1 && exists states :: ByRules(types, base, 125, states, classes, levels)
  {
    if Explained(types, base, classes, levels) { var states := ExplainedStates(types, base, classes, levels); }
    if 0 <= base <= 1 {
      if states :| ByRules(types, base, 125, states, classes, levels) {
        ByRulesExplained(types, base, states, classes, levels);
      }
    }
  }

  lemma ExplainedStates(types: seq<BidiClass>, base: Level, classes: seq<BidiClass>, levels: seq<Level>) returns (states: seq<XState>)
    requires Explained(types, base, classes, levels)
    ensures ByRules(types, base, 125, states, classes, levels)
  {
    hide StepsByRules, Given, Step, FsiIsRtl, RunTo, Stacked, LevelBetween, ClassBetween;
    forall n | 0 <= n <= |types| ensures RunTo(types, base, SOURCE_CAPACITY, n).Some? {
      RunPrefix(types, base, SOURCE_CAPACITY, n, |types|);
    }
    states := seq(|types| + 1, n requires 0 <= n <= |types| => RunTo(types, base, SOURCE_CAPACITY, n).value);
    RunStart(types, base, SOURCE_CAPACITY);
    forall i | 0 <= i < |states| ensures states[i].stack != [] {
      SoundTop(states[i], base);
    }
    forall i | 0 <= i < |types|
      ensures ByRulesAt(types, base, 125, i, states[i], states[i + 1], classes[i], levels[i])
    {
      assert ExplainedAt(types, base, i, classes[i], levels[i]);
      SoundTop(states[i], base);
      RunNext(types, base, SOURCE_CAPACITY, i);
      StepMeans(types, i, states[i], SOURCE_CAPACITY, states[i + 1]);
      GivenMeans(types[i], base, states[i], states[i + 1], levels[i], classes[i]);
    }
  }

  lemma ByRulesExplained(types: seq<BidiClass>, base: Level, states: seq<XState>, classes: seq<BidiClass>, levels: seq<Level>)
    requires ByRules(types, base, 125, states, classes, levels) && 0 <= base <= 1
    ensures Explained(types, base, classes, levels)
  {
    hide StepsByRules, Given, Step, FsiIsRtl, RunTo, Stacked, LevelBetween, ClassBetween;
    RunByRules(types, base, 125, states, classes, levels, |types|);
    assert |types| == |classes| == |levels|;
    forall i | 0 <= i < |types| ensures ExplainedAt(types, base, i, classes[i], levels[i]) {
      RunByRules(types, base, 125, states, classes, levels, i);
      RunByRules(types, base, 125, states, classes, levels, i + 1);
      ByRulesHere(types, base, 125, states, classes, levels, i);
      GivenMeans(types[i], base, states[i], states[i + 1], levels[i], classes[i]);
    }
  }
}
