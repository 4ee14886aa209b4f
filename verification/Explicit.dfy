/** Rules X1-X9 as a state machine, its invariants, and what isolates mean. */
module Explicit {
  import opened Wrappers
  import opened BidiTypes
  import opened LevelStack
  import opened ParagraphLevels

  // ----- Level arithmetic -----

  /** The next even level, if the limit allows one. */
  function LeastGreaterEven(level: Level): (r: Option<Level>)
    requires level >= 0
    ensures r.Some? ==> level < r.value <= MAX_DEPTH && r.value % 2 == 0
    ensures forall e :: level < e <= MAX_DEPTH && e % 2 == 0 ==> r.Some? && r.value <= e
  {
    var next := if level % 2 == 0 then level + 2 else level + 1;
    if next > MAX_DEPTH then None else Some(next)
  }

  function LeastGreaterOdd(level: Level): (r: Option<Level>)
    requires level >= 0
    ensures r.Some? ==> level < r.value <= MAX_DEPTH && r.value % 2 == 1
    ensures forall e :: level < e <= MAX_DEPTH && e % 2 == 1 ==> r.Some? && r.value <= e
  {
    var next := if level % 2 == 1 then level + 2 else level + 1;
    if next > MAX_DEPTH then None else Some(next)
  }

  // ----- Rules X1-X8 -----

  datatype XState = XState(
    stack: seq<Status>,
    overflowIsolate: nat,
    overflowEmbedding: nat,
    validIsolate: nat)

  /** The room the source gives the stack, and the room section 3.3.2 of UAX #9
      asks for. */
  const SOURCE_CAPACITY: nat := MAX_DEPTH
  const UAX_CAPACITY: nat := MAX_DEPTH + 2

  function Push(stack: seq<Status>, entry: Status, capacity: nat): seq<Status> {
    if |stack| >= capacity then stack else stack + [entry]
  }

  function Top(st: XState): Status
    requires st.stack != []
  {
    st.stack[|st.stack| - 1]
  }

  /** X1 */
  function Initial(base: Level): XState {
    XState([Status(base, Neutral, false)], 0, 0, 0)
  }

  predicate NoOverflow(st: XState) {
    st.overflowIsolate == 0 && st.overflowEmbedding == 0
  }

  /** X2-X5 */
  function Embed(st: XState, level: Option<Level>, overriding: Override, capacity: nat): XState {
    if level.Some? && NoOverflow(st) then
      st.(stack := Push(st.stack, Status(level.value, overriding, false), capacity))
    else if st.overflowIsolate == 0 then st.(overflowEmbedding := st.overflowEmbedding + 1)
    else st
  }

  /** X5a-X5c */
  function Isolate(st: XState, level: Option<Level>, capacity: nat): XState {
    if level.Some? && NoOverflow(st) then
      st.(validIsolate := st.validIsolate + 1,
          stack := Push(st.stack, Status(level.value, Neutral, true), capacity))
    else st.(overflowIsolate := st.overflowIsolate + 1)
  }

  /** The stack from its topmost isolate entry down, if it has one. */
  function DownToIsolate(stack: seq<Status>): (r: Option<seq<Status>>)
    ensures r.Some? ==> r.value != [] && r.value <= stack && r.value[|r.value| - 1].isolate
  {
    if stack == [] then None
    else if stack[|stack| - 1].isolate then Some(stack)
    else DownToIsolate(stack[..|stack| - 1])
  }

  /** X6a; None when the source's pop loop runs off the bottom of the stack. */
  function CloseIsolate(st: XState): Option<XState> {
    if st.overflowIsolate > 0 then Some(st.(overflowIsolate := st.overflowIsolate - 1))
    else if st.validIsolate == 0 then Some(st)
    else
      match DownToIsolate(st.stack)
      case None => None
      case Some(s) =>
        if |s| == 1 then None
        else Some(XState(s[..|s| - 1], 0, 0, st.validIsolate - 1))
  }

  /** X7 */
  function CloseEmbedding(st: XState): XState
    requires st.stack != []
  {
    if st.overflowIsolate > 0 then st
    else if st.overflowEmbedding > 0 then st.(overflowEmbedding := st.overflowEmbedding - 1)
    else if !Top(st).isolate && |st.stack| >= 2 then st.(stack := st.stack[..|st.stack| - 1])
    else st
  }

  /** The level that the initiator or embedding control `bc` asks for. */
  function Requested(bc: BidiClass, rtlIsolate: bool, level: Level): Option<Level>
    requires level >= 0
  {
    if bc in {RightToLeftEmbedding, RightToLeftOverride, RightToLeftIsolate}
       || (bc == FirstStrongIsolate && rtlIsolate)
    then LeastGreaterOdd(level)
    else LeastGreaterEven(level)
  }

  function OverrideOf(bc: BidiClass): Override {
    match bc
    case RightToLeftOverride => RTL
    case LeftToRightOverride => LTR
    case _ => Neutral
  }

  predicate IsEmbedding(bc: BidiClass) {
    bc in {RightToLeftEmbedding, LeftToRightEmbedding, RightToLeftOverride, LeftToRightOverride}
  }

  /** One character. `rtlIsolate` is the direction rule X5c finds for an FSI. */
  function Step(st: XState, bc: BidiClass, rtlIsolate: bool, capacity: nat): Option<XState>
    requires st.stack != [] && Top(st).level >= 0
  {
    if IsEmbedding(bc) then Some(Embed(st, Requested(bc, rtlIsolate, Top(st).level), OverrideOf(bc), capacity))
    else if bc.IsIsoInit() then Some(Isolate(st, Requested(bc, rtlIsolate, Top(st).level), capacity))
    else if bc == PopDirectionalIsolate then CloseIsolate(st)
    else if bc == PopDirectionalFormat then Some(CloseEmbedding(st))
    else Some(st)
  }

  /** The step asks for a push that a stack of this capacity ignores. */
  predicate FullPush(st: XState, bc: BidiClass, rtlIsolate: bool, capacity: nat)
    requires st.stack != [] && Top(st).level >= 0
  {
    && (IsEmbedding(bc) || bc.IsIsoInit())
    && NoOverflow(st)
    && Requested(bc, rtlIsolate, Top(st).level).Some?
    && |st.stack| >= capacity
  }

  function CountIsolates(stack: seq<Status>): (n: nat) {
    if stack == [] then 0
    else CountIsolates(stack[..|stack| - 1]) + if stack[|stack| - 1].isolate then 1 else 0
  }

  /** A base entry with strictly increasing levels above it, none over the limit. */
  ghost predicate Stacked(stack: seq<Status>, base: Level) {
    && |stack| >= 1
    && stack[0] == Status(base, Neutral, false)
    && (forall i, j :: 0 <= i < j < |stack| ==> stack[i].level < stack[j].level)
    && (forall i :: 0 <= i < |stack| ==> base <= stack[i].level <= MAX_DEPTH)
  }

  /** What every step keeps, full stack or not. */
  ghost predicate Sound(st: XState, base: Level) {
    && Stacked(st.stack, base)
    && st.validIsolate >= CountIsolates(st.stack)
  }

  /** What every step keeps that does not push on a full stack. */
  ghost predicate Good(st: XState, base: Level) {
    && Sound(st, base)
    && st.validIsolate == CountIsolates(st.stack)
  }

  lemma {:induction false} DownToIsolateCount(stack: seq<Status>)
    ensures match DownToIsolate(stack)
      case None => CountIsolates(stack) == 0
      case Some(s) => CountIsolates(s) == CountIsolates(stack) >= 1
  {
    if stack != [] { DownToIsolateCount(stack[..|stack| - 1]); }
  }

  lemma PushStacked(stack: seq<Status>, entry: Status, capacity: nat, base: Level)
    requires Stacked(stack, base) && stack[|stack| - 1].level < entry.level <= MAX_DEPTH
    ensures Stacked(Push(stack, entry, capacity), base)
    ensures |stack| < capacity ==>
      CountIsolates(Push(stack, entry, capacity)) == CountIsolates(stack) + if entry.isolate then 1 else 0
  {
    assert (stack + [entry])[..|stack|] == stack;
  }

  lemma PopStacked(stack: seq<Status>, n: nat, base: Level)
    requires Stacked(stack, base) && 1 <= n <= |stack|
    ensures Stacked(stack[..n], base)
  {
  }

  lemma EmbedKeeps(st: XState, level: Option<Level>, overriding: Override, capacity: nat, base: Level)
    requires Sound(st, base)
    requires level.Some? ==> Top(st).level < level.value <= MAX_DEPTH
    ensures var next := Embed(st, level, overriding, capacity);
      && Sound(next, base)
      && (Good(st, base) ==> Good(next, base))
  {
    if level.Some? && NoOverflow(st) {
      PushStacked(st.stack, Status(level.value, overriding, false), capacity, base);
    }
  }

  lemma IsolateKeeps(st: XState, level: Option<Level>, capacity: nat, base: Level)
    requires Sound(st, base)
    requires level.Some? ==> Top(st).level < level.value <= MAX_DEPTH
    ensures var next := Isolate(st, level, capacity);
      && Sound(next, base)
      && (Good(st, base) && (level.Some? && NoOverflow(st) ==> |st.stack| < capacity) ==> Good(next, base))
  {
    if level.Some? && NoOverflow(st) {
      PushStacked(st.stack, Status(level.value, Neutral, true), capacity, base);
    }
  }

  lemma CloseIsolateKeeps(st: XState, base: Level)
    requires Sound(st, base)
    ensures var next := CloseIsolate(st);
      && (next.Some? ==> Sound(next.value, base))
      && (Good(st, base) ==> next.Some? && Good(next.value, base))
  {
    DownToIsolateCount(st.stack);
    match DownToIsolate(st.stack)
    case None =>
    case Some(s) =>
      if |s| > 1 { PopStacked(st.stack, |s| - 1, base); }
  }

  lemma CloseEmbeddingKeeps(st: XState, base: Level)
    requires Sound(st, base)
    ensures Sound(CloseEmbedding(st), base)
    ensures Good(st, base) ==> Good(CloseEmbedding(st), base)
  {
    if |st.stack| >= 2 { PopStacked(st.stack, |st.stack| - 1, base); }
  }

  /** Every step keeps Sound; it keeps Good unless it pushes on a full stack, and
      from a Good state the pop loop always stops at an isolate entry. */
  lemma StepKeeps(st: XState, bc: BidiClass, rtlIsolate: bool, capacity: nat, base: Level)
    requires 0 <= base && Sound(st, base)
    ensures var next := Step(st, bc, rtlIsolate, capacity);
      && (next.Some? ==> Sound(next.value, base))
      && (Good(st, base) ==> next.Some?)
      && (Good(st, base) && !FullPush(st, bc, rtlIsolate, capacity) ==> Good(next.value, base))
  {
    hide Sound, Good, Embed, Isolate, CloseIsolate, CloseEmbedding;
    SoundTop(st, base);
    EmbedKeeps(st, Requested(bc, rtlIsolate, Top(st).level), OverrideOf(bc), capacity, base);
    IsolateKeeps(st, Requested(bc, rtlIsolate, Top(st).level), capacity, base);
    CloseIsolateKeeps(st, base);
    CloseEmbeddingKeeps(st, base);
  }

  lemma SoundTop(st: XState, base: Level)
    requires Sound(st, base)
    ensures st.stack != [] && base <= Top(st).level <= MAX_DEPTH
  {
  }

  /** Levels grow by at least one an entry. */
  lemma {:induction false} LevelsGrow(st: XState, base: Level, i: nat)
    requires Sound(st, base) && i < |st.stack|
    ensures st.stack[i].level >= base + i
  {
    if i > 0 { LevelsGrow(st, base, i - 1); }
  }

  /** With base level 1 a push never meets a full stack. */
  lemma NeverFullAtBaseOne(st: XState, bc: BidiClass, rtlIsolate: bool)
    requires Sound(st, 1)
    ensures !FullPush(st, bc, rtlIsolate, SOURCE_CAPACITY)
  {
    LevelsGrow(st, 1, |st.stack| - 1);
  }

  /** With the room UAX #9 asks for it never does. */
  lemma NeverFullInUax(st: XState, bc: BidiClass, rtlIsolate: bool, base: Level)
    requires 0 <= base && Sound(st, base)
    ensures !FullPush(st, bc, rtlIsolate, UAX_CAPACITY)
  {
    LevelsGrow(st, base, |st.stack| - 1);
  }

  predicate HoldsEveryLevel(stack: seq<Status>) {
    && |stack| == MAX_DEPTH
    && forall i :: 0 <= i < |stack| ==> stack[i].level == i
  }

  lemma {:induction false} TopBoundsBelow(st: XState, base: Level, i: nat)
    requires Sound(st, base) && i < |st.stack|
    ensures st.stack[i].level <= Top(st).level - (|st.stack| - 1 - i)
    decreases |st.stack| - i
  {
    if i + 1 < |st.stack| { TopBoundsBelow(st, base, i + 1); }
  }

  /** With base level 0 it does exactly when the stack holds the levels 0 to
      MAX_DEPTH - 1 and the character asks for a right-to-left level. */
  lemma FullAtBaseZero(st: XState, bc: BidiClass, rtlIsolate: bool)
    requires Sound(st, 0)
    ensures FullPush(st, bc, rtlIsolate, SOURCE_CAPACITY) <==>
      && HoldsEveryLevel(st.stack)
      && NoOverflow(st)
      && (|| bc in {RightToLeftEmbedding, RightToLeftOverride, RightToLeftIsolate}
          || (bc == FirstStrongIsolate && rtlIsolate))
  {
    LevelsGrow(st, 0, |st.stack| - 1);
    forall i | 0 <= i < |st.stack|
      ensures i <= st.stack[i].level <= Top(st).level - (|st.stack| - 1 - i)
    {
      LevelsGrow(st, 0, i);
      TopBoundsBelow(st, 0, i);
    }
  }

  // ----- Whole paragraphs -----

  /** The direction rule X5c finds for the FSI at `i`. */
  function FsiIsRtl(types: seq<BidiClass>, i: nat): bool
    requires i < |types|
  {
    ParagraphLevelOf(types[i + 1..], true, Ltr) == 1
  }

  /** The state after the first `n` characters, None once the source has panicked. */
  function RunTo(types: seq<BidiClass>, base: Level, capacity: nat, n: nat): (st: Option<XState>)
    requires n <= |types| && 0 <= base <= 1
    ensures st.Some? ==> Sound(st.value, base)
  {
    if n == 0 then Some(Initial(base))
    else
      match RunTo(types, base, capacity, n - 1)
      case None => None
      case Some(st) =>
        StepKeeps(st, types[n - 1], FsiIsRtl(types, n - 1), capacity, base);
        Step(st, types[n - 1], FsiIsRtl(types, n - 1), capacity)
  }

  /** No character before the `n`-th pushes on a full stack. */
  ghost predicate NoFullPush(types: seq<BidiClass>, base: Level, capacity: nat, n: nat)
    requires n <= |types| && 0 <= base <= 1
  {
    forall k :: 0 <= k < n ==>
      var st := RunTo(types, base, capacity, k);
      st.Some? ==> !FullPush(st.value, types[k], FsiIsRtl(types, k), capacity)
  }

  /** X1-X8 keep their invariants over every paragraph. */
  lemma {:induction false} RunKeeps(types: seq<BidiClass>, base: Level, capacity: nat, n: nat)
    requires n <= |types| && 0 <= base <= 1
    requires NoFullPush(types, base, capacity, n)
    ensures RunTo(types, base, capacity, n).Some?
    ensures Good(RunTo(types, base, capacity, n).value, base)
  {
    hide Step, Sound, Good, FullPush, FsiIsRtl;
    if n > 0 {
      RunKeeps(types, base, capacity, n - 1);
      StepKeeps(RunTo(types, base, capacity, n - 1).value, types[n - 1], FsiIsRtl(types, n - 1), capacity, base);
    } else {
      InitialGood(base);
    }
  }

  lemma InitialGood(base: Level)
    requires 0 <= base <= 1
    ensures Good(Initial(base), base)
  {
    assert [Status(base, Neutral, false)][..0] == [];
  }

  lemma BaseOneNeverFull(types: seq<BidiClass>, n: nat)
    requires n <= |types|
    ensures NoFullPush(types, 1, SOURCE_CAPACITY, n)
  {
    forall k | 0 <= k < n && RunTo(types, 1, SOURCE_CAPACITY, k).Some?
      ensures !FullPush(RunTo(types, 1, SOURCE_CAPACITY, k).value, types[k], FsiIsRtl(types, k), SOURCE_CAPACITY)
    {
      NeverFullAtBaseOne(RunTo(types, 1, SOURCE_CAPACITY, k).value, types[k], FsiIsRtl(types, k));
    }
  }

  /** Where the smaller stack has room, the two steps are the same. */
  lemma RoomEnough(st: XState, bc: BidiClass, rtlIsolate: bool, base: Level)
    requires 0 <= base && Sound(st, base)
    requires st.stack != [] && Top(st).level >= 0
    requires !FullPush(st, bc, rtlIsolate, SOURCE_CAPACITY)
    ensures Step(st, bc, rtlIsolate, SOURCE_CAPACITY) == Step(st, bc, rtlIsolate, UAX_CAPACITY)
  {
    NeverFullInUax(st, bc, rtlIsolate, base);
  }

  /** The two stacks agree as long as the smaller one has room. */
  lemma {:induction false} AgreesWithUax(types: seq<BidiClass>, base: Level, n: nat)
    requires n <= |types| && 0 <= base <= 1
    requires NoFullPush(types, base, SOURCE_CAPACITY, n)
    ensures RunTo(types, base, SOURCE_CAPACITY, n) == RunTo(types, base, UAX_CAPACITY, n)
  {
    hide Step, Good, FullPush, FsiIsRtl, Stacked;
    if n > 0 {
      AgreesWithUax(types, base, n - 1);
      RunKeeps(types, base, SOURCE_CAPACITY, n - 1);
      var st := RunTo(types, base, SOURCE_CAPACITY, n - 1).value;
      SoundTop(st, base);
      RoomEnough(st, types[n - 1], FsiIsRtl(types, n - 1), base);
    }
  }

  /** And they part at the first push that the smaller one ignores. */
  lemma FullPushParts(types: seq<BidiClass>, base: Level, k: nat)
    requires k < |types| && 0 <= base <= 1
    requires NoFullPush(types, base, SOURCE_CAPACITY, k)
    requires !NoFullPush(types, base, SOURCE_CAPACITY, k + 1)
    ensures RunTo(types, base, SOURCE_CAPACITY, k + 1) != RunTo(types, base, UAX_CAPACITY, k + 1)
  {
    AgreesWithUax(types, base, k);
    RunKeeps(types, base, SOURCE_CAPACITY, k);
    var st := RunTo(types, base, SOURCE_CAPACITY, k).value;
    NeverFullInUax(st, types[k], FsiIsRtl(types, k), base);
    assert FullPush(st, types[k], FsiIsRtl(types, k), SOURCE_CAPACITY);
  }

  lemma {:induction false} FirstFullPush(types: seq<BidiClass>, base: Level, n: nat) returns (k: nat)
    requires n <= |types| && 0 <= base <= 1
    requires !NoFullPush(types, base, SOURCE_CAPACITY, n)
    ensures k < n
    ensures NoFullPush(types, base, SOURCE_CAPACITY, k) && !NoFullPush(types, base, SOURCE_CAPACITY, k + 1)
  {
    if NoFullPush(types, base, SOURCE_CAPACITY, n - 1) {
      k := n - 1;
    } else {
      k := FirstFullPush(types, base, n - 1);
    }
  }

  /** The source follows section 3.3.2 of UAX #9 through every character exactly
      on the paragraphs that never push on its full stack. */
  lemma FollowsUaxExactly(types: seq<BidiClass>, base: Level)
    requires 0 <= base <= 1
    ensures NoFullPush(types, base, SOURCE_CAPACITY, |types|) <==>
      forall n :: 0 <= n <= |types| ==>
        RunTo(types, base, SOURCE_CAPACITY, n) == RunTo(types, base, UAX_CAPACITY, n)
  {
    if NoFullPush(types, base, SOURCE_CAPACITY, |types|) {
      forall n | 0 <= n <= |types|
        ensures RunTo(types, base, SOURCE_CAPACITY, n) == RunTo(types, base, UAX_CAPACITY, n)
      {
        AgreesWithUax(types, base, n);
      }
    } else {
      var k := FirstFullPush(types, base, |types|);
      FullPushParts(types, base, k);
    }
  }

  // ----- What each character is given -----

  /** X5a-X8 then X9: the level of a character between two states. */
  function LevelBetween(before: XState, after: XState, bc: BidiClass, base: Level): Level
    requires before.stack != [] && after.stack != []
  {
    if bc.IsFormat() then NO_LEVEL
    else if bc == ParagraphSeparator then base
    else if bc == PopDirectionalIsolate then Top(after).level
    else Top(before).level
  }

  /** Its class once the override status is applied. */
  function ClassBetween(before: XState, after: XState, bc: BidiClass): BidiClass
    requires before.stack != [] && after.stack != []
  {
    if bc.IsFormat() || bc == ParagraphSeparator then bc
    else if bc == PopDirectionalIsolate then Top(after).overriding.Apply(bc)
    else Top(before).overriding.Apply(bc)
  }

  /** The level of character `i` after rule X9. */
  function LevelAt(types: seq<BidiClass>, base: Level, i: nat): (level: Level)
    requires i < |types| && 0 <= base <= 1
    requires RunTo(types, base, SOURCE_CAPACITY, i + 1).Some?
    ensures level == NO_LEVEL <==> types[i].IsFormat()
    ensures level == NO_LEVEL || base <= level <= MAX_DEPTH
  {
    var before, after := RunTo(types, base, SOURCE_CAPACITY, i).value, RunTo(types, base, SOURCE_CAPACITY, i + 1).value;
    LevelBetween(before, after, types[i], base)
  }

  /** The class of character `i` after rules X1-X8. */
  function ClassAt(types: seq<BidiClass>, base: Level, i: nat): (bc: BidiClass)
    requires i < |types| && 0 <= base <= 1
    requires RunTo(types, base, SOURCE_CAPACITY, i + 1).Some?
    ensures bc == types[i] || bc in {LeftToRight, RightToLeft}
    ensures bc.IsFormat() <==> types[i].IsFormat()
  {
    var before, after := RunTo(types, base, SOURCE_CAPACITY, i).value, RunTo(types, base, SOURCE_CAPACITY, i + 1).value;
    ClassBetween(before, after, types[i])
  }

  lemma {:induction false} RunPrefix(types: seq<BidiClass>, base: Level, capacity: nat, n: nat, m: nat)
    requires n <= m <= |types| && 0 <= base <= 1
    requires RunTo(types, base, capacity, m).Some?
    ensures RunTo(types, base, capacity, n).Some?
    decreases m - n
  {
    hide Step, Sound, FsiIsRtl;
    if n < m { RunPrefix(types, base, capacity, n, m - 1); }
  }

  lemma {:induction false} Panicked(types: seq<BidiClass>, base: Level, capacity: nat, n: nat)
    requires n <= |types| && 0 <= base <= 1
    requires RunTo(types, base, capacity, n).None?
    ensures RunTo(types, base, capacity, |types|).None?
  {
    if RunTo(types, base, capacity, |types|).Some? { RunPrefix(types, base, capacity, n, |types|); }
  }

  /** The first `n` characters have the classes and, format characters aside, the
      levels that rules X1-X8 give; the others have the classes they came with. */
  ghost predicate Embedded(types: seq<BidiClass>, base: Level, n: nat, classes: seq<BidiClass>, levels: seq<Level>) {
    && 0 <= base <= 1
    && n <= |types| == |classes| == |levels|
    && RunTo(types, base, SOURCE_CAPACITY, n).Some?
    && (forall i :: n <= i < |types| ==> classes[i] == types[i])
    && (forall i :: 0 <= i < n ==> EmbeddedAt(types, base, i, classes[i], levels[i]))
  }

  ghost predicate EmbeddedAt(types: seq<BidiClass>, base: Level, i: nat, bc: BidiClass, level: Level)
    requires i < |types| && 0 <= base <= 1
  {
    && RunTo(types, base, SOURCE_CAPACITY, i + 1).Some?
    && bc == ClassAt(types, base, i)
    && (!types[i].IsFormat() ==> level == LevelAt(types, base, i))
  }

  /** What X1-X9 make of a paragraph: a function of the classes and the base level. */
  ghost predicate Explained(types: seq<BidiClass>, base: Level, classes: seq<BidiClass>, levels: seq<Level>) {
    && 0 <= base <= 1
    && |types| == |classes| == |levels|
    && RunTo(types, base, SOURCE_CAPACITY, |types|).Some?
    && (forall i :: 0 <= i < |types| ==> ExplainedAt(types, base, i, classes[i], levels[i]))
  }

  ghost predicate ExplainedAt(types: seq<BidiClass>, base: Level, i: nat, bc: BidiClass, level: Level)
    requires i < |types| && 0 <= base <= 1
  {
    && RunTo(types, base, SOURCE_CAPACITY, i + 1).Some?
    && bc == ClassAt(types, base, i)
    && level == LevelAt(types, base, i)
  }

  /** The result depends on nothing else, in particular not on the levels that a
      reused context still holds. */
  lemma ExplainedUnique(types: seq<BidiClass>, base: Level, c1: seq<BidiClass>, l1: seq<Level>, c2: seq<BidiClass>, l2: seq<Level>)
    requires Explained(types, base, c1, l1) && Explained(types, base, c2, l2)
    ensures c1 == c2 && l1 == l2
  {
    hide RunTo, ClassAt, LevelAt;
    forall i | 0 <= i < |types|
      ensures c1[i] == c2[i] && l1[i] == l2[i]
    {
      assert ExplainedAt(types, base, i, c1[i], l1[i]) && ExplainedAt(types, base, i, c2[i], l2[i]);
    }
  }

  lemma RunStart(types: seq<BidiClass>, base: Level, capacity: nat)
    requires 0 <= base <= 1
    ensures RunTo(types, base, capacity, 0) == Some(Initial(base))
    ensures forall levels: seq<Level> :: |levels| == |types| ==> Embedded(types, base, 0, types, levels)
  {
  }

  lemma EmbeddedNext(types: seq<BidiClass>, base: Level, n: nat, classes: seq<BidiClass>, levels: seq<Level>, bc: BidiClass, level: Level)
    requires n < |types| && Embedded(types, base, n, classes, levels)
    requires RunTo(types, base, SOURCE_CAPACITY, n + 1).Some?
    requires var before, after := RunTo(types, base, SOURCE_CAPACITY, n).value, RunTo(types, base, SOURCE_CAPACITY, n + 1).value;
      && bc == ClassBetween(before, after, types[n])
      && (!types[n].IsFormat() ==> level == LevelBetween(before, after, types[n], base))
    ensures Embedded(types, base, n + 1, classes[n := bc], levels[n := level])
  {
    assert EmbeddedAt(types, base, n, bc, level);
  }

  /** The direction of an isolate depends only on what follows it. */
  lemma SameDirection(a: seq<BidiClass>, b: seq<BidiClass>, i: nat)
    requires i < |a| == |b| && forall k :: i <= k < |a| ==> a[k] == b[k]
    ensures FsiIsRtl(a, i) == FsiIsRtl(b, i)
  {
    assert a[i + 1..] == b[i + 1..];
  }

  // ----- A paragraph on which the source panics -----

  function Ladder(n: nat): (stack: seq<Status>)
    ensures |stack| == n
  {
    seq(n, i => Status(i, Neutral, false))
  }

  /** 124 embeddings, turn and turn about, then a right-to-left isolate and its PDI. */
  function Overfull(): (types: seq<BidiClass>)
    ensures |types| == MAX_DEPTH + 1
  {
    seq(MAX_DEPTH - 1, i => if i % 2 == 0 then RightToLeftEmbedding else LeftToRightEmbedding)
    + [RightToLeftIsolate, PopDirectionalIsolate]
  }

  lemma {:induction false} ClimbLadder(n: nat)
    requires n < MAX_DEPTH
    ensures RunTo(Overfull(), 0, SOURCE_CAPACITY, n) == Some(XState(Ladder(n + 1), 0, 0, 0))
  {
    hide Step, FsiIsRtl;
    if n == 0 {
      assert Ladder(1) == [Status(0, Neutral, false)];
    } else {
      ClimbLadder(n - 1);
      var bc := Overfull()[n - 1];
      LadderStep(n, bc, FsiIsRtl(Overfull(), n - 1));
      RunNext(Overfull(), 0, SOURCE_CAPACITY, n - 1);
    }
  }

  lemma LadderStep(n: nat, bc: BidiClass, rtlIsolate: bool)
    requires 0 < n < MAX_DEPTH
    requires bc == if (n - 1) % 2 == 0 then RightToLeftEmbedding else LeftToRightEmbedding
    ensures Step(XState(Ladder(n), 0, 0, 0), bc, rtlIsolate, SOURCE_CAPACITY) == Some(XState(Ladder(n + 1), 0, 0, 0))
  {
    assert Requested(bc, rtlIsolate, n - 1) == Some(n);
    assert Ladder(n + 1) == Ladder(n) + [Status(n, Neutral, false)];
  }

  lemma {:induction false} NoIsolateBelow(n: nat)
    ensures DownToIsolate(Ladder(n)) == None
  {
    if n > 0 {
      assert Ladder(n)[..n - 1] == Ladder(n - 1);
      NoIsolateBelow(n - 1);
    }
  }

  /** The isolate is counted although its entry was ignored, and its PDI then pops
      the whole stack without meeting an isolate entry. */
  lemma OverfullPanics()
    ensures RunTo(Overfull(), 0, SOURCE_CAPACITY, MAX_DEPTH + 1) == None
  {
    hide RunTo, FsiIsRtl;
    var types := Overfull();
    ClimbLadder(MAX_DEPTH - 1);
    var st := XState(Ladder(MAX_DEPTH), 0, 0, 0);
    assert Requested(RightToLeftIsolate, FsiIsRtl(types, MAX_DEPTH - 1), 124) == Some(125);
    RunNext(types, 0, SOURCE_CAPACITY, MAX_DEPTH - 1);
    RunNext(types, 0, SOURCE_CAPACITY, MAX_DEPTH);
    NoIsolateBelow(MAX_DEPTH);
  }

  lemma RunNext(types: seq<BidiClass>, base: Level, capacity: nat, n: nat)
    requires n < |types| && 0 <= base <= 1
    requires RunTo(types, base, capacity, n).Some?
    ensures RunTo(types, base, capacity, n + 1)
         == Step(RunTo(types, base, capacity, n).value, types[n], FsiIsRtl(types, n), capacity)
  {
  }
}
