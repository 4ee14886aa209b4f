/** BD13 as UAX #9 puts it: an isolating run sequence goes on from an isolate initiator
    with the run that starts with the matching PDI, and from nothing else. The gathering
    of runs does that exactly unless an isolate that overflows leads it astray. */
module Matching {
  import opened Wrappers
  import opened BidiTypes
  import opened LevelStack
  import opened ParagraphLevels
  import opened Explicit
  import opened Isolates
  import opened Runs
  import opened Linking

  // ----- Matching initiators and PDIs -----

  /** The matching PDI of the initiator at `e`. */
  function MatchOf(types: seq<BidiClass>, e: nat): (j: Option<nat>)
    requires e < |types|
    ensures j.Some? ==> e < j.value < |types| && types[j.value] == PopDirectionalIsolate
  {
    MatchingPdi(types, e + 1, 1)
  }

  /** BD9 by depth: the matching PDI is the first that leaves the isolate. */
  lemma MatchByDepth(types: seq<BidiClass>, e: nat, j: nat)
    requires e < |types|
    ensures MatchOf(types, e) == Some(j) <==>
      e < j < |types| && types[j] == PopDirectionalIsolate && StaysOpen(types, e + 1, j) && Depth(types, e + 1, j) == 0
  {
    hide MatchingPdi;
    MatchingByDepth(types, e + 1, 1, j);
  }

  /** And up to it the isolate stays open. */
  lemma {:induction false} OpenToMatch(types: seq<BidiClass>, e: nat, n: nat)
    requires e < n <= |types|
    ensures StaysOpen(types, e + 1, n) <==> MatchOf(types, e).None? || n <= MatchOf(types, e).value
  {
    hide MatchOf, Depth;
    if n == e + 1 {
      assert StaysOpen(types, e + 1, n) by { StaysStart(types, n); }
    } else {
      OpenToMatch(types, e, n - 1);
      StaysNext(types, e + 1, n - 1);
      MatchByDepth(types, e, n - 1);
      DepthNext(types, e + 1, n - 1);
    }
  }

  /** With more isolates open the outermost one is closed later. */
  lemma {:induction false} MoreOpen(types: seq<BidiClass>, i: nat, a: nat, b: nat)
    requires i <= |types| && 1 <= a < b && MatchingPdi(types, i, b).Some?
    ensures MatchingPdi(types, i, a).Some? && MatchingPdi(types, i, a).value < MatchingPdi(types, i, b).value
    decreases |types| - i
  {
    if types[i].IsIsoInit() {
      MoreOpen(types, i + 1, a + 1, b + 1);
    } else if types[i] == PopDirectionalIsolate {
      if a > 1 { MoreOpen(types, i + 1, a - 1, b - 1); }
    } else {
      MoreOpen(types, i + 1, a, b);
    }
  }

  /** Up to its matching PDI an isolate is open. */
  lemma {:induction false} OpenInside(types: seq<BidiClass>, e: nat, m: nat) returns (open: nat)
    requires e < m <= |types| && (MatchOf(types, e).Some? ==> m <= MatchOf(types, e).value)
    ensures open >= 1 && MatchingPdi(types, m, open) == MatchOf(types, e)
  {
    if m == e + 1 {
      open := 1;
    } else {
      open := OpenInside(types, e, m - 1);
      open := if types[m - 1].IsIsoInit() then open + 1 else if types[m - 1] == PopDirectionalIsolate then open - 1 else open;
    }
  }

  /** Inside an isolate that is closed every isolate is closed before. */
  lemma ClosedInside(types: seq<BidiClass>, e: nat, f: nat)
    requires e < f < |types| && types[f].IsIsoInit()
    requires MatchOf(types, e).Some? && f < MatchOf(types, e).value
    ensures MatchOf(types, f).Some? && MatchOf(types, f).value < MatchOf(types, e).value
  {
    var open := OpenInside(types, e, f);
    MoreOpen(types, f + 1, 1, open + 1);
  }

  /** A PDI matches one initiator. */
  lemma MatchInjective(types: seq<BidiClass>, e: nat, f: nat)
    requires e < |types| && f < |types| && types[e].IsIsoInit() && types[f].IsIsoInit()
    requires MatchOf(types, e) == MatchOf(types, f) && MatchOf(types, e).Some?
    ensures e == f
  {
    if e < f { ClosedInside(types, e, f); }
    if f < e { ClosedInside(types, f, e); }
  }

  /** Nothing but characters that X9 removes lies strictly between. */
  predicate Adjacent(types: seq<BidiClass>, e: nat, j: nat)
    requires j <= |types|
  {
    forall m :: e < m < j ==> types[m].IsFormat()
  }

  lemma {:induction false} AdjacentMatches(types: seq<BidiClass>, e: nat, j: nat)
    requires e < j < |types| && types[j] == PopDirectionalIsolate && Adjacent(types, e, j)
    ensures MatchOf(types, e) == Some(j)
  {
    AdjacentFrom(types, e + 1, j);
  }

  lemma {:induction false} AdjacentFrom(types: seq<BidiClass>, i: nat, j: nat)
    requires i <= j < |types| && types[j] == PopDirectionalIsolate && forall m :: i <= m < j ==> types[m].IsFormat()
    ensures MatchingPdi(types, i, 1) == Some(j)
    decreases j - i
  {
    if i < j { AdjacentFrom(types, i + 1, j); }
  }

  // ----- States and levels inside an isolate -----

  /** No push is ignored. */
  ghost predicate NoneIgnored(types: seq<BidiClass>, base: Level) {
    0 <= base <= 1 && NoFullPush(types, base, SOURCE_CAPACITY, |types|)
  }

  /** And only the last character may separate paragraphs (rule P1). */
  ghost predicate Unhindered(types: seq<BidiClass>, base: Level) {
    && NoneIgnored(types, base)
    && (forall k :: 0 <= k < |types| - 1 ==> types[k] != ParagraphSeparator)
  }

  function StateAt(types: seq<BidiClass>, base: Level, n: nat): (st: Option<XState>)
    requires n <= |types| && 0 <= base <= 1
    ensures st.Some? ==> Sound(st.value, base) && st.value.stack != [] && Top(st.value).level >= 0
  {
    var st := RunTo(types, base, SOURCE_CAPACITY, n);
    if st.Some? then SoundTop(st.value, base); st else None
  }

  lemma StateThere(types: seq<BidiClass>, base: Level, n: nat)
    requires NoneIgnored(types, base) && n <= |types|
    ensures StateAt(types, base, n).Some?
  {
    hide FullPush, FsiIsRtl, Sound, RunTo;
    RunKeeps(types, base, SOURCE_CAPACITY, n);
  }

  /** The isolate that begins at `e` overflows. */
  predicate Overflowed(types: seq<BidiClass>, base: Level, e: nat)
    requires e < |types| && 0 <= base <= 1
  {
    types[e].IsIsoInit() && StateAt(types, base, e + 1).Some? && StateAt(types, base, e + 1).value.overflowIsolate > 0
  }

  /** Up to its matching PDI an isolate stays open: with an entry of its own on the stack
      unless it overflows, whatever overflows inside. */
  lemma {:induction false} InsideUnder(types: seq<BidiClass>, base: Level, e: nat, m: nat) returns (open: nat, valid: nat)
    requires NoneIgnored(types, base) && e < m <= |types| && types[e].IsIsoInit()
    requires MatchOf(types, e).Some? ==> m <= MatchOf(types, e).value
    ensures StateAt(types, base, e).Some? && StateAt(types, base, m).Some?
    ensures open >= 1 && (valid >= 1 <==> !Overflowed(types, base, e))
    ensures Under(StateAt(types, base, e).value, StateAt(types, base, m).value, open, valid)
    ensures MatchingPdi(types, m, open) == MatchOf(types, e)
  {
    hide Under, Step, FsiIsRtl, FullPush, Sound, RunTo, NoFullPush;
    StateNext(types, base, e);
    var outer := StateAt(types, base, e).value;
    if m == e + 1 {
      open := 1;
      valid := EnterIsolate(outer, types[e], FsiIsRtl(types, e), SOURCE_CAPACITY);
    } else {
      open, valid := InsideUnder(types, base, e, m - 1);
      StateNext(types, base, m - 1);
      valid := StepUnder(outer, StateAt(types, base, m - 1).value, types[m - 1], FsiIsRtl(types, m - 1), SOURCE_CAPACITY, open, valid);
      open := OpenAfter(types[m - 1], open);
    }
  }

  lemma StateNext(types: seq<BidiClass>, base: Level, n: nat)
    requires NoneIgnored(types, base) && n < |types|
    ensures StateAt(types, base, n).Some?
    ensures StateAt(types, base, n + 1) == Step(StateAt(types, base, n).value, types[n], FsiIsRtl(types, n), SOURCE_CAPACITY)
    ensures StateAt(types, base, n + 1).Some?
    ensures !FullPush(StateAt(types, base, n).value, types[n], FsiIsRtl(types, n), SOURCE_CAPACITY)
  {
    StateThere(types, base, n);
    StateThere(types, base, n + 1);
    hide Step, FsiIsRtl, FullPush, Sound;
  }

  lemma UnderHigher(outer: XState, st: XState, open: nat, valid: nat, base: Level)
    requires Under(outer, st, open, valid) && valid >= 1
    requires Sound(outer, base) && Sound(st, base)
    ensures outer.stack != [] && st.stack != [] && Top(outer).level < Top(st).level
  {
    var n := |outer.stack|;
    assert st.stack[..n][n - 1] == st.stack[n - 1];
  }

  /** The state that gives a character its level and class. */
  function StateOf(types: seq<BidiClass>, base: Level, n: nat): Option<XState>
    requires n < |types| && 0 <= base <= 1
  {
    StateAt(types, base, if types[n] == PopDirectionalIsolate then n + 1 else n)
  }

  lemma LevelInStates(types: seq<BidiClass>, base: Level, classes: seq<BidiClass>, levels: seq<Level>, n: nat)
    requires Explained(types, base, classes, levels) && n < |types|
    ensures StateOf(types, base, n).Some?
    ensures if types[n].IsFormat() then levels[n] == NO_LEVEL && classes[n] == types[n]
            else if types[n] == ParagraphSeparator then levels[n] == base && classes[n] == types[n]
            else levels[n] == Top(StateOf(types, base, n).value).level != NO_LEVEL
                 && classes[n] == Top(StateOf(types, base, n).value).overriding.Apply(types[n])
  {
    assert ExplainedAt(types, base, n, classes[n], levels[n]);
    hide RunTo, Explained;
  }

  lemma StateRestored(types: seq<BidiClass>, base: Level, e: nat)
    requires NoneIgnored(types, base) && e < |types| && types[e].IsIsoInit() && MatchOf(types, e).Some?
    ensures StateAt(types, base, MatchOf(types, e).value + 1) == StateAt(types, base, e)
  {
    hide RunTo, FullPush, FsiIsRtl, MatchingPdi;
    IsolateRestores(types, base, SOURCE_CAPACITY, e);
  }

  /** The state inside an isolate that gives character `m` its level. */
  lemma StateInside(types: seq<BidiClass>, base: Level, e: nat, m: nat) returns (open: nat, valid: nat)
    requires NoneIgnored(types, base) && e < m < |types| && types[e].IsIsoInit()
    requires MatchOf(types, e).Some? ==> m < MatchOf(types, e).value
    ensures StateAt(types, base, e).Some? && StateOf(types, base, m).Some?
    ensures Under(StateAt(types, base, e).value, StateOf(types, base, m).value, open, valid)
    ensures valid >= 1 <==> !Overflowed(types, base, e)
  {
    hide NoFullPush, RunTo, MatchOf, Under, Overflowed, StateAt;
    open, valid := InsideUnder(types, base, e, if types[m] == PopDirectionalIsolate then m + 1 else m);
  }

  /** Between an initiator that does not overflow and its matching PDI, or the end, every
      level is higher, whatever overflows there. */
  lemma Deeper(types: seq<BidiClass>, base: Level, classes: seq<BidiClass>, levels: seq<Level>, e: nat, m: nat)
    requires NoneIgnored(types, base) && Explained(types, base, classes, levels)
    requires e < m < |types| && types[e].IsIsoInit() && types[m] != ParagraphSeparator
    requires MatchOf(types, e).Some? ==> m < MatchOf(types, e).value
    requires !Overflowed(types, base, e)
    ensures levels[m] == NO_LEVEL || levels[m] > levels[e]
  {
    hide Under, RunTo, MatchOf, Explained, NoFullPush, Overflowed, Sound;
    var open, valid := StateInside(types, base, e, m);
    UnderHigher(StateAt(types, base, e).value, StateOf(types, base, m).value, open, valid, base);
    LevelInStates(types, base, classes, levels, e);
    LevelInStates(types, base, classes, levels, m);
  }

  /** Between an initiator that overflows and its matching PDI, or the end, every level is
      the same, and nothing is overridden unless the initiator is. */
  lemma AsDeep(types: seq<BidiClass>, base: Level, classes: seq<BidiClass>, levels: seq<Level>, e: nat, m: nat)
    requires NoneIgnored(types, base) && Explained(types, base, classes, levels)
    requires e < m < |types| && types[e].IsIsoInit() && types[m] != ParagraphSeparator && !types[m].IsFormat()
    requires MatchOf(types, e).Some? ==> m < MatchOf(types, e).value
    requires Overflowed(types, base, e)
    ensures levels[m] == levels[e] != NO_LEVEL
    ensures classes[e].IsIsoInit() ==> classes[m] == types[m]
  {
    hide RunTo, MatchOf, Explained, NoFullPush, Overflowed, StateAt;
    var open, valid := StateInside(types, base, e, m);
    assert StateOf(types, base, m).value.stack == StateAt(types, base, e).value.stack;
    LevelInStates(types, base, classes, levels, e);
    LevelInStates(types, base, classes, levels, m);
  }

  /** The matching PDI has the level of the initiator, and is overridden if that is. */
  lemma MatchLevel(types: seq<BidiClass>, base: Level, classes: seq<BidiClass>, levels: seq<Level>, e: nat)
    requires NoneIgnored(types, base) && Explained(types, base, classes, levels)
    requires e < |types| && types[e].IsIsoInit() && MatchOf(types, e).Some?
    ensures levels[MatchOf(types, e).value] == levels[e] != NO_LEVEL
    ensures classes[e].IsIsoInit() ==> classes[MatchOf(types, e).value] == PopDirectionalIsolate
  {
    hide RunTo, StateAt, MatchOf, Explained, NoFullPush;
    var j := MatchOf(types, e).value;
    StateRestored(types, base, e);
    LevelInStates(types, base, classes, levels, e);
    LevelInStates(types, base, classes, levels, j);
  }

}
