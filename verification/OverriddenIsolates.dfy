/** An initiator that is overridden has the class L or R, and so has its matching PDI. The
    source does not link the two. Without brackets that makes no difference; with a pair that
    reaches over the isolate it does. */
module OverriddenIsolates {
  import opened Wrappers
  import opened BidiTypes
  import opened LevelStack
  import opened ParagraphLevels
  import opened Explicit
  import opened Runs
  import opened Linking
  import opened Matching
  import opened Following
  import opened NextCharacter
  import opened TextChains
  import opened Rules
  import opened Brackets
  import opened BracketOverflow
  import opened Resolution
  import opened MarksAfterControls
  import opened ChainCores
  import opened SequenceEnds
  import opened Conformance
  import Determined
  import UaxOutcome
  import Weak
  import Neutral

  // ----- Two parts of a sequence that meet between strong characters -----

  /** The first part ends in L or R, and the second one begins with L or R. */
  predicate MeetStrong(x: seq<BidiClass>, y: seq<BidiClass>) {
    && x != [] && x[|x| - 1] in {LeftToRight, RightToLeft}
    && y != [] && y[0] in {LeftToRight, RightToLeft}
  }

  /** The sequence as a whole, and its two parts, as far as the rules ask. */
  predicate PartsOf(whole: IsoRun, first: IsoRun, second: IsoRun) {
    && whole.level == first.level == second.level
    && whole.sos == first.sos && whole.eos == second.eos
  }

  /** `z` holds `y` from `n` on. */
  ghost predicate HoldsAt(z: seq<BidiClass>, y: seq<BidiClass>, n: nat) {
    n + |y| <= |z| && forall j :: n <= j < n + |y| ==> z[j] == y[j - n]
  }

  predicate StartsStrong(y: seq<BidiClass>) {
    y != [] && (y[0] == LeftToRight || y[0] == RightToLeft)
  }

  predicate EndsStrong(x: seq<BidiClass>) {
    x != [] && (x[|x| - 1] == LeftToRight || x[|x| - 1] == RightToLeft)
  }

  lemma StrongHere(cs: seq<BidiClass>, k: nat, sos: BidiClass, strong: set<BidiClass>)
    requires 0 < k <= |cs|
    ensures Weak.StrongBefore(cs, k, sos, strong) == if cs[k - 1] in strong then cs[k - 1] else Weak.StrongBefore(cs, k - 1, sos, strong)
  {
  }

  lemma BaseHere(cs: seq<BidiClass>, k: nat, sos: BidiClass)
    requires 0 < k <= |cs|
    ensures Weak.BaseBefore(cs, k, sos) == if cs[k - 1] != NonspacingMark then cs[k - 1] else Weak.BaseBefore(cs, k - 1, sos)
  {
  }

  lemma SideHere(cs: seq<BidiClass>, k: nat, sos: BidiClass)
    requires 0 < k <= |cs|
    ensures Neutral.SideBefore(cs, k, sos) == if cs[k - 1].IsNeutral() then Neutral.SideBefore(cs, k - 1, sos) else Neutral.SideOf(cs[k - 1])
  {
  }

  lemma SideNext(cs: seq<BidiClass>, k: nat, eos: BidiClass)
    requires k < |cs|
    ensures Neutral.SideFrom(cs, k, eos) == if cs[k].IsNeutral() then Neutral.SideFrom(cs, k + 1, eos) else Neutral.SideOf(cs[k])
  {
  }

  lemma {:induction false} StrongBeforePart(z: seq<BidiClass>, y: seq<BidiClass>, n: nat, k: nat, a: BidiClass, b: BidiClass, strong: set<BidiClass>)
    requires HoldsAt(z, y, n) && StartsStrong(y) && 0 < k <= |y| && LeftToRight in strong && RightToLeft in strong
    ensures Weak.StrongBefore(z, n + k, a, strong) == Weak.StrongBefore(y, k, b, strong)
  {
    hide Weak.StrongBefore;
    assert z[n + k - 1] == y[k - 1];
    StrongHere(z, n + k, a, strong);
    StrongHere(y, k, b, strong);
    if k > 1 { StrongBeforePart(z, y, n, k - 1, a, b, strong); }
  }

  lemma {:induction false} BaseBeforePart(z: seq<BidiClass>, y: seq<BidiClass>, n: nat, k: nat, a: BidiClass, b: BidiClass)
    requires HoldsAt(z, y, n) && StartsStrong(y) && 0 < k <= |y|
    ensures Weak.BaseBefore(z, n + k, a) == Weak.BaseBefore(y, k, b)
  {
    hide Weak.BaseBefore;
    assert z[n + k - 1] == y[k - 1];
    BaseHere(z, n + k, a);
    BaseHere(y, k, b);
    if k > 1 { BaseBeforePart(z, y, n, k - 1, a, b); }
  }

  lemma {:induction false} NumberBeforePart(z: seq<BidiClass>, y: seq<BidiClass>, n: nat, k: nat)
    requires HoldsAt(z, y, n) && StartsStrong(y) && 0 < k <= |y|
    ensures Weak.NumberBefore(z, n + k) == Weak.NumberBefore(y, k)
  {
    assert z[n + k - 1] == y[k - 1];
    if k > 1 { NumberBeforePart(z, y, n, k - 1); }
  }

  lemma {:induction false} NumberAfterPart(z: seq<BidiClass>, x: seq<BidiClass>, k: nat)
    requires HoldsAt(z, x, 0) && EndsStrong(x) && k + 1 < |x|
    ensures Weak.NumberAfter(z, k) == Weak.NumberAfter(x, k)
    decreases |x| - k
  {
    assert z[k + 1] == x[k + 1];
    if k + 2 < |x| { NumberAfterPart(z, x, k + 1); }
  }

  lemma {:induction false} NumberAfterLater(z: seq<BidiClass>, y: seq<BidiClass>, n: nat, k: nat)
    requires HoldsAt(z, y, n) && n + |y| == |z| && k < |y|
    ensures Weak.NumberAfter(z, n + k) == Weak.NumberAfter(y, k)
    decreases |y| - k
  {
    if k + 1 < |y| {
      assert z[n + k + 1] == y[k + 1];
      NumberAfterLater(z, y, n, k + 1);
    }
  }

  lemma {:induction false} SideBeforePart(z: seq<BidiClass>, y: seq<BidiClass>, n: nat, k: nat, a: BidiClass, b: BidiClass)
    requires HoldsAt(z, y, n) && StartsStrong(y) && 0 < k <= |y|
    ensures Neutral.SideBefore(z, n + k, a) == Neutral.SideBefore(y, k, b)
  {
    hide Neutral.SideBefore, Neutral.SideOf;
    assert z[n + k - 1] == y[k - 1];
    SideHere(z, n + k, a);
    SideHere(y, k, b);
    if k > 1 { SideBeforePart(z, y, n, k - 1, a, b); }
  }

  lemma {:induction false} SideFromPart(z: seq<BidiClass>, x: seq<BidiClass>, k: nat, a: BidiClass, b: BidiClass)
    requires HoldsAt(z, x, 0) && EndsStrong(x) && k < |x|
    ensures Neutral.SideFrom(z, k, a) == Neutral.SideFrom(x, k, b)
    decreases |x| - k
  {
    hide Neutral.SideFrom, Neutral.SideOf;
    assert z[k] == x[k];
    SideNext(z, k, a);
    SideNext(x, k, b);
    if k + 1 < |x| { SideFromPart(z, x, k + 1, a, b); }
  }

  lemma {:induction false} SideFromLater(z: seq<BidiClass>, y: seq<BidiClass>, n: nat, k: nat, eos: BidiClass)
    requires HoldsAt(z, y, n) && n + |y| == |z| && k <= |y|
    ensures Neutral.SideFrom(z, n + k, eos) == Neutral.SideFrom(y, k, eos)
    decreases |y| - k
  {
    if k < |y| {
      assert z[n + k] == y[k];
      SideFromLater(z, y, n, k + 1, eos);
    }
  }

  /** A rule leaves the strong characters where the parts meet. */
  lemma MeetingStays(rule: Rule, cs: seq<BidiClass>, run: IsoRun, k: nat)
    requires k < |cs| && cs[k] in {LeftToRight, RightToLeft}
    ensures Apply(rule, cs, run)[k] == cs[k]
  {
    hide Weak.StrongBefore, Weak.BaseBefore, Weak.NumberBefore, Weak.NumberAfter, Neutral.SideBefore, Neutral.SideFrom;
  }

  lemma FirstPart(rule: Rule, x: seq<BidiClass>, y: seq<BidiClass>, whole: IsoRun, first: IsoRun, second: IsoRun, k: nat)
    requires MeetStrong(x, y) && PartsOf(whole, first, second) && k < |x|
    ensures Apply(rule, x + y, whole)[k] == Apply(rule, x, first)[k]
  {
    hide Weak.StrongBefore, Weak.BaseBefore, Weak.NumberBefore, Weak.NumberAfter, Neutral.SideBefore, Neutral.SideFrom;
    if k == |x| - 1 {
      MeetingStays(rule, x + y, whole, k);
      MeetingStays(rule, x, first, k);
    } else {
      BaseBeforeSame(x + y, x, k, whole.sos);
      Weak.StrongBeforeSame(x + y, x, k, whole.sos, Weak.LETTERS);
      Weak.StrongBeforeSame(x + y, x, k, whole.sos, Weak.SIDES);
      NumberBeforeSame(x + y, x, k);
      NumberAfterPart(x + y, x, k);
      Neutral.SideBeforeSame(x + y, x, k, whole.sos);
      SideFromPart(x + y, x, k + 1, whole.eos, first.eos);
    }
  }

  lemma SecondPart(rule: Rule, z: seq<BidiClass>, y: seq<BidiClass>, n: nat, whole: IsoRun, second: IsoRun, k: nat)
    requires HoldsAt(z, y, n) && n + |y| == |z| && StartsStrong(y) && k < |y|
    requires whole.level == second.level && whole.eos == second.eos
    ensures Apply(rule, z, whole)[n + k] == Apply(rule, y, second)[k]
  {
    hide Weak.StrongBefore, Weak.BaseBefore, Weak.NumberBefore, Weak.NumberAfter, Neutral.SideBefore, Neutral.SideFrom;
    assert z[n + k] == y[k];
    if k == 0 {
      MeetingStays(rule, z, whole, n);
      MeetingStays(rule, y, second, 0);
    } else {
      assert z[n + k - 1] == y[k - 1] && (k + 1 < |y| ==> z[n + k + 1] == y[k + 1]);
      hide HoldsAt;
      BaseBeforePart(z, y, n, k, whole.sos, second.sos);
      StrongBeforePart(z, y, n, k, whole.sos, second.sos, Weak.LETTERS);
      StrongBeforePart(z, y, n, k, whole.sos, second.sos, Weak.SIDES);
      NumberBeforePart(z, y, n, k);
      NumberAfterLater(z, y, n, k);
      SideBeforePart(z, y, n, k, whole.sos, second.sos);
      SideFromLater(z, y, n, k + 1, whole.eos);
    }
  }

  /** Every rule does to the whole what it does to the parts. */
  lemma RuleOnParts(rule: Rule, x: seq<BidiClass>, y: seq<BidiClass>, whole: IsoRun, first: IsoRun, second: IsoRun)
    requires MeetStrong(x, y) && PartsOf(whole, first, second)
    ensures Apply(rule, x + y, whole) == Apply(rule, x, first) + Apply(rule, y, second)
    ensures MeetStrong(Apply(rule, x, first), Apply(rule, y, second))
  {
    hide Apply;
    forall k | 0 <= k < |x| ensures Apply(rule, x + y, whole)[k] == Apply(rule, x, first)[k] { FirstPart(rule, x, y, whole, first, second, k); }
    forall k | 0 <= k < |y| ensures Apply(rule, x + y, whole)[|x| + k] == Apply(rule, y, second)[k] {
      SecondPart(rule, x + y, y, |x|, whole, second, k);
    }
    forall k | |x| <= k < |x + y| ensures Apply(rule, x + y, whole)[k] == Apply(rule, y, second)[k - |x|] {
      SecondPart(rule, x + y, y, |x|, whole, second, k - |x|);
    }
    MeetingStays(rule, x, first, |x| - 1);
    MeetingStays(rule, y, second, 0);
  }

  /** Cutting a sequence between two strong characters changes no class that W1-W7, N1 and N2
      give, whatever the directions at the cut. So without brackets an overridden isolate
      need not be linked. */
  lemma UnlinkedHarmless(x: seq<BidiClass>, y: seq<BidiClass>, whole: IsoRun, first: IsoRun, second: IsoRun)
    requires MeetStrong(x, y) && PartsOf(whole, first, second)
    ensures Weakened(x + y, whole) == Weakened(x, first) + Weakened(y, second)
    ensures Neutralized(Weakened(x + y, whole), whole) == Neutralized(Weakened(x, first), first) + Neutralized(Weakened(y, second), second)
  {
    hide Apply;
    RuleOnParts(RuleW1, x, y, whole, first, second);
    var x1, y1 := Apply(RuleW1, x, first), Apply(RuleW1, y, second);
    RuleOnParts(RuleW2, x1, y1, whole, first, second);
    var x2, y2 := Apply(RuleW2, x1, first), Apply(RuleW2, y1, second);
    RuleOnParts(RuleW3, x2, y2, whole, first, second);
    var x3, y3 := Apply(RuleW3, x2, first), Apply(RuleW3, y2, second);
    RuleOnParts(RuleW4, x3, y3, whole, first, second);
    var x4, y4 := Apply(RuleW4, x3, first), Apply(RuleW4, y3, second);
    RuleOnParts(RuleW5, x4, y4, whole, first, second);
    var x5, y5 := Apply(RuleW5, x4, first), Apply(RuleW5, y4, second);
    RuleOnParts(RuleW6, x5, y5, whole, first, second);
    var x6, y6 := Apply(RuleW6, x5, first), Apply(RuleW6, y5, second);
    RuleOnParts(RuleW7, x6, y6, whole, first, second);
    var x7, y7 := Apply(RuleW7, x6, first), Apply(RuleW7, y6, second);
    RuleOnParts(RuleN1, x7, y7, whole, first, second);
    RuleOnParts(RuleN2, Apply(RuleN1, x7, first), Apply(RuleN1, y7, second), whole, first, second);
  }

  /** And that is how an unlinked initiator and its matching PDI stand: one level, and one
      strong class for both. */
  lemma UnlinkedMeet(types: seq<BidiClass>, base: Level, classes: seq<BidiClass>, levels: seq<Level>, e: nat)
    requires NoneIgnored(types, base) && Explained(types, base, classes, levels)
    requires e < |types| == |classes| == |levels| && Unlinked(types, classes, levels, e)
    ensures var j := MatchOf(types, e).value; j < |levels| && levels[j] == levels[e] && classes[j] == classes[e] && classes[e] in {LeftToRight, RightToLeft}
  {
    hide NoneIgnored, Explained, MatchOf, StateAt, FirstLive;
    var j := MatchOf(types, e).value;
    StateRestored(types, base, e);
    MatchLevel(types, base, classes, levels, e);
    LevelInStates(types, base, classes, levels, e);
    LevelInStates(types, base, classes, levels, j);
  }

  // ----- A pair that reaches over an overridden isolate -----

  /** LRE R ( R PDF LRO RLI a PDI PDF LRE ) */
  const REACHING: seq<BidiClass> := [LeftToRightEmbedding, RightToLeft, OtherNeutral, RightToLeft, PopDirectionalFormat, LeftToRightOverride,
                                     RightToLeftIsolate, LeftToRight, PopDirectionalIsolate, PopDirectionalFormat, LeftToRightEmbedding, OtherNeutral]

  const REACHING_TEXT: string := "aa(aaaaaaaa)"

  const REACHING_CLASSES: seq<BidiClass> := [LeftToRightEmbedding, RightToLeft, OtherNeutral, RightToLeft, PopDirectionalFormat, LeftToRightOverride,
                                             LeftToRight, LeftToRight, LeftToRight, PopDirectionalFormat, LeftToRightEmbedding, OtherNeutral]

  const REACHING_LEVELS: seq<Level> := [NO_LEVEL, 2, 2, 2, NO_LEVEL, NO_LEVEL, 2, 3, 2, NO_LEVEL, NO_LEVEL, 2]

  /** The state before the n-th character. */
  function ReachingState(n: nat): XState {
    var bottom := Status(0, Override.Neutral, false);
    if 1 <= n <= 4 || 11 <= n then XState([bottom, Status(2, Override.Neutral, false)], 0, 0, 0)
    else if n == 6 || n == 9 then XState([bottom, Status(2, LTR, false)], 0, 0, 0)
    else if n == 7 || n == 8 then XState([bottom, Status(2, LTR, false), Status(3, Override.Neutral, true)], 0, 0, 1)
    else XState([bottom], 0, 0, 0)
  }

  lemma EarlyStep(n: nat, rtlIsolate: bool)
    requires n < 6
    ensures Step(ReachingState(n), REACHING[n], rtlIsolate, SOURCE_CAPACITY) == Some(ReachingState(n + 1))
  {
    var bottom, plain, overridden := Status(0, Override.Neutral, false), Status(2, Override.Neutral, false), Status(2, LTR, false);
    if n == 0 {
      assert [bottom] + [plain] == [bottom, plain];
    } else if n == 4 {
      assert [bottom, plain][..1] == [bottom];
    } else if n == 5 {
      assert [bottom] + [overridden] == [bottom, overridden];
    }
  }

  lemma LateStep(n: nat, rtlIsolate: bool)
    requires 6 <= n < 12
    ensures Step(ReachingState(n), REACHING[n], rtlIsolate, SOURCE_CAPACITY) == Some(ReachingState(n + 1))
  {
    var bottom, plain, overridden := Status(0, Override.Neutral, false), Status(2, Override.Neutral, false), Status(2, LTR, false);
    var inside := Status(3, Override.Neutral, true);
    if n == 6 {
      assert [bottom, overridden] + [inside] == [bottom, overridden, inside];
    } else if n == 8 {
      assert [bottom, overridden, inside][..2] == [bottom, overridden];
    } else if n == 9 {
      assert [bottom, overridden][..1] == [bottom];
    } else if n == 10 {
      assert [bottom] + [plain] == [bottom, plain];
    }
  }

  lemma FewEntries(n: nat, bc: BidiClass, rtlIsolate: bool)
    ensures ReachingState(n).stack != [] && Top(ReachingState(n)).level >= 0
    ensures !FullPush(ReachingState(n), bc, rtlIsolate, SOURCE_CAPACITY)
  {
    hide Requested;
  }

  lemma {:induction false} ReachingStates(n: nat)
    requires n <= 12
    ensures RunTo(REACHING, 0, SOURCE_CAPACITY, n) == Some(ReachingState(n))
  {
    hide Step, FsiIsRtl, FullPush, ReachingState;
    if n == 0 {
      ReachingStart();
    } else {
      ReachingStates(n - 1);
      var rtlIsolate := FsiIsRtl(REACHING, n - 1);
      if n <= 6 { EarlyStep(n - 1, rtlIsolate); } else { LateStep(n - 1, rtlIsolate); }
      Explicit.RunNext(REACHING, 0, SOURCE_CAPACITY, n - 1);
    }
  }

  lemma ReachingStart()
    ensures Initial(0) == ReachingState(0)
  {
  }

  lemma ReachingRoom()
    ensures Unhindered(REACHING, 0)
  {
    hide RunTo, FullPush, FsiIsRtl, Step, ReachingState;
    forall k | 0 <= k < 12
      ensures RunTo(REACHING, 0, SOURCE_CAPACITY, k) == Some(ReachingState(k))
      ensures var st := RunTo(REACHING, 0, SOURCE_CAPACITY, k); st.Some? ==> !FullPush(st.value, REACHING[k], FsiIsRtl(REACHING, k), SOURCE_CAPACITY)
    {
      ReachingStates(k);
      FewEntries(k, REACHING[k], FsiIsRtl(REACHING, k));
    }
  }

  lemma ReachingGiven(n: nat)
    requires n < 12
    ensures ReachingState(n).stack != [] && ReachingState(n + 1).stack != []
    ensures ClassBetween(ReachingState(n), ReachingState(n + 1), REACHING[n]) == REACHING_CLASSES[n]
    ensures LevelBetween(ReachingState(n), ReachingState(n + 1), REACHING[n], 0) == REACHING_LEVELS[n]
  {
  }

  lemma ReachingExplained(classes: seq<BidiClass>, levels: seq<Level>)
    requires Explained(REACHING, 0, classes, levels)
    ensures classes == REACHING_CLASSES && levels == REACHING_LEVELS
  {
    hide RunTo, ReachingState, ClassBetween, LevelBetween;
    forall n | 0 <= n < 12 ensures classes[n] == REACHING_CLASSES[n] && levels[n] == REACHING_LEVELS[n] {
      assert ExplainedAt(REACHING, 0, n, classes[n], levels[n]);
      ReachingStates(n);
      ReachingStates(n + 1);
      ReachingGiven(n);
    }
  }

  lemma ReachingLive(n: nat, m: nat)
    requires n <= m < 12 && REACHING_LEVELS[m] != NO_LEVEL && forall i :: n <= i < m ==> REACHING_LEVELS[i] == NO_LEVEL
    ensures FirstLive(REACHING_LEVELS, n, 12) == Some(m)
  {
    hide FirstLive;
    FirstLiveIs(REACHING_LEVELS, n, 12, m);
  }

  /** The characters at level 2, and those of them before the isolate is closed. */
  const WHOLE: seq<nat> := [1, 2, 3, 6, 8, 11]
  const FIRST: seq<nat> := [1, 2, 3, 6]

  function NextOf(list: seq<nat>, k: nat): Option<nat> {
    if k + 1 < |list| then Some(list[k + 1]) else None
  }

  lemma ReachingNext(k: nat)
    requires k < 6
    ensures WHOLE[k] < 12 && REACHING_LEVELS[WHOLE[k]] == 2
    ensures UaxNext(REACHING, REACHING_LEVELS, WHOLE[k]) == NextOf(WHOLE, k)
    ensures Unlinked(REACHING, REACHING_CLASSES, REACHING_LEVELS, WHOLE[k]) <==> k == 3
  {
    hide FirstLive;
    if k == 5 {
      NothingIn(REACHING_LEVELS, 12);
    } else if k == 3 {
      ReachingLive(7, 7);
      assert MatchingPdi(REACHING, 8, 1) == Some(8);
      assert MatchOf(REACHING, 6) == Some(8);
    } else {
      ReachingLive(WHOLE[k] + 1, WHOLE[k + 1]);
    }
  }

  lemma NoneParted(e: nat)
    requires e < 12
    ensures !PartedFrom(REACHING, REACHING_CLASSES, REACHING_LEVELS, e)
  {
  }

  /** In the chain the k-th of the list is followed by the next one. */
  ghost predicate ListLink(levels: seq<Level>, indices: seq<nat>, list: seq<nat>, k: nat)
    requires k < |list|
  {
    list[k] < |levels| && NextInChain(levels, indices, list[k], NextOf(list, k))
  }

  lemma {:induction false} InList(levels: seq<Level>, indices: seq<nat>, list: seq<nat>, x: nat, k: nat)
    requires x in indices && x < |levels| && levels[x] != NO_LEVEL && k < |list| && list[k] <= x
    requires forall h :: 0 <= h < |list| ==> ListLink(levels, indices, list, h)
    ensures x in list
    decreases |list| - k
  {
    if list[k] < x {
      assert ListLink(levels, indices, list, k);
      if k + 1 < |list| { InList(levels, indices, list, x, k + 1); }
    }
  }

  /** A chain that goes on as a list does holds the list. */
  lemma {:induction false} LinksOfNexts(levels: seq<Level>, indices: seq<nat>, list: seq<nat>, n: nat)
    requires n < |list| && list[0] in indices
    requires forall k :: 0 <= k < |list| && list[k] in indices ==> ListLink(levels, indices, list, k)
    ensures list[n] in indices && ListLink(levels, indices, list, n)
  {
    hide ListLink;
    if n > 0 {
      LinksOfNexts(levels, indices, list, n - 1);
      LinkHolds(levels, indices, list, n - 1);
    }
  }

  lemma LinkHolds(levels: seq<Level>, indices: seq<nat>, list: seq<nat>, k: nat)
    requires k < |list| && ListLink(levels, indices, list, k)
    ensures k + 1 < |list| ==> list[k + 1] in indices
  {
  }

  /** A chain that goes on as a list does is the list, apart from what was removed. */
  lemma CoreIsList(types: seq<BidiClass>, levels: seq<Level>, indices: seq<nat>, list: seq<nat>)
    requires |types| == |levels| && Bounded(levels, indices) && Increasing(indices) && Increasing(list) && list != []
    requires forall i :: 0 <= i < |types| ==> types[i] != ParagraphSeparator
    requires IsFirst(levels, indices, list[0])
    requires forall k :: 0 <= k < |list| ==> ListLink(levels, indices, list, k)
    ensures Core(types, levels, indices) == list
  {
    hide Core, Increasing;
    var core := Core(types, levels, indices);
    CoreIncreasing(types, levels, indices);
    forall k | 0 <= k < |list| ensures list[k] < |levels| && list[k] in indices && levels[list[k]] != NO_LEVEL {
      if k > 0 { assert ListLink(levels, indices, list, k - 1); }
    }
    forall x ensures x in core <==> x in list {
      InCore(types, levels, indices, x);
      if x in core { InList(levels, indices, list, x, 0); }
    }
    Determined.IncreasingUnique(core, list);
  }

  // ----- There the source has one sequence for the first part -----

  lemma ReachingGathered(st: Stages, classes: seq<BidiClass>, levels: seq<Level>, paragraph: seq<char>, lookup: BracketTable)
    requires Resolved(REACHING, 0, paragraph, lookup, st, classes, levels)
    ensures st.explicitClasses == REACHING_CLASSES && st.explicitLevels == REACHING_LEVELS
    ensures Gathered(REACHING, 0, REACHING_CLASSES, REACHING_LEVELS, st.runs, st.isoRuns) && Finished(st.runs, st.isoRuns)
    ensures Chains(REACHING_LEVELS, st.isoRuns) && InRange(REACHING_CLASSES, REACHING_LEVELS, st.runs)
  {
    hide Explained, Unhindered, AllWeakened, N0, AllNeutralized, LiveClasses, Levelled, Tiling, TailRemoved, Partition, Greedy, Finished,
      RunsEnded, SequencesEnded, Chains;
    ReachingRoom();
    ReachingExplained(st.explicitClasses, st.explicitLevels);
    TilingInRange(st.explicitClasses, st.explicitLevels, st.runs);
    SequencesAreChains(st.explicitClasses, st.explicitLevels, st.runs, st.isoRuns);
  }

  /** How a chain of the source goes on from a character at level 2. */
  lemma ReachingSourceNext(runs: seq<Run>, isoRuns: seq<IsoRun>, s: nat, i: nat)
    requires Gathered(REACHING, 0, REACHING_CLASSES, REACHING_LEVELS, runs, isoRuns) && Finished(runs, isoRuns)
    requires s < |isoRuns| && i in isoRuns[s].indices && i < 12 && REACHING_LEVELS[i] != NO_LEVEL
    ensures NextInChain(REACHING_LEVELS, isoRuns[s].indices, i,
              if Unlinked(REACHING, REACHING_CLASSES, REACHING_LEVELS, i) then None else UaxNext(REACHING, REACHING_LEVELS, i))
  {
    hide Gathered, Finished, NextInChain, UaxNext, Unlinked, PartedFrom, InRange, NextCharacter.RunNext;
    forall e | 0 <= e < |REACHING| ensures !PartedFrom(REACHING, REACHING_CLASSES, REACHING_LEVELS, e) { NoneParted(e); }
    var k, r := ChainNext(REACHING, 0, REACHING_CLASSES, REACHING_LEVELS, runs, isoRuns, s, i);
    RunNextIsRight(REACHING, 0, REACHING_CLASSES, REACHING_LEVELS, runs, isoRuns, s, k, r, i);
  }

  lemma ReachingSourceCore(runs: seq<Run>, isoRuns: seq<IsoRun>) returns (s: nat)
    requires Gathered(REACHING, 0, REACHING_CLASSES, REACHING_LEVELS, runs, isoRuns) && Finished(runs, isoRuns)
    requires Chains(REACHING_LEVELS, isoRuns)
    ensures s < |isoRuns| && Bounded(REACHING_LEVELS, isoRuns[s].indices) && Increasing(isoRuns[s].indices)
    ensures Core(REACHING, REACHING_LEVELS, isoRuns[s].indices) == FIRST
  {
    hide Gathered, Finished, UaxNext, Core, Chain, Disjoint, NextInChain, Unlinked;
    s := InSome(REACHING_LEVELS, isoRuns);
    hide Chains;
    var indices := isoRuns[s].indices;
    ChainParts(REACHING_LEVELS, isoRuns[s]);
    forall k | 0 <= k < 4 && FIRST[k] in indices ensures ListLink(REACHING_LEVELS, indices, FIRST, k) {
      ReachingNext(k);
      ReachingSourceNext(runs, isoRuns, s, FIRST[k]);
    }
    ReachingCore(indices, FIRST);
  }

  lemma InSome(levels: seq<Level>, isoRuns: seq<IsoRun>) returns (s: nat)
    requires Chains(levels, isoRuns) && |levels| > 1 && levels[1] != NO_LEVEL
    ensures s < |isoRuns| && 1 in isoRuns[s].indices && Chain(levels, isoRuns[s])
  {
    hide Chain;
    s :| 0 <= s < |isoRuns| && 1 in isoRuns[s].indices;
  }

  lemma ReachingCore(indices: seq<nat>, list: seq<nat>)
    requires list in {FIRST, WHOLE}
    requires Bounded(REACHING_LEVELS, indices) && Increasing(indices) && 1 in indices
    requires forall k :: 0 <= k < |list| && list[k] in indices ==> ListLink(REACHING_LEVELS, indices, list, k)
    ensures Core(REACHING, REACHING_LEVELS, indices) == list
  {
    hide Core, NextInChain, ListLink;
    forall k | 0 <= k < |list| ensures ListLink(REACHING_LEVELS, indices, list, k) { LinksOfNexts(REACHING_LEVELS, indices, list, k); }
    CoreIsList(REACHING, REACHING_LEVELS, indices, list);
  }

  lemma ReachingUaxCore(uax: seq<IsoRun>) returns (t: nat)
    requires UaxSequences(REACHING, REACHING_LEVELS, 0, uax)
    ensures t < |uax| && Bounded(REACHING_LEVELS, uax[t].indices) && Increasing(uax[t].indices) && uax[t].level == 2
    ensures Core(REACHING, REACHING_LEVELS, uax[t].indices) == WHOLE
  {
    hide UaxNext, Core, UaxSequence, Disjoint, NextInChain, Unlinked;
    t := InSomeUax(uax);
    var u := uax[t];
    hide UaxSequences;
    UaxIncreasing(REACHING, 0, REACHING_LEVELS, u);
    var a, b := UaxEnds(REACHING, 0, REACHING_LEVELS, u);
    forall k | 0 <= k < 6 && WHOLE[k] in u.indices ensures ListLink(REACHING_LEVELS, u.indices, WHOLE, k) {
      ReachingNext(k);
      UaxNextInChain(REACHING, 0, REACHING_LEVELS, u, WHOLE[k]);
    }
    ReachingCore(u.indices, WHOLE);
  }

  lemma InSomeUax(uax: seq<IsoRun>) returns (t: nat)
    requires UaxSequences(REACHING, REACHING_LEVELS, 0, uax)
    ensures t < |uax| && 1 in uax[t].indices && UaxSequence(REACHING, REACHING_LEVELS, 0, uax[t]) && Bounded(REACHING_LEVELS, uax[t].indices)
  {
    hide UaxSequence, Disjoint;
    assert REACHING_LEVELS[1] != NO_LEVEL;
    t :| 0 <= t < |uax| && 1 in uax[t].indices;
  }

  // ----- Classes -----

  /** W1-W7 leave letters and neutrals. */
  lemma PlainRule(rule: Rule, cs: seq<BidiClass>, run: IsoRun)
    requires forall k :: 0 <= k < |cs| ==> cs[k] in {LeftToRight, RightToLeft, OtherNeutral}
    requires !rule.RuleN1? && !rule.RuleN2?
    ensures Apply(rule, cs, run) == cs
  {
    hide Weak.StrongBefore, Weak.BaseBefore, Weak.NumberBefore, Weak.NumberAfter;
  }

  lemma PlainStays(cs: seq<BidiClass>, run: IsoRun)
    requires forall k :: 0 <= k < |cs| ==> cs[k] in {LeftToRight, RightToLeft, OtherNeutral}
    ensures Weakened(cs, run) == cs && UaxWeakened(cs, run) == cs
  {
    hide Apply, Weak.BaseBefore;
    PlainRule(RuleW1, cs, run);
    PlainRule(RuleW2, cs, run);
    PlainRule(RuleW3, cs, run);
    PlainRule(RuleW4, cs, run);
    PlainRule(RuleW5, cs, run);
    PlainRule(RuleW6, cs, run);
    PlainRule(RuleW7, cs, run);
    assert UaxW1(cs, run.sos) == cs;
  }

  lemma {:induction false} LiveList(types: seq<BidiClass>, levels: seq<Level>, list: seq<nat>)
    requires |types| == |levels| && Bounded(levels, list) && forall k :: 0 <= k < |list| ==> levels[list[k]] != NO_LEVEL
    ensures |Live(types, levels, list)| == |list| && forall k :: 0 <= k < |list| ==> Live(types, levels, list)[k] == types[list[k]]
  {
    if list != [] { LiveList(types, levels, list[..|list| - 1]); }
  }

  /** The classes along the core, after the weak rules. */
  lemma CoreClasses(weak: seq<BidiClass>, run: IsoRun, list: seq<nat>, uax: bool)
    requires Bounded(REACHING_LEVELS, run.indices) && |weak| == 12 && Bounded(REACHING_LEVELS, list)
    requires Core(REACHING, REACHING_LEVELS, run.indices) == list
    requires forall k :: 0 <= k < |list| ==> list[k] in {1, 2, 3, 6, 8, 11}
    requires var cs := Live(REACHING_CLASSES, REACHING_LEVELS, run.indices);
      Live(weak, REACHING_LEVELS, run.indices) == if uax then UaxWeakened(cs, run) else Weakened(cs, run)
    ensures forall k :: 0 <= k < |list| ==> weak[list[k]] == REACHING_CLASSES[list[k]]
  {
    hide Live, Weakened, UaxWeakened, Core;
    var levels := REACHING_LEVELS;
    LiveCore(REACHING_CLASSES, REACHING, levels, run.indices);
    LiveCore(weak, REACHING, levels, run.indices);
    assert SeparatorOf(weak, REACHING, levels, run.indices) == [] == SeparatorOf(REACHING_CLASSES, REACHING, levels, run.indices);
    LiveList(REACHING_CLASSES, levels, list);
    LiveList(weak, levels, list);
    var cs := Live(REACHING_CLASSES, levels, list);
    forall k | 0 <= k < |cs| ensures cs[k] in {LeftToRight, RightToLeft, OtherNeutral} { assert list[k] in {1, 2, 3, 6, 8, 11}; }
    PlainStays(cs, run);
    assert cs + [] == cs && Live(weak, levels, list) + [] == Live(weak, levels, list);
  }

  /** Removed characters keep their classes, and N0 reads nothing of them. */
  lemma ReachingQuiet(weak: seq<BidiClass>)
    requires |weak| == 12 && RemovedKept(REACHING_CLASSES, weak, REACHING_LEVELS)
    ensures IdleKept(weak, REACHING, REACHING_LEVELS)
  {
  }

  lemma {:induction false} FewWait(marks: seq<Mark>, n: nat)
    requires n <= |marks| && n <= MAX_PAIRING_DEPTH
    ensures Collect(marks, n).Some? && |Collect(marks, n).value.waiting| <= n
  {
    if n > 0 { FewWait(marks, n - 1); }
  }

  lemma {:induction false} IncreasingBound(c: seq<nat>, n: nat)
    requires Increasing(c) && forall k :: 0 <= k < |c| ==> c[k] < n
    ensures |c| <= n
    decreases n
  {
    if c != [] {
      var m := |c| - 1;
      forall k | 0 <= k < m ensures c[k] < n - 1 { assert c[k] < c[m]; }
      IncreasingBound(c[..m], n - 1);
    }
  }

  /** No sequence of so short a text overflows. */
  lemma NoneOverflows(weak: seq<BidiClass>, indices: seq<nat>)
    requires |weak| == 12 && Bounded(REACHING_LEVELS, indices) && Increasing(indices)
    ensures !Overflows(weak, REACHING_TEXT, Parentheses, indices)
  {
    hide Collect, Marks;
    IncreasingBound(indices, 12);
    FewWait(Marks(weak, REACHING_TEXT, Parentheses, indices), |indices|);
  }

  // ----- The two results -----

  /** N0 of the source finds no pair in the first part. */
  lemma FirstUnpaired(weak: seq<BidiClass>, run: IsoRun)
    requires |weak| == 12 && run.indices == FIRST
    ensures !Resolvable(weak, REACHING_TEXT, Parentheses, run.indices)
  {
    var marks := Marks(weak, REACHING_TEXT, Parentheses, run.indices);
    assert marks[0] == marks[2] == marks[3] == Other && !marks[1].Closing?;
    assert Collect(marks, 1) == Some(Pairing([], []));
    FewWait(marks, 4);
    assert Collect(marks, 2).Some? && Collect(marks, 2).value.pairs == [];
    assert Collect(marks, 4) == Collect(marks, 3) == Collect(marks, 2);
  }

  lemma SourcePaired(st: Stages, classes: seq<BidiClass>, levels: seq<Level>, s: nat)
    requires Resolved(REACHING, 0, REACHING_TEXT, Parentheses, st, classes, levels) && s < |st.isoRuns|
    requires st.explicitLevels == REACHING_LEVELS && Chains(REACHING_LEVELS, st.isoRuns)
    ensures BoundedRuns(REACHING_LEVELS, st.isoRuns)
    ensures OnItsOwn(st.weak, st.paired, REACHING, REACHING_LEVELS, st.isoRuns[s], REACHING_TEXT, Parentheses)
  {
    hide Explained, AllWeakened, N0, AllNeutralized, LiveClasses, Levelled, Tiling, TailRemoved, Partition, Greedy, Finished, RunsEnded,
      SequencesEnded, OnItsOwn, Overflows, Resolvable, Increasing;
    forall t | 0 <= t < |st.isoRuns|
      ensures Increasing(st.isoRuns[t].indices) && !Overflows(st.weak, REACHING_TEXT, Parentheses, st.isoRuns[t].indices)
    {
      assert Chain(REACHING_LEVELS, st.isoRuns[t]);
      NoneOverflows(st.weak, st.isoRuns[t].indices);
    }
    var n := StopsAt(st.weak, st.paired, REACHING, REACHING_LEVELS, st.isoRuns, REACHING_TEXT, Parentheses);
  }

  /** A chain of the paragraph through the rules, with the class of the opening bracket at
      the end. */
  ghost predicate Through(weak: seq<BidiClass>, paired: seq<BidiClass>, classes: seq<BidiClass>, run: IsoRun, list: seq<nat>) {
    && |weak| == |paired| == |classes| == 12 && Bounded(REACHING_LEVELS, run.indices) && Increasing(run.indices)
    && Core(REACHING, REACHING_LEVELS, run.indices) == list
    && IdleKept(weak, REACHING, REACHING_LEVELS)
    && (forall k :: 0 <= k < |list| ==> 0 <= list[k] < 12 && weak[list[k]] == REACHING_CLASSES[list[k]])
    && OnItsOwn(weak, paired, REACHING, REACHING_LEVELS, run, REACHING_TEXT, Parentheses)
    && Live(classes, REACHING_LEVELS, run.indices) == Neutralized(Live(paired, REACHING_LEVELS, run.indices), run)
  }

  lemma FirstThrough(weak: seq<BidiClass>, paired: seq<BidiClass>, classes: seq<BidiClass>, run: IsoRun)
    requires Through(weak, paired, classes, run, FIRST)
    ensures classes[2] == RightToLeft
  {
    hide Live, Neutralized, OnItsOwn, Core, OneStep, Resolvable, IdleKept, Increasing;
    var t := OwnOnCore(weak, paired, run, FIRST);
    FirstUnpaired(weak, CoreRun(run, FIRST));
    OneEffect(weak, t, REACHING, REACHING_LEVELS, CoreRun(run, FIRST), REACHING_TEXT, Parentheses);
    LastClasses(paired, classes, run, FIRST);
    assert classes[FIRST[1]] == Neutralized(seq(4, h requires 0 <= h < 4 => paired[FIRST[h]]), run)[1];
    assert seq(4, h requires 0 <= h < 4 => paired[FIRST[h]]) == [RightToLeft, OtherNeutral, RightToLeft, LeftToRight];
    FirstNeutralized(run);
  }

  lemma SourceThrough(st: Stages, classes: seq<BidiClass>, levels: seq<Level>) returns (s: nat)
    requires Resolved(REACHING, 0, REACHING_TEXT, Parentheses, st, classes, levels)
    ensures s < |st.isoRuns| && Through(st.weak, st.paired, classes, st.isoRuns[s], FIRST)
  {
    hide Explained, N0, LiveClasses, Levelled, Sequences, Live, Weakened, Neutralized, OnItsOwn, Core, Increasing, Gathered, Finished, Chains, InRange;
    ReachingGathered(st, classes, levels, REACHING_TEXT, Parentheses);
    s := ReachingSourceCore(st.runs, st.isoRuns);
    SourcePaired(st, classes, levels, s);
    CoreClasses(st.weak, st.isoRuns[s], FIRST, false);
    ReachingQuiet(st.weak);
  }

  /** The rules of the source give the opening bracket the class R. */
  lemma SourceResult(st: Stages, classes: seq<BidiClass>, levels: seq<Level>)
    requires Resolved(REACHING, 0, REACHING_TEXT, Parentheses, st, classes, levels)
    ensures |classes| == 12 && classes[2] == RightToLeft
  {
    hide Resolved, Through;
    var s := SourceThrough(st, classes, levels);
    ResolvedLength(REACHING, 0, REACHING_TEXT, Parentheses, st, classes, levels);
    FirstThrough(st.weak, st.paired, classes, st.isoRuns[s]);
  }

  /** N0 on a chain, as far as its core goes. */
  lemma OwnOnCore(weak: seq<BidiClass>, paired: seq<BidiClass>, run: IsoRun, list: seq<nat>) returns (t: seq<BidiClass>)
    requires |weak| == 12 && Bounded(REACHING_LEVELS, run.indices) && Increasing(run.indices) && IdleKept(weak, REACHING, REACHING_LEVELS)
    requires Core(REACHING, REACHING_LEVELS, run.indices) == list && Bounded(REACHING_LEVELS, list)
    requires OnItsOwn(weak, paired, REACHING, REACHING_LEVELS, run, REACHING_TEXT, Parentheses)
    ensures |paired| == |t| == 12 && OneStep(weak, t, REACHING, REACHING_LEVELS, CoreRun(run, list), REACHING_TEXT, Parentheses)
    ensures forall k :: 0 <= k < |list| ==> paired[list[k]] == t[list[k]]
  {
    hide OneStep, Core, Idle, IdleKept, SeparatorLast, Quiet, Increasing;
    t :| OneStep(weak, t, REACHING, REACHING_LEVELS, run, REACHING_TEXT, Parentheses) && AgreeOn(t, paired, run.indices);
    StepKeepsLength(weak, t, REACHING, REACHING_LEVELS, run, REACHING_TEXT, Parentheses);
    QuietKept(weak, REACHING, REACHING_LEVELS, run.indices);
    NoSeparators(run.indices);
    CoreOfStep(weak, t, REACHING, REACHING_LEVELS, run, REACHING_TEXT, Parentheses);
    forall k | 0 <= k < |list| ensures paired[list[k]] == t[list[k]] {
      InCore(REACHING, REACHING_LEVELS, run.indices, list[k]);
      var h :| 0 <= h < |run.indices| && run.indices[h] == list[k];
    }
  }

  lemma NoSeparators(indices: seq<nat>)
    requires Bounded(REACHING_LEVELS, indices)
    ensures SeparatorLast(REACHING, REACHING_LEVELS, indices)
  {
  }

  /** The classes along the core, after N1 and N2. */
  lemma LastClasses(paired: seq<BidiClass>, after: seq<BidiClass>, run: IsoRun, list: seq<nat>)
    requires Bounded(REACHING_LEVELS, run.indices) && |paired| == |after| == 12 && Bounded(REACHING_LEVELS, list)
    requires Core(REACHING, REACHING_LEVELS, run.indices) == list
    requires forall k :: 0 <= k < |list| ==> list[k] in {1, 2, 3, 6, 8, 11}
    requires Live(after, REACHING_LEVELS, run.indices) == Neutralized(Live(paired, REACHING_LEVELS, run.indices), run)
    ensures forall k :: 0 <= k < |list| ==>
      after[list[k]] == Neutralized(seq(|list|, h requires 0 <= h < |list| => paired[list[h]]), run)[k]
  {
    hide Live, Neutralized, Core, SeparatorLast;
    var levels := REACHING_LEVELS;
    NoSeparators(run.indices);
    LiveCore(paired, REACHING, levels, run.indices);
    LiveCore(after, REACHING, levels, run.indices);
    assert SeparatorOf(paired, REACHING, levels, run.indices) == [] == SeparatorOf(after, REACHING, levels, run.indices);
    LiveList(paired, levels, list);
    LiveList(after, levels, list);
    assert Live(paired, levels, list) + [] == Live(paired, levels, list) == seq(|list|, h requires 0 <= h < |list| => paired[list[h]]);
    assert Live(after, levels, list) + [] == Live(after, levels, list);
  }

  lemma FirstNeutralized(run: IsoRun)
    ensures Neutralized([RightToLeft, OtherNeutral, RightToLeft, LeftToRight], run)[1] == RightToLeft
  {
    var cs := [RightToLeft, OtherNeutral, RightToLeft, LeftToRight];
    assert Neutral.SideBefore(cs, 1, run.sos) == Some(Rtl) && Neutral.SideFrom(cs, 2, run.eos) == Some(Rtl);
    assert Apply(RuleN1, cs, run)[1] == RightToLeft;
  }

  /** BD16 finds the pair in the whole sequence. */
  lemma WholePaired(weak: seq<BidiClass>)
    requires |weak| == 12 && weak[2] == OtherNeutral && weak[11] == OtherNeutral
    ensures Collected(Marks(weak, REACHING_TEXT, Parentheses, WHOLE), 6).pairs == [Pair(1, 5)]
  {
    var marks := Marks(weak, REACHING_TEXT, Parentheses, WHOLE);
    var none, one, done := Pairing([], []), Pairing([Waiting(')', 1)], []), Pairing([], [Pair(1, 5)]);
    assert marks[0] == marks[2] == marks[3] == marks[4] == Other && marks[1] == Opening(')') && marks[5] == Closing(')');
    assert Collect(marks, 1) == Some(none);
    assert none.waiting + [Waiting(')', 1)] == one.waiting;
    assert Collect(marks, 2) == Some(one);
    assert Collect(marks, 3) == Some(one) && Collect(marks, 4) == Some(one) && Collect(marks, 5) == Some(one);
    assert Seek(one.waiting, ')') == Some(0);
    assert one.waiting[..0] == [] && one.pairs + [Pair(1, 5)] == done.pairs;
    assert PairStep(one, 5, marks[5]) == Some(done);
  }

  lemma OnlyPair(pairs: seq<Pair>, p: Pair)
    requires multiset(pairs) == multiset([p])
    ensures pairs == [p]
  {
    assert |multiset(pairs)| == |pairs| == 1;
    assert pairs[0] in multiset([p]);
  }

  /** And N0 gives it the direction of the level. */
  lemma WholeSet(weak: seq<BidiClass>, t: seq<BidiClass>, run: IsoRun)
    requires |weak| == 12 && run.level == 2 && forall k :: 0 <= k < 6 ==> weak[WHOLE[k]] == REACHING_CLASSES[WHOLE[k]]
    requires OneStep(weak, t, REACHING, REACHING_LEVELS, CoreRun(run, WHOLE), REACHING_TEXT, Parentheses)
    ensures |t| == 12 && t[2] == LeftToRight
  {
    hide PairsResolved, PairSet, PairSide, OneStep, Collected, Marks;
    var r, p := CoreRun(run, WHOLE), Pair(1, 5);
    StepKeepsLength(weak, t, REACHING, REACHING_LEVELS, r, REACHING_TEXT, Parentheses);
    var pairs := StepPairs(weak, t, REACHING, REACHING_LEVELS, r, REACHING_TEXT, Parentheses);
    assert weak[WHOLE[1]] == OtherNeutral && weak[WHOLE[5]] == OtherNeutral && weak[WHOLE[3]] == LeftToRight;
    WholePaired(weak);
    OnlyPair(pairs, p);
    var before := PairsBefore(weak, t, REACHING, REACHING_LEVELS, r, pairs);
    assert pairs[..0] == [];
    NothingResolved(weak, before, r);
    PairTakesLevel(weak, r, p, 3);
    PairSetOpening(weak, t, r, p, LeftToRight);
  }

  lemma NothingResolved(start: seq<BidiClass>, types: seq<BidiClass>, run: IsoRun)
    requires |start| == 12 && Bounded(REACHING_LEVELS, run.indices) && PairsResolved(start, types, REACHING, REACHING_LEVELS, run, [])
    ensures types == start
  {
  }

  lemma PairTakesLevel(types: seq<BidiClass>, run: IsoRun, p: Pair, k: nat)
    requires |types| == 12 && Bounded(REACHING_LEVELS, run.indices) && run.level == 2
    requires p.openingPos < k < p.closingPos < |run.indices| && types[run.indices[k]] == LeftToRight
    ensures PairSide(types, REACHING_LEVELS, run, p) == Some(Ltr)
  {
    hide Live, Neutral.SideBefore;
    assert Neutral.SideOf(types[run.indices[k]]) == Some(Ltr);
  }

  lemma PairSetOpening(types: seq<BidiClass>, after: seq<BidiClass>, run: IsoRun, p: Pair, bc: BidiClass)
    requires |types| == 12 && Bounded(REACHING_LEVELS, run.indices) && p.openingPos < p.closingPos < |run.indices|
    requires PairSet(types, after, REACHING, REACHING_LEVELS, run.indices, p, bc)
    ensures |after| == 12 && after[run.indices[p.openingPos]] == bc
  {
    hide Trails;
    assert Follows(REACHING, REACHING_LEVELS, run.indices, p, p.openingPos);
  }

  lemma WholeThrough(weak: seq<BidiClass>, paired: seq<BidiClass>, classes: seq<BidiClass>, run: IsoRun)
    requires Through(weak, paired, classes, run, WHOLE) && run.level == 2
    ensures classes[2] == LeftToRight
  {
    hide Live, Neutralized, OnItsOwn, Core, OneStep, IdleKept, Increasing;
    var t := OwnOnCore(weak, paired, run, WHOLE);
    WholeSet(weak, t, run);
    LastClasses(paired, classes, run, WHOLE);
    var cs := seq(6, h requires 0 <= h < 6 => paired[WHOLE[h]]);
    assert classes[WHOLE[1]] == Neutralized(cs, run)[1] && cs[1] == paired[WHOLE[1]] == LeftToRight;
    LettersStay(cs, run, 1);
  }

  lemma LettersStay(cs: seq<BidiClass>, run: IsoRun, k: nat)
    requires k < |cs| && cs[k] in {LeftToRight, RightToLeft}
    ensures Neutralized(cs, run)[k] == cs[k]
  {
    hide Apply;
    MeetingStays(RuleN1, cs, run, k);
    MeetingStays(RuleN2, Apply(RuleN1, cs, run), run, k);
  }

  lemma UaxThrough(ut: Stages, classes: seq<BidiClass>, levels: seq<Level>) returns (t: nat)
    requires UaxResolved(REACHING, 0, REACHING_TEXT, Parentheses, ut, classes, levels)
    ensures t < |ut.isoRuns| && ut.isoRuns[t].level == 2 && Through(ut.weak, ut.paired, classes, ut.isoRuns[t], WHOLE)
  {
    hide Explained, UaxExplained, UaxSequence, Levelled, Live, UaxWeakened, Neutralized, OnItsOwn, Core, Increasing, Unhindered, NoFullPush;
    ReachingRoom();
    Room(REACHING, 0);
    UaxOutcome.UaxIsSource(REACHING, 0, ut.explicitClasses, ut.explicitLevels);
    ReachingExplained(ut.explicitClasses, ut.explicitLevels);
    t := ReachingUaxCore(ut.isoRuns);
    assert OnItsOwn(ut.weak, ut.paired, REACHING, REACHING_LEVELS, ut.isoRuns[t], REACHING_TEXT, Parentheses);
    CoreClasses(ut.weak, ut.isoRuns[t], WHOLE, true);
    ReachingQuiet(ut.weak);
  }

  /** An isolate that is overridden and not linked does make a difference where a bracket pair
      reaches over it: UAX #9 gives the opening bracket of this paragraph the class L, as the
      level asks for, and the source, which finds no pair, R, as its neighbours have. */
  lemma PairReachesOver(st: Stages, classes: seq<BidiClass>, levels: seq<Level>, ut: Stages, classes': seq<BidiClass>, levels': seq<Level>)
    requires Resolved(REACHING, 0, REACHING_TEXT, Parentheses, st, classes, levels)
    requires UaxResolved(REACHING, 0, REACHING_TEXT, Parentheses, ut, classes', levels')
    ensures |classes| == |classes'| == 12 && classes[2] == RightToLeft && classes'[2] == LeftToRight
  {
    SourceResult(st, classes, levels);
    hide Resolved, Through, UaxResolved;
    var t := UaxThrough(ut, classes', levels');
    ThroughLength(ut.weak, ut.paired, classes', ut.isoRuns[t], WHOLE);
    WholeThrough(ut.weak, ut.paired, classes', ut.isoRuns[t]);
  }

  lemma ThroughLength(weak: seq<BidiClass>, paired: seq<BidiClass>, classes: seq<BidiClass>, run: IsoRun, list: seq<nat>)
    requires Through(weak, paired, classes, run, list)
    ensures |classes| == 12
  {
  }
}
