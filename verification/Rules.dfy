/** The rules that work on one sequence at a time, what they make of all sequences
    together, and the classes that are left after them. */
module Rules {
  import opened BidiTypes
  import opened Runs
  import opened TextChains
  import opened PlainRules
  import Weak
  import Terminators
  import Neutral

  datatype Rule = RuleW1 | RuleW2 | RuleW3 | RuleW4 | RuleW5 | RuleW6 | RuleW7 | RuleN1 | RuleN2

  /** The rule applied at once to the classes of a sequence. */
  function Apply(rule: Rule, cs: seq<BidiClass>, run: IsoRun): (r: seq<BidiClass>)
    ensures |r| == |cs|
  {
    match rule
    case RuleW1 => Weak.W1(cs, run.sos)
    case RuleW2 => Weak.W2(cs, run.sos)
    case RuleW3 => Weak.W3(cs)
    case RuleW4 => Weak.W4(cs)
    case RuleW5 => Weak.W5(cs)
    case RuleW6 => Weak.W6(cs)
    case RuleW7 => Weak.W7(cs, run.sos)
    case RuleN1 => Neutral.N1(cs, run.sos, run.eos)
    case RuleN2 => Neutral.N2(cs, run.level)
  }

  /** The pass of a rule over one sequence, in place. */
  method RunOne(rule: Rule, start: seq<BidiClass>, levels: seq<Level>, run: IsoRun) returns (types: seq<BidiClass>)
    requires |start| == |levels| && Inert(start, levels) && Chain(levels, run)
    ensures |types| == |start| && Untouched(start, types, levels, run.indices)
    ensures Live(types, levels, run.indices) == Apply(rule, Live(start, levels, run.indices), run)
  {
    match rule
    case RuleW1 => types := Weak.ResolveCombiningMarks(start, levels, run);
    case RuleW2 => types := Weak.ResolveEuropeanNumbers(start, levels, run);
    case RuleW3 => types := Weak.ResolveArabicLetters(start, levels, run);
    case RuleW4 => types := Weak.ResolveSeparators(start, levels, run);
    case RuleW5 => types := Terminators.ResolveTerminators(start, levels, run);
    case RuleW6 => types := Weak.ResolveEsCsEt(start, levels, run);
    case RuleW7 => types := Weak.ResolveEn(start, levels, run);
    case RuleN1 => types := Neutral.ResolveNeutralsByContext(start, levels, run);
    case RuleN2 => types := Neutral.ResolveNeutralsByLevel(start, levels, run);
  }

  /** The rule has been applied to every sequence and to nothing else. */
  ghost predicate Passed(rule: Rule, before: seq<BidiClass>, after: seq<BidiClass>, levels: seq<Level>, isoRuns: seq<IsoRun>)
    requires |before| == |levels| && BoundedRuns(levels, isoRuns)
  {
    && |after| == |before|
    && (forall s :: 0 <= s < |isoRuns| ==>
          Live(after, levels, isoRuns[s].indices) == Apply(rule, Live(before, levels, isoRuns[s].indices), isoRuns[s]))
    && (forall i :: 0 <= i < |levels| && levels[i] == NO_LEVEL ==> after[i] == before[i])
  }

  ghost predicate BoundedRuns(levels: seq<Level>, isoRuns: seq<IsoRun>) {
    forall s :: 0 <= s < |isoRuns| ==> Bounded(levels, isoRuns[s].indices)
  }

  lemma ChainsBounded(levels: seq<Level>, isoRuns: seq<IsoRun>)
    requires Chains(levels, isoRuns)
    ensures BoundedRuns(levels, isoRuns)
  {
  }

  // ----- Classes -----

  ghost predicate AllIn(cs: seq<BidiClass>, allowed: set<BidiClass>) {
    forall k :: 0 <= k < |cs| ==> cs[k] in allowed
  }

  const RESOLVED := {LeftToRight, RightToLeft, EuropeanNumber, ArabicNumber}
  const NEUTRALS := {OtherNeutral, WhiteSpace, SegmentSeparator, ParagraphSeparator,
                     RightToLeftIsolate, LeftToRightIsolate, FirstStrongIsolate, PopDirectionalIsolate}
  const SEPARATORS := {EuropeanSeparator, CommonSeparator, EuropeanTerminator}

  /** The classes that may be left after a rule, given those before it. */
  function ClassesAfter(rule: Rule, before: set<BidiClass>): set<BidiClass> {
    match rule
    case RuleW1 => (before - {NonspacingMark}) + {LeftToRight, RightToLeft}
    case RuleW2 => before + {ArabicNumber}
    case RuleW3 => (before - {ArabicLetter}) + {RightToLeft}
    case RuleW4 => before + {EuropeanNumber, ArabicNumber}
    case RuleW5 => before + {EuropeanNumber}
    case RuleW6 => (before - SEPARATORS) + {OtherNeutral}
    case RuleW7 => before + {LeftToRight}
    case RuleN1 => before + {LeftToRight, RightToLeft}
    case RuleN2 => (before - NEUTRALS) + {LeftToRight, RightToLeft}
  }

  lemma {:induction false} BaseBeforeIn(cs: seq<BidiClass>, k: nat, sos: BidiClass, allowed: set<BidiClass>)
    requires AllIn(cs, allowed) && k <= |cs| && sos in {LeftToRight, RightToLeft}
    ensures Weak.BaseBefore(cs, k, sos) in (allowed - {NonspacingMark}) + {LeftToRight, RightToLeft}
  {
    if k > 0 { BaseBeforeIn(cs, k - 1, sos, allowed); }
  }

  lemma ApplyClasses(rule: Rule, cs: seq<BidiClass>, run: IsoRun, before: set<BidiClass>)
    requires AllIn(cs, before) && run.sos in {LeftToRight, RightToLeft}
    ensures AllIn(Apply(rule, cs, run), ClassesAfter(rule, before))
  {
    hide Weak.BaseBefore, Weak.StrongBefore, Weak.NumberBefore, Weak.NumberAfter, Neutral.SideBefore, Neutral.SideFrom;
    if rule.RuleW1? {
      forall k | 0 <= k < |cs|
        ensures Apply(rule, cs, run)[k] in ClassesAfter(rule, before)
      {
        BaseBeforeIn(cs, k, run.sos, before);
      }
    }
  }

  /** After W1-W7 there are sides, numbers and neutrals; after N1 and N2 no neutrals. */
  lemma ClassesLeft()
    ensures var w := ClassesAfter(RuleW7, ClassesAfter(RuleW6, ClassesAfter(RuleW5, ClassesAfter(RuleW4,
              ClassesAfter(RuleW3, ClassesAfter(RuleW2, ClassesAfter(RuleW1, KEPT_CLASSES)))))));
      && w == RESOLVED + NEUTRALS
      && ClassesAfter(RuleN2, ClassesAfter(RuleN1, w)) == RESOLVED
  {
  }

  /** Every character that was not removed has a class of the set. */
  ghost predicate LiveClasses(types: seq<BidiClass>, levels: seq<Level>, allowed: set<BidiClass>) {
    && |types| == |levels|
    && forall i :: 0 <= i < |levels| && levels[i] != NO_LEVEL ==> types[i] in allowed
  }

  lemma LiveClassesOf(types: seq<BidiClass>, levels: seq<Level>, indices: seq<nat>, allowed: set<BidiClass>)
    requires LiveClasses(types, levels, allowed) && Bounded(levels, indices)
    ensures AllIn(Live(types, levels, indices), allowed)
  {
    forall q | 0 <= q < |Live(types, levels, indices)|
      ensures Live(types, levels, indices)[q] in allowed
    {
      var i := LiveAt(types, levels, indices, q);
    }
  }

  /** What a pass leaves. */
  lemma PassedClasses(rule: Rule, before: seq<BidiClass>, after: seq<BidiClass>, levels: seq<Level>, isoRuns: seq<IsoRun>, allowed: set<BidiClass>)
    requires |before| == |levels| && Chains(levels, isoRuns) && BoundedRuns(levels, isoRuns)
    requires Passed(rule, before, after, levels, isoRuns)
    requires LiveClasses(before, levels, allowed)
    ensures LiveClasses(after, levels, ClassesAfter(rule, allowed))
  {
    hide Live, Apply, ClassesAfter;
    forall i | 0 <= i < |levels| && levels[i] != NO_LEVEL
      ensures after[i] in ClassesAfter(rule, allowed)
    {
      var s :| 0 <= s < |isoRuns| && i in isoRuns[s].indices;
      LiveClassesOf(before, levels, isoRuns[s].indices, allowed);
      ApplyClasses(rule, Live(before, levels, isoRuns[s].indices), isoRuns[s], allowed);
      var q := AtLive(after, levels, isoRuns[s].indices, i);
    }
  }

  lemma InertIsKept(types: seq<BidiClass>, levels: seq<Level>)
    requires |types| == |levels|
    ensures Inert(types, levels) <==>
      LiveClasses(types, levels, KEPT_CLASSES) && forall i :: 0 <= i < |levels| && levels[i] == NO_LEVEL ==> types[i].IsFormat()
  {
    forall bc: BidiClass ensures bc in KEPT_CLASSES <==> !bc.IsFormat() { KeptClass(bc); }
  }

  // ----- All sequences, one after the other -----

  /** The first `n` sequences have been passed, and the others are as before. */
  ghost predicate PassedTo(rule: Rule, before: seq<BidiClass>, after: seq<BidiClass>, levels: seq<Level>, isoRuns: seq<IsoRun>, n: nat)
    requires |before| == |levels| && BoundedRuns(levels, isoRuns)
  {
    && |after| == |before|
    && n <= |isoRuns|
    && (forall s :: 0 <= s < |isoRuns| ==>
          Live(after, levels, isoRuns[s].indices) ==
          if s < n then Apply(rule, Live(before, levels, isoRuns[s].indices), isoRuns[s])
          else Live(before, levels, isoRuns[s].indices))
    && (forall i :: 0 <= i < |levels| && levels[i] == NO_LEVEL ==> after[i] == before[i])
  }

  lemma PassedNext(rule: Rule, before: seq<BidiClass>, mid: seq<BidiClass>, after: seq<BidiClass>, levels: seq<Level>, isoRuns: seq<IsoRun>, n: nat)
    requires |before| == |levels| == |after| && BoundedRuns(levels, isoRuns) && Disjoint(isoRuns)
    requires PassedTo(rule, before, mid, levels, isoRuns, n) && n < |isoRuns|
    requires Untouched(mid, after, levels, isoRuns[n].indices)
    requires Live(after, levels, isoRuns[n].indices) == Apply(rule, Live(mid, levels, isoRuns[n].indices), isoRuns[n])
    ensures PassedTo(rule, before, after, levels, isoRuns, n + 1)
  {
    hide Live, Apply;
    forall s | 0 <= s < |isoRuns| && s != n
      ensures Live(after, levels, isoRuns[s].indices) == Live(mid, levels, isoRuns[s].indices)
    {
      assert forall i :: i in isoRuns[s].indices ==> i !in isoRuns[n].indices;
      LiveSame(after, mid, levels, isoRuns[s].indices);
    }
  }

  lemma PassedInert(rule: Rule, before: seq<BidiClass>, after: seq<BidiClass>, levels: seq<Level>, isoRuns: seq<IsoRun>, n: nat)
    requires |before| == |levels| && Chains(levels, isoRuns) && BoundedRuns(levels, isoRuns)
    requires PassedTo(rule, before, after, levels, isoRuns, n) && Inert(before, levels)
    ensures Inert(after, levels)
  {
    hide Live, Apply;
    InertIsKept(before, levels);
    InertIsKept(after, levels);
    forall i | 0 <= i < |levels| && levels[i] != NO_LEVEL
      ensures after[i] in KEPT_CLASSES
    {
      var s :| 0 <= s < |isoRuns| && i in isoRuns[s].indices;
      LiveClassesOf(before, levels, isoRuns[s].indices, KEPT_CLASSES);
      ApplyClasses(rule, Live(before, levels, isoRuns[s].indices), isoRuns[s], KEPT_CLASSES);
      AfterKept(rule);
      var q := AtLive(after, levels, isoRuns[s].indices, i);
    }
  }

  lemma AfterKept(rule: Rule)
    ensures ClassesAfter(rule, KEPT_CLASSES) <= KEPT_CLASSES
  {
  }

  /** The outer loop that every pass has. */
  method RunAll(rule: Rule, start: seq<BidiClass>, levels: seq<Level>, isoRuns: seq<IsoRun>) returns (types: seq<BidiClass>)
    requires |start| == |levels| && Inert(start, levels) && Chains(levels, isoRuns) && BoundedRuns(levels, isoRuns)
    ensures Passed(rule, start, types, levels, isoRuns)
    ensures Inert(types, levels)
  {
    hide Live, Apply, PassedTo, Inert;
    types := start;
    PassedStart(rule, start, levels, isoRuns);
    for s := 0 to |isoRuns|
      invariant PassedTo(rule, start, types, levels, isoRuns, s) && |types| == |start|
    {
      PassedInert(rule, start, types, levels, isoRuns, s);
      ghost var mid := types;
      types := RunOne(rule, types, levels, isoRuns[s]);
      PassedNext(rule, start, mid, types, levels, isoRuns, s);
    }
    PassedInert(rule, start, types, levels, isoRuns, |isoRuns|);
    PassedEnd(rule, start, types, levels, isoRuns);
  }

  lemma PassedStart(rule: Rule, start: seq<BidiClass>, levels: seq<Level>, isoRuns: seq<IsoRun>)
    requires |start| == |levels| && BoundedRuns(levels, isoRuns)
    ensures PassedTo(rule, start, start, levels, isoRuns, 0)
  {
  }

  lemma PassedEnd(rule: Rule, start: seq<BidiClass>, types: seq<BidiClass>, levels: seq<Level>, isoRuns: seq<IsoRun>)
    requires |start| == |levels| && BoundedRuns(levels, isoRuns)
    requires PassedTo(rule, start, types, levels, isoRuns, |isoRuns|)
    ensures Passed(rule, start, types, levels, isoRuns)
  {
  }

  // ----- The weak rules in a row -----

  /** W1-W7 on the classes of a sequence. */
  function Weakened(cs: seq<BidiClass>, run: IsoRun): (r: seq<BidiClass>)
    ensures |r| == |cs|
  {
    Apply(RuleW7, Apply(RuleW6, Apply(RuleW5, Apply(RuleW4, Apply(RuleW3, Apply(RuleW2, Apply(RuleW1, cs, run), run), run), run), run), run), run)
  }

  /** N1 and N2 on the classes of a sequence. */
  function Neutralized(cs: seq<BidiClass>, run: IsoRun): (r: seq<BidiClass>)
    ensures |r| == |cs|
  {
    Apply(RuleN2, Apply(RuleN1, cs, run), run)
  }

  /** The removed characters have the classes they had. */
  ghost predicate RemovedKept(before: seq<BidiClass>, after: seq<BidiClass>, levels: seq<Level>)
    requires |before| == |after| == |levels|
  {
    forall i :: 0 <= i < |levels| && levels[i] == NO_LEVEL ==> after[i] == before[i]
  }

  /** Every sequence went through W1-W7. */
  ghost predicate AllWeakened(before: seq<BidiClass>, after: seq<BidiClass>, levels: seq<Level>, isoRuns: seq<IsoRun>)
    requires |before| == |after| == |levels| && BoundedRuns(levels, isoRuns)
  {
    && RemovedKept(before, after, levels)
    && forall s :: 0 <= s < |isoRuns| ==>
      Live(after, levels, isoRuns[s].indices) == Weakened(Live(before, levels, isoRuns[s].indices), isoRuns[s])
  }

  ghost predicate AllNeutralized(before: seq<BidiClass>, after: seq<BidiClass>, levels: seq<Level>, isoRuns: seq<IsoRun>)
    requires |before| == |after| == |levels| && BoundedRuns(levels, isoRuns)
  {
    && RemovedKept(before, after, levels)
    && forall s :: 0 <= s < |isoRuns| ==>
      Live(after, levels, isoRuns[s].indices) == Neutralized(Live(before, levels, isoRuns[s].indices), isoRuns[s])
  }

  /** W1-W7 over the whole paragraph. */
  method RunWeak(start: seq<BidiClass>, levels: seq<Level>, isoRuns: seq<IsoRun>) returns (types: seq<BidiClass>)
    requires |start| == |levels| && Inert(start, levels) && Chains(levels, isoRuns) && BoundedRuns(levels, isoRuns)
    ensures |types| == |start| && Inert(types, levels)
    ensures AllWeakened(start, types, levels, isoRuns)
    ensures LiveClasses(types, levels, RESOLVED + NEUTRALS)
  {
    hide Live, Apply, Inert, Chains, LiveClasses, ClassesAfter;
    InertIsKept(start, levels);
    var t1 := RunAll(RuleW1, start, levels, isoRuns);
    var t2 := RunAll(RuleW2, t1, levels, isoRuns);
    var t3 := RunAll(RuleW3, t2, levels, isoRuns);
    var t4 := RunAll(RuleW4, t3, levels, isoRuns);
    var t5 := RunAll(RuleW5, t4, levels, isoRuns);
    var t6 := RunAll(RuleW6, t5, levels, isoRuns);
    types := RunAll(RuleW7, t6, levels, isoRuns);
    PassedClasses(RuleW1, start, t1, levels, isoRuns, KEPT_CLASSES);
    var c1 := ClassesAfter(RuleW1, KEPT_CLASSES);
    PassedClasses(RuleW2, t1, t2, levels, isoRuns, c1);
    var c2 := ClassesAfter(RuleW2, c1);
    PassedClasses(RuleW3, t2, t3, levels, isoRuns, c2);
    var c3 := ClassesAfter(RuleW3, c2);
    PassedClasses(RuleW4, t3, t4, levels, isoRuns, c3);
    var c4 := ClassesAfter(RuleW4, c3);
    PassedClasses(RuleW5, t4, t5, levels, isoRuns, c4);
    var c5 := ClassesAfter(RuleW5, c4);
    PassedClasses(RuleW6, t5, t6, levels, isoRuns, c5);
    var c6 := ClassesAfter(RuleW6, c5);
    PassedClasses(RuleW7, t6, types, levels, isoRuns, c6);
    ClassesLeft();
  }

  /** N1 and N2 over the whole paragraph. */
  method RunNeutral(start: seq<BidiClass>, levels: seq<Level>, isoRuns: seq<IsoRun>) returns (types: seq<BidiClass>)
    requires |start| == |levels| && Inert(start, levels) && Chains(levels, isoRuns) && BoundedRuns(levels, isoRuns)
    requires LiveClasses(start, levels, RESOLVED + NEUTRALS)
    ensures |types| == |start| && Inert(types, levels)
    ensures AllNeutralized(start, types, levels, isoRuns)
    ensures LiveClasses(types, levels, RESOLVED)
  {
    hide Live, Apply, Inert, Chains, LiveClasses, ClassesAfter;
    var t1 := RunAll(RuleN1, start, levels, isoRuns);
    types := RunAll(RuleN2, t1, levels, isoRuns);
    PassedClasses(RuleN1, start, t1, levels, isoRuns, RESOLVED + NEUTRALS);
    PassedClasses(RuleN2, t1, types, levels, isoRuns, ClassesAfter(RuleN1, RESOLVED + NEUTRALS));
    ClassesLeft();
  }
}
