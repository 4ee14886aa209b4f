/** What resolving a paragraph means as a whole, and the levels that come of it. */
module Resolution {
  import opened Wrappers
  import opened BidiTypes
  import opened ParagraphLevels
  import opened Explicit
  import opened Runs
  import opened Linking
  import opened TextChains
  import opened Rules
  import opened Brackets

  /** I1 and I2 */
  function ImplicitLevel(level: Level, bc: BidiClass): Level {
    match DirectionOf(level)
    case Ltr =>
      if bc == RightToLeft then level + 1
      else if bc in {ArabicNumber, EuropeanNumber} then level + 2
      else level
    case Rtl =>
      if bc in {LeftToRight, ArabicNumber, EuropeanNumber} then level + 1 else level
  }

  predicate Even(level: Level) {
    level % 2 == 0
  }

  /** The least even level from `low` up, or the least odd one. */
  ghost predicate LeastEven(low: Level, level: Level) {
    low <= level && Even(level) && forall l :: low <= l < level ==> !Even(l)
  }

  ghost predicate LeastOdd(low: Level, level: Level) {
    low <= level && !Even(level) && forall l :: low <= l < level ==> Even(l)
  }

  /** I1 and I2 say: numbers go to the next even level, L to an even one and R to an odd one. */
  ghost predicate Implied(level: Level, bc: BidiClass, to: Level) {
    && (bc in {EuropeanNumber, ArabicNumber} ==> LeastEven(level + 1, to))
    && (bc == LeftToRight ==> LeastEven(level, to))
    && (bc == RightToLeft ==> LeastOdd(level, to))
  }

  lemma ImplicitMeans(level: Level, bc: BidiClass)
    requires level >= 0
    ensures Implied(level, bc, ImplicitLevel(level, bc))
  {
  }

  /** The classes and levels between the passes. */
  datatype Stages = Stages(
    explicitClasses: seq<BidiClass>,
    explicitLevels: seq<Level>,
    runs: seq<Run>,
    isoRuns: seq<IsoRun>,
    weak: seq<BidiClass>,
    paired: seq<BidiClass>)

  /** X10 */
  ghost predicate Sequences(classes: seq<BidiClass>, levels: seq<Level>, base: Level, runs: seq<Run>, isoRuns: seq<IsoRun>) {
    && Tiling(classes, levels, runs) && TailRemoved(levels, runs)
    && RunsEnded(runs, base)
    && Partition(classes, levels, runs, isoRuns)
    && Greedy(classes, levels, runs, isoRuns)
    && SequencesEnded(classes, base, runs, isoRuns)
    && Finished(runs, isoRuns)
    && BoundedRuns(levels, isoRuns)
  }

  /** Every stage follows from the one before by its rules. */
  ghost predicate Resolved(types: seq<BidiClass>, base: Level, paragraph: seq<char>, lookup: BracketTable, st: Stages,
                           classes: seq<BidiClass>, levels: seq<Level>)
  {
    && |types| == |st.explicitClasses| == |st.explicitLevels| == |st.weak| == |st.paired| == |classes| == |levels|
    && (paragraph != [] ==> |paragraph| == |types|)
    && Explained(types, base, st.explicitClasses, st.explicitLevels)
    && Sequences(st.explicitClasses, st.explicitLevels, base, st.runs, st.isoRuns)
    && AllWeakened(st.explicitClasses, st.weak, st.explicitLevels, st.isoRuns)
    && (if paragraph == [] then st.paired == st.weak
        else N0(st.weak, st.paired, types, st.explicitLevels, st.isoRuns, paragraph, lookup))
    && AllNeutralized(st.paired, classes, st.explicitLevels, st.isoRuns)
    && LiveClasses(classes, st.explicitLevels, RESOLVED)
    && Levelled(st.explicitLevels, classes, levels)
  }

  /** I1 and I2 everywhere. */
  ghost predicate Levelled(explicitLevels: seq<Level>, classes: seq<BidiClass>, levels: seq<Level>)
    requires |explicitLevels| == |classes|
  {
    && |levels| == |explicitLevels|
    && forall i :: 0 <= i < |levels| ==>
         levels[i] == if explicitLevels[i] == NO_LEVEL then NO_LEVEL else ImplicitLevel(explicitLevels[i], classes[i])
  }

  /** The format characters are exactly the removed ones. */
  lemma ExplainedInert(types: seq<BidiClass>, base: Level, classes: seq<BidiClass>, levels: seq<Level>)
    requires Explained(types, base, classes, levels)
    ensures Inert(types, levels) && Inert(classes, levels)
    ensures forall i :: 0 <= i < |levels| ==> levels[i] == NO_LEVEL || base <= levels[i] <= MAX_DEPTH
  {
    forall i | 0 <= i < |levels|
      ensures levels[i] == NO_LEVEL <==> types[i].IsFormat()
      ensures levels[i] == NO_LEVEL <==> classes[i].IsFormat()
      ensures levels[i] == NO_LEVEL || base <= levels[i] <= MAX_DEPTH
    {
      assert ExplainedAt(types, base, i, classes[i], levels[i]);
    }
  }

  /** In a resolved paragraph every character that was not removed is L, R, EN or AN. A number
      has the least even level above its explicit level, L the least even one from it up and R
      the least odd one; none is over MAX_DEPTH + 1. */
  lemma ResolvedLevels(types: seq<BidiClass>, base: Level, paragraph: seq<char>, lookup: BracketTable, st: Stages,
                       classes: seq<BidiClass>, levels: seq<Level>, i: nat)
    requires Resolved(types, base, paragraph, lookup, st, classes, levels) && i < |types|
    ensures types[i].IsFormat() <==> levels[i] == NO_LEVEL
    ensures levels[i] != NO_LEVEL ==>
      && classes[i] in RESOLVED
      && (classes[i] in {EuropeanNumber, ArabicNumber} ==> LeastEven(st.explicitLevels[i] + 1, levels[i]))
      && (classes[i] == LeftToRight ==> LeastEven(st.explicitLevels[i], levels[i]))
      && (classes[i] == RightToLeft ==> LeastOdd(st.explicitLevels[i], levels[i]))
      && (IsOdd(levels[i]) <==> classes[i] == RightToLeft)
      && 0 <= st.explicitLevels[i] <= levels[i] <= st.explicitLevels[i] + 2
      && levels[i] <= MAX_DEPTH + 1
  {
    hide Explained, Sequences, AllWeakened, N0, AllNeutralized, Inert, ImplicitLevel;
    ExplainedInert(types, base, st.explicitClasses, st.explicitLevels);
    InertAt(types, st.explicitLevels, i);
    ExplainedBase(types, base, st.explicitClasses, st.explicitLevels);
    if st.explicitLevels[i] != NO_LEVEL {
      assert levels[i] == ImplicitLevel(st.explicitLevels[i], classes[i]);
      ImplicitParity(st.explicitLevels[i], classes[i]);
      ImplicitMeans(st.explicitLevels[i], classes[i]);
    }
  }

  lemma ExplainedBase(types: seq<BidiClass>, base: Level, classes: seq<BidiClass>, levels: seq<Level>)
    requires Explained(types, base, classes, levels)
    ensures 0 <= base <= 1
  {
  }

  lemma InertAt(types: seq<BidiClass>, levels: seq<Level>, i: nat)
    requires |types| == |levels| && Inert(types, levels) && i < |levels|
    ensures types[i].IsFormat() <==> levels[i] == NO_LEVEL
  {
  }

  /** I1 and I2: the direction of the new level is the direction of the class. */
  lemma ImplicitParity(level: Level, bc: BidiClass)
    requires 0 <= level <= MAX_DEPTH && bc in RESOLVED
    ensures IsOdd(ImplicitLevel(level, bc)) <==> bc == RightToLeft
    ensures level <= ImplicitLevel(level, bc) <= level + 2
    ensures ImplicitLevel(level, bc) <= MAX_DEPTH + 1
  {
  }

  // ----- Steps between the passes -----

  datatype Hint = LeftToRightHint | RightToLeftHint | AutoLeftToRight | AutoRightToLeft

  function HintedLevel(hint: Hint, types: seq<BidiClass>): (level: Level)
    ensures 0 <= level <= 1
  {
    match hint
    case LeftToRightHint => 0
    case RightToLeftHint => 1
    case AutoLeftToRight => ParagraphLevelOf(types, false, Ltr)
    case AutoRightToLeft => ParagraphLevelOf(types, false, Rtl)
  }

  lemma ExplainedLengths(types: seq<BidiClass>, base: Level, classes: seq<BidiClass>, levels: seq<Level>)
    requires Explained(types, base, classes, levels)
    ensures |types| == |classes| == |levels|
  {
  }

  lemma LevelledLength(explicitLevels: seq<Level>, classes: seq<BidiClass>, levels: seq<Level>)
    requires |explicitLevels| == |classes| && Levelled(explicitLevels, classes, levels)
    ensures |levels| == |explicitLevels|
  {
  }

  lemma ChainsOne(levels: seq<Level>, isoRuns: seq<IsoRun>)
    requires Chains(levels, isoRuns)
    ensures forall s :: 0 <= s < |isoRuns| ==> Bounded(levels, isoRuns[s].indices) && Chain(levels, isoRuns[s])
  {
  }

  lemma OnlySidesClasses(start: seq<BidiClass>, types: seq<BidiClass>, levels: seq<Level>)
    requires OnlySides(start, types, levels) && LiveClasses(start, levels, RESOLVED + NEUTRALS)
    ensures LiveClasses(types, levels, RESOLVED + NEUTRALS)
  {
  }

  /** A resolved paragraph is ready to be broken into lines. */
  lemma ResolvedIsReady(types: seq<BidiClass>, base: Level, paragraph: seq<char>, lookup: BracketTable, st: Stages,
                        classes: seq<BidiClass>, levels: seq<Level>)
    requires Resolved(types, base, paragraph, lookup, st, classes, levels)
    ensures Inert(types, levels)
    ensures forall i :: 0 <= i < |levels| ==> NO_LEVEL <= levels[i] <= MAX_DEPTH + 1
  {
    hide Resolved;
    ResolvedLength(types, base, paragraph, lookup, st, classes, levels);
    forall i | 0 <= i < |levels|
      ensures types[i].IsFormat() <==> levels[i] == NO_LEVEL
      ensures NO_LEVEL <= levels[i] <= MAX_DEPTH + 1
    {
      ResolvedLevels(types, base, paragraph, lookup, st, classes, levels, i);
    }
  }

  lemma ResolvedLength(types: seq<BidiClass>, base: Level, paragraph: seq<char>, lookup: BracketTable, st: Stages,
                       classes: seq<BidiClass>, levels: seq<Level>)
    requires Resolved(types, base, paragraph, lookup, st, classes, levels)
    ensures |types| == |levels| == |classes| == |st.explicitLevels|
  {
  }
}
