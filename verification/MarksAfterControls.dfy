/** Rule W1 gives a combining mark after an isolate control the class ON; the source gives
    it the class of the control. The classes that come of it in the end are the same. */
module MarksAfterControls {
  import opened Wrappers
  import opened BidiTypes
  import opened Runs
  import opened TextChains
  import opened Rules
  import opened Brackets
  import opened Determined
  import opened BracketOverflow
  import opened Explicit
  import opened Resolution
  import opened Following
  import Weak
  import Neutral

  /** W1 as UAX #9 has it. */
  function UaxW1(cs: seq<BidiClass>, sos: BidiClass): (r: seq<BidiClass>)
    ensures |r| == |cs|
  {
    seq(|cs|, k requires 0 <= k < |cs| =>
      if cs[k] != NonspacingMark then cs[k]
      else if Weak.BaseBefore(cs, k, sos).IsIsoControl() then OtherNeutral
      else Weak.BaseBefore(cs, k, sos))
  }

  /** The same class, or an isolate control against ON. */
  predicate AlikeAt(a: BidiClass, b: BidiClass) {
    a == b || (a.IsIsoControl() && b == OtherNeutral)
  }

  ghost predicate Alike(a: seq<BidiClass>, b: seq<BidiClass>) {
    |a| == |b| && forall k :: 0 <= k < |a| ==> AlikeAt(a[k], b[k])
  }

  lemma FirstAlike(cs: seq<BidiClass>, sos: BidiClass)
    ensures Alike(Weak.W1(cs, sos), UaxW1(cs, sos))
  {
  }

  // ----- Along one sequence -----

  lemma {:induction false} StrongAlike(a: seq<BidiClass>, b: seq<BidiClass>, k: nat, sos: BidiClass, strong: set<BidiClass>)
    requires Alike(a, b) && k <= |a| && strong <= Weak.LETTERS
    ensures Weak.StrongBefore(a, k, sos, strong) == Weak.StrongBefore(b, k, sos, strong)
  {
    if k > 0 {
      assert AlikeAt(a[k - 1], b[k - 1]);
      StrongAlike(a, b, k - 1, sos, strong);
    }
  }

  lemma {:induction false} NumberBeforeAlike(a: seq<BidiClass>, b: seq<BidiClass>, k: nat)
    requires Alike(a, b) && k <= |a|
    ensures Weak.NumberBefore(a, k) == Weak.NumberBefore(b, k)
  {
    if k > 0 {
      assert AlikeAt(a[k - 1], b[k - 1]);
      NumberBeforeAlike(a, b, k - 1);
    }
  }

  lemma {:induction false} NumberAfterAlike(a: seq<BidiClass>, b: seq<BidiClass>, k: nat)
    requires Alike(a, b) && k < |a|
    ensures Weak.NumberAfter(a, k) == Weak.NumberAfter(b, k)
    decreases |a| - k
  {
    if k + 1 < |a| {
      assert AlikeAt(a[k + 1], b[k + 1]);
      NumberAfterAlike(a, b, k + 1);
    }
  }

  lemma {:induction false} SideBeforeAlike(a: seq<BidiClass>, b: seq<BidiClass>, k: nat, sos: BidiClass)
    requires Alike(a, b) && k <= |a|
    ensures Neutral.SideBefore(a, k, sos) == Neutral.SideBefore(b, k, sos)
  {
    if k > 0 {
      assert AlikeAt(a[k - 1], b[k - 1]);
      SideBeforeAlike(a, b, k - 1, sos);
    }
  }

  lemma {:induction false} SideFromAlike(a: seq<BidiClass>, b: seq<BidiClass>, k: nat, eos: BidiClass)
    requires Alike(a, b) && k <= |a|
    ensures Neutral.SideFrom(a, k, eos) == Neutral.SideFrom(b, k, eos)
    decreases |a| - k
  {
    if k < |a| {
      assert AlikeAt(a[k], b[k]);
      SideFromAlike(a, b, k + 1, eos);
    }
  }

  /** W2-W7 and N1 keep the two alike, and N2 makes them the same. */
  lemma ApplyAlike(rule: Rule, a: seq<BidiClass>, b: seq<BidiClass>, run: IsoRun)
    requires Alike(a, b) && !rule.RuleW1?
    ensures Alike(Apply(rule, a, run), Apply(rule, b, run))
    ensures rule.RuleN2? ==> Apply(rule, a, run) == Apply(rule, b, run)
  {
    hide Weak.StrongBefore, Weak.NumberBefore, Weak.NumberAfter, Neutral.SideBefore, Neutral.SideFrom;
    forall k | 0 <= k < |a|
      ensures AlikeAt(Apply(rule, a, run)[k], Apply(rule, b, run)[k])
      ensures rule.RuleN2? ==> Apply(rule, a, run)[k] == Apply(rule, b, run)[k]
    {
      assert AlikeAt(a[k], b[k]);
      if k > 0 { assert AlikeAt(a[k - 1], b[k - 1]); }
      if k + 1 < |a| { assert AlikeAt(a[k + 1], b[k + 1]); }
      StrongAlike(a, b, k, run.sos, Weak.LETTERS);
      StrongAlike(a, b, k, run.sos, Weak.SIDES);
      NumberBeforeAlike(a, b, k);
      NumberAfterAlike(a, b, k);
      SideBeforeAlike(a, b, k, run.sos);
      SideFromAlike(a, b, k + 1, run.eos);
    }
  }

  /** W1 of UAX #9 and then W2-W7. */
  function UaxWeakened(cs: seq<BidiClass>, run: IsoRun): (r: seq<BidiClass>)
    ensures |r| == |cs|
  {
    Apply(RuleW7, Apply(RuleW6, Apply(RuleW5, Apply(RuleW4, Apply(RuleW3, Apply(RuleW2, UaxW1(cs, run.sos), run), run), run), run), run), run)
  }

  lemma WeakenedAlike(cs: seq<BidiClass>, run: IsoRun)
    ensures Alike(Weakened(cs, run), UaxWeakened(cs, run))
  {
    hide Apply, Alike;
    FirstAlike(cs, run.sos);
    var a1, b1 := Weak.W1(cs, run.sos), UaxW1(cs, run.sos);
    assert Apply(RuleW1, cs, run) == a1 by { IsW1(cs, run); }
    ApplyAlike(RuleW2, a1, b1, run);
    var a2, b2 := Apply(RuleW2, a1, run), Apply(RuleW2, b1, run);
    ApplyAlike(RuleW3, a2, b2, run);
    var a3, b3 := Apply(RuleW3, a2, run), Apply(RuleW3, b2, run);
    ApplyAlike(RuleW4, a3, b3, run);
    var a4, b4 := Apply(RuleW4, a3, run), Apply(RuleW4, b3, run);
    ApplyAlike(RuleW5, a4, b4, run);
    var a5, b5 := Apply(RuleW5, a4, run), Apply(RuleW5, b4, run);
    ApplyAlike(RuleW6, a5, b5, run);
    ApplyAlike(RuleW7, Apply(RuleW6, a5, run), Apply(RuleW6, b5, run), run);
  }

  lemma IsW1(cs: seq<BidiClass>, run: IsoRun)
    ensures Apply(RuleW1, cs, run) == Weak.W1(cs, run.sos)
  {
  }

  lemma NeutralizedAlike(a: seq<BidiClass>, b: seq<BidiClass>, run: IsoRun)
    requires Alike(a, b)
    ensures Neutralized(a, run) == Neutralized(b, run)
  {
    hide Apply, Alike;
    ApplyAlike(RuleN1, a, b, run);
    ApplyAlike(RuleN2, Apply(RuleN1, a, run), Apply(RuleN1, b, run), run);
  }

  // ----- Along the paragraph -----

  lemma {:induction false} LiveAlike(a: seq<BidiClass>, b: seq<BidiClass>, levels: seq<Level>, indices: seq<nat>)
    requires |a| == |b| == |levels| && Bounded(levels, indices)
    requires forall k :: 0 <= k < |indices| ==> AlikeAt(a[indices[k]], b[indices[k]])
    ensures Alike(Live(a, levels, indices), Live(b, levels, indices))
  {
    if indices != [] { LiveAlike(a, b, levels, indices[..|indices| - 1]); }
  }

  /** Where position `i` of a chain is among those that are left. */
  lemma {:induction false} LivePlace(a: seq<BidiClass>, b: seq<BidiClass>, c: seq<BidiClass>, levels: seq<Level>, indices: seq<nat>, i: nat) returns (q: nat)
    requires |a| == |b| == |c| == |levels| && Bounded(levels, indices) && i in indices && levels[i] != NO_LEVEL
    ensures q < |Live(a, levels, indices)| == |Live(b, levels, indices)| == |Live(c, levels, indices)|
    ensures Live(a, levels, indices)[q] == a[i] && Live(b, levels, indices)[q] == b[i] && Live(c, levels, indices)[q] == c[i]
  {
    var n := |indices| - 1;
    LiveLength(a, b, levels, indices[..n]);
    LiveLength(a, c, levels, indices[..n]);
    LiveLength(a, b, levels, indices);
    LiveLength(a, c, levels, indices);
    if i == indices[n] {
      q := |Live(a, levels, indices[..n])|;
    } else {
      q := LivePlace(a, b, c, levels, indices[..n], i);
    }
  }

  /** Every sequence went through W1 of UAX #9 and W2-W7. */
  ghost predicate AllUaxWeakened(before: seq<BidiClass>, after: seq<BidiClass>, levels: seq<Level>, isoRuns: seq<IsoRun>)
    requires |before| == |after| == |levels| && BoundedRuns(levels, isoRuns)
  {
    && RemovedKept(before, after, levels)
    && forall s :: 0 <= s < |isoRuns| ==>
      Live(after, levels, isoRuns[s].indices) == UaxWeakened(Live(before, levels, isoRuns[s].indices), isoRuns[s])
  }

  /** An isolate control was one before the rule. */
  lemma ControlsStay(rule: Rule, cs: seq<BidiClass>, run: IsoRun, k: nat)
    requires k < |cs| && run.sos in {LeftToRight, RightToLeft} && run.eos in {LeftToRight, RightToLeft}
    ensures Apply(rule, cs, run)[k].IsIsoControl() ==> cs[k].IsIsoControl() || (rule.RuleW1? && cs[k] == NonspacingMark)
  {
    hide Weak.BaseBefore, Weak.StrongBefore, Weak.NumberBefore, Weak.NumberAfter, Neutral.SideBefore, Neutral.SideFrom;
  }

  /** After W1-W7 only isolate controls, and marks, have the class of a control. */
  lemma ControlsLeft(cs: seq<BidiClass>, run: IsoRun, k: nat)
    requires k < |cs| && run.sos in {LeftToRight, RightToLeft} && run.eos in {LeftToRight, RightToLeft}
    ensures Weakened(cs, run)[k].IsIsoControl() ==> cs[k].IsIsoControl() || cs[k] == NonspacingMark
  {
    hide Apply;
    var a1 := Apply(RuleW1, cs, run);
    var a2 := Apply(RuleW2, a1, run);
    var a3 := Apply(RuleW3, a2, run);
    var a4 := Apply(RuleW4, a3, run);
    var a5 := Apply(RuleW5, a4, run);
    var a6 := Apply(RuleW6, a5, run);
    ControlsStay(RuleW1, cs, run, k);
    ControlsStay(RuleW2, a1, run, k);
    ControlsStay(RuleW3, a2, run, k);
    ControlsStay(RuleW4, a3, run, k);
    ControlsStay(RuleW5, a4, run, k);
    ControlsStay(RuleW6, a5, run, k);
    ControlsStay(RuleW7, a6, run, k);
  }

  ghost predicate EndsDirected(isoRuns: seq<IsoRun>) {
    forall s :: 0 <= s < |isoRuns| ==>
      isoRuns[s].sos in {LeftToRight, RightToLeft} && isoRuns[s].eos in {LeftToRight, RightToLeft}
  }

  lemma AllWeakenedAlike(before: seq<BidiClass>, a: seq<BidiClass>, b: seq<BidiClass>, levels: seq<Level>, isoRuns: seq<IsoRun>)
    requires |before| == |a| == |b| == |levels| && BoundedRuns(levels, isoRuns) && Covering(levels, isoRuns) && EndsDirected(isoRuns)
    requires AllWeakened(before, a, levels, isoRuns) && AllUaxWeakened(before, b, levels, isoRuns)
    ensures Alike(a, b)
    ensures forall i :: 0 <= i < |a| && a[i].IsIsoControl() ==> before[i].IsIsoControl() || before[i] == NonspacingMark
  {
    hide Live, Weakened, UaxWeakened;
    forall i | 0 <= i < |levels|
      ensures AlikeAt(a[i], b[i]) && (a[i].IsIsoControl() ==> before[i].IsIsoControl() || before[i] == NonspacingMark)
    {
      if levels[i] != NO_LEVEL {
        var s :| 0 <= s < |isoRuns| && i in isoRuns[s].indices;
        var q := LivePlace(before, a, b, levels, isoRuns[s].indices, i);
        var cs := Live(before, levels, isoRuns[s].indices);
        WeakenedAlike(cs, isoRuns[s]);
        assert AlikeAt(Weakened(cs, isoRuns[s])[q], UaxWeakened(cs, isoRuns[s])[q]);
        ControlsLeft(cs, isoRuns[s], q);
      }
    }
  }

  // ----- Through N0 -----

  /** No bracket has the class of an isolate control. */
  ghost predicate NoControlBrackets(a: seq<BidiClass>, paragraph: seq<char>, lookup: BracketTable)
    requires |a| == |paragraph|
  {
    forall i :: 0 <= i < |a| && a[i].IsIsoControl() ==> lookup(paragraph[i]) == None
  }

  lemma MarksAlike(a: seq<BidiClass>, b: seq<BidiClass>, paragraph: seq<char>, lookup: BracketTable, indices: seq<nat>)
    requires Alike(a, b) && |a| == |paragraph| && NoControlBrackets(a, paragraph, lookup)
    requires forall k :: 0 <= k < |indices| ==> indices[k] < |a|
    ensures Marks(a, paragraph, lookup, indices) == Marks(b, paragraph, lookup, indices)
  {
    forall k | 0 <= k < |indices| ensures MarkAt(a, paragraph, lookup, indices[k]) == MarkAt(b, paragraph, lookup, indices[k]) {
      assert AlikeAt(a[indices[k]], b[indices[k]]);
    }
  }

  lemma PairSideAlike(a: seq<BidiClass>, b: seq<BidiClass>, levels: seq<Level>, run: IsoRun, p: Pair)
    requires Alike(a, b) && |a| == |levels| && Bounded(levels, run.indices) && p.openingPos < p.closingPos < |run.indices|
    ensures PairSide(a, levels, run, p) == PairSide(b, levels, run, p)
  {
    hide Live, Neutral.SideBefore;
    assert forall k :: 0 <= k < |run.indices| ==> AlikeAt(a[run.indices[k]], b[run.indices[k]]);
    var prior := run.indices[..p.openingPos];
    LiveAlike(a, b, levels, prior);
    SideBeforeAlike(Live(a, levels, prior), Live(b, levels, prior), |Live(a, levels, prior)|, run.sos);
  }

  lemma PairSetAlike(a: seq<BidiClass>, a': seq<BidiClass>, b: seq<BidiClass>, b': seq<BidiClass>, orig: seq<BidiClass>,
                     levels: seq<Level>, indices: seq<nat>, p: Pair, side: Direction)
    requires Alike(a, b) && |a| == |orig| == |levels| && Bounded(levels, indices)
    requires PairSet(a, a', orig, levels, indices, p, side.AsBidiClass()) && PairSet(b, b', orig, levels, indices, p, side.AsBidiClass())
    ensures Alike(a', b')
  {
    hide Follows;
    forall i | 0 <= i < |a| ensures AlikeAt(a'[i], b'[i]) {
      assert AlikeAt(a[i], b[i]);
      if i in indices {
        var k :| 0 <= k < |indices| && indices[k] == i;
        assert a'[indices[k]] == if Follows(orig, levels, indices, p, k) then side.AsBidiClass() else a[i];
      }
    }
  }

  lemma {:induction false} PairsAlike(a: seq<BidiClass>, a': seq<BidiClass>, b: seq<BidiClass>, b': seq<BidiClass>, orig: seq<BidiClass>,
                                      levels: seq<Level>, run: IsoRun, pairs: seq<Pair>)
    requires Alike(a, b) && |a| == |orig| == |levels| && Bounded(levels, run.indices)
    requires forall k :: 0 <= k < |pairs| ==> pairs[k].openingPos < pairs[k].closingPos < |run.indices|
    requires PairsResolved(a, a', orig, levels, run, pairs) && PairsResolved(b, b', orig, levels, run, pairs)
    ensures Alike(a', b')
    decreases |pairs|
  {
    hide PairSet, PairSide;
    if pairs != [] {
      var n := |pairs| - 1;
      var x := PairsBefore(a, a', orig, levels, run, pairs);
      var y := PairsBefore(b, b', orig, levels, run, pairs);
      PairsAlike(a, x, b, y, orig, levels, run, pairs[..n]);
      PairSideAlike(x, y, levels, run, pairs[n]);
      var side := PairSide(x, levels, run, pairs[n]);
      if side.Some? { PairSetAlike(x, a', y, b', orig, levels, run.indices, pairs[n], side.value); }
    }
  }

  lemma OneAlike(a: seq<BidiClass>, a': seq<BidiClass>, b: seq<BidiClass>, b': seq<BidiClass>, orig: seq<BidiClass>,
                 levels: seq<Level>, run: IsoRun, paragraph: seq<char>, lookup: BracketTable)
    requires Alike(a, b) && |a| == |orig| == |levels| == |paragraph| && Bounded(levels, run.indices)
    requires NoControlBrackets(a, paragraph, lookup)
    requires OneStep(a, a', orig, levels, run, paragraph, lookup) && OneStep(b, b', orig, levels, run, paragraph, lookup)
    ensures Alike(a', b')
  {
    hide PairsResolved, Marks, Collected, ByOpening, OneStep;
    var p := StepPairs(a, a', orig, levels, run, paragraph, lookup);
    var q := StepPairs(b, b', orig, levels, run, paragraph, lookup);
    MarksAlike(a, b, paragraph, lookup, run.indices);
    SortUnique(p, q);
    PairsAlike(a, a', b, b', orig, levels, run, p);
  }

  /** Brackets only ever set L or R, so no control comes up. */
  lemma OneSets(a: seq<BidiClass>, a': seq<BidiClass>, orig: seq<BidiClass>, levels: seq<Level>, run: IsoRun,
                paragraph: seq<char>, lookup: BracketTable)
    requires |a| == |orig| == |levels| == |paragraph| && Bounded(levels, run.indices)
    requires OneResolved(a, a', orig, levels, run, paragraph, lookup)
    requires Collect(Marks(a, paragraph, lookup, run.indices), |run.indices|).Some?
    requires NoControlBrackets(a, paragraph, lookup)
    ensures |a'| == |a| && NoControlBrackets(a', paragraph, lookup)
    ensures forall i :: 0 <= i < |a| && a'[i].IsIsoControl() ==> a[i].IsIsoControl()
  {
    hide OneResolved, OneStep, Marks, Collect, Resolvable;
    StepOf(a, a', orig, levels, run, paragraph, lookup);
    OneEffect(a, a', orig, levels, run, paragraph, lookup);
  }

  lemma {:induction false} BracketsAlike(a: seq<BidiClass>, a': seq<BidiClass>, b: seq<BidiClass>, b': seq<BidiClass>, orig: seq<BidiClass>,
                                         levels: seq<Level>, isoRuns: seq<IsoRun>, paragraph: seq<char>, lookup: BracketTable, n: nat)
    requires Alike(a, b) && |a| == |orig| == |levels| == |paragraph| && n <= |isoRuns| && BoundedRuns(levels, isoRuns)
    requires NoControlBrackets(a, paragraph, lookup)
    requires BracketsResolved(a, a', orig, levels, isoRuns, paragraph, lookup, n)
    requires BracketsResolved(b, b', orig, levels, isoRuns, paragraph, lookup, n)
    ensures Alike(a', b') && NoControlBrackets(a', paragraph, lookup)
    ensures forall i :: 0 <= i < |a| && a'[i].IsIsoControl() ==> a[i].IsIsoControl()
    decreases n
  {
    hide BracketsResolved, OneResolved, OneStep, Marks, Collect, NoControlBrackets, Alike;
    AlikeLength(a, b);
    if n == 0 {
      NoneResolved(a, a', orig, levels, isoRuns, paragraph, lookup);
      NoneResolved(b, b', orig, levels, isoRuns, paragraph, lookup);
    } else {
      var x := LastResolved(a, a', orig, levels, isoRuns, paragraph, lookup, n);
      var y := LastResolved(b, b', orig, levels, isoRuns, paragraph, lookup, n);
      BracketsAlike(a, x, b, y, orig, levels, isoRuns, paragraph, lookup, n - 1);
      StepOf(x, a', orig, levels, isoRuns[n - 1], paragraph, lookup);
      StepOf(y, b', orig, levels, isoRuns[n - 1], paragraph, lookup);
      OneAlike(x, a', y, b', orig, levels, isoRuns[n - 1], paragraph, lookup);
      OneSets(x, a', orig, levels, isoRuns[n - 1], paragraph, lookup);
    }
  }

  lemma AlikeLength(a: seq<BidiClass>, b: seq<BidiClass>)
    requires Alike(a, b)
    ensures |a| == |b|
  {
  }

  /** The step at which a later one passed a sequence. */
  lemma {:induction false} StepPassed(start: seq<BidiClass>, types: seq<BidiClass>, orig: seq<BidiClass>, levels: seq<Level>,
                                      isoRuns: seq<IsoRun>, paragraph: seq<char>, lookup: BracketTable, m: nat, n: nat) returns (mid: seq<BidiClass>)
    requires |start| == |orig| == |levels| == |paragraph| && m < n <= |isoRuns| && BoundedRuns(levels, isoRuns)
    requires BracketsResolved(start, types, orig, levels, isoRuns, paragraph, lookup, n)
    ensures |mid| == |start| && BracketsResolved(start, mid, orig, levels, isoRuns, paragraph, lookup, m)
    ensures Collect(Marks(mid, paragraph, lookup, isoRuns[m].indices), |isoRuns[m].indices|).Some?
    decreases n
  {
    hide BracketsResolved, OneResolved, Collect, Marks;
    mid := LastResolved(start, types, orig, levels, isoRuns, paragraph, lookup, n);
    if m < n - 1 { mid := StepPassed(start, mid, orig, levels, isoRuns, paragraph, lookup, m, n - 1); }
  }

  /** N0 keeps the two alike. */
  lemma BracketRuleAlike(a: seq<BidiClass>, a': seq<BidiClass>, b: seq<BidiClass>, b': seq<BidiClass>, orig: seq<BidiClass>,
                         levels: seq<Level>, isoRuns: seq<IsoRun>, paragraph: seq<char>, lookup: BracketTable)
    requires Alike(a, b) && |a| == |orig| == |levels| == |paragraph| && BoundedRuns(levels, isoRuns)
    requires NoControlBrackets(a, paragraph, lookup)
    requires N0(a, a', orig, levels, isoRuns, paragraph, lookup) && N0(b, b', orig, levels, isoRuns, paragraph, lookup)
    ensures Alike(a', b')
    ensures forall i :: 0 <= i < |a| && a'[i].IsIsoControl() ==> a[i].IsIsoControl()
  {
    hide BracketsResolved, Collect, Marks, NoControlBrackets, Alike;
    AlikeLength(a, b);
    var m: nat :| m <= |isoRuns| && BracketsResolved(a, a', orig, levels, isoRuns, paragraph, lookup, m)
      && (m < |isoRuns| ==> Collect(Marks(a', paragraph, lookup, isoRuns[m].indices), |isoRuns[m].indices|).None?);
    var n: nat :| n <= |isoRuns| && BracketsResolved(b, b', orig, levels, isoRuns, paragraph, lookup, n)
      && (n < |isoRuns| ==> Collect(Marks(b', paragraph, lookup, isoRuns[n].indices), |isoRuns[n].indices|).None?);
    if m < n {
      var mid := StepPassed(b, b', orig, levels, isoRuns, paragraph, lookup, m, n);
      BracketsAlike(a, a', b, mid, orig, levels, isoRuns, paragraph, lookup, m);
      MarksAlike(a', mid, paragraph, lookup, isoRuns[m].indices);
    }
    if n < m {
      var mid := StepPassed(a, a', orig, levels, isoRuns, paragraph, lookup, n, m);
      BracketsAlike(a, mid, b, b', orig, levels, isoRuns, paragraph, lookup, n);
      MarksAlike(mid, b', paragraph, lookup, isoRuns[n].indices);
    }
    BracketsAlike(a, a', b, b', orig, levels, isoRuns, paragraph, lookup, m);
  }

  // ----- The whole paragraph -----

  lemma SequencesFit(classes: seq<BidiClass>, levels: seq<Level>, base: Level, runs: seq<Run>, isoRuns: seq<IsoRun>)
    requires Sequences(classes, levels, base, runs, isoRuns)
    ensures BoundedRuns(levels, isoRuns) && Covering(levels, isoRuns) && EndsDirected(isoRuns)
  {
    hide Tiling, TailRemoved, Partition;
    Covered(classes, levels, base, runs, isoRuns);
  }

  /** X1-X9 make no marks and no controls. */
  lemma ControlsCame(types: seq<BidiClass>, base: Level, classes: seq<BidiClass>, levels: seq<Level>, i: nat)
    requires Explained(types, base, classes, levels) && i < |types|
    ensures |types| == |classes| == |levels|
    ensures classes[i].IsIsoControl() || classes[i] == NonspacingMark ==> types[i] == classes[i]
    ensures levels[i] == NO_LEVEL ==> !classes[i].IsIsoControl()
  {
    hide RunTo, ClassAt, LevelAt;
    assert ExplainedAt(types, base, i, classes[i], levels[i]);
    ClassFrom(types, base, i);
    CharacterOf(types, base, classes, levels, i);
  }

  /** Neutrals that N1 and N2 start from alike end the same, and so do removed
      characters. */
  lemma AllNeutralizedAlike(a: seq<BidiClass>, a': seq<BidiClass>, b: seq<BidiClass>, b': seq<BidiClass>, levels: seq<Level>, isoRuns: seq<IsoRun>)
    requires Alike(a, b) && |a| == |a'| == |b'| == |levels| && BoundedRuns(levels, isoRuns) && Covering(levels, isoRuns)
    requires AllNeutralized(a, a', levels, isoRuns) && AllNeutralized(b, b', levels, isoRuns)
    requires forall i :: 0 <= i < |levels| && levels[i] == NO_LEVEL ==> !a[i].IsIsoControl()
    ensures a' == b'
  {
    hide Live, Neutralized;
    forall i | 0 <= i < |levels| ensures a'[i] == b'[i] {
      assert AlikeAt(a[i], b[i]);
      if levels[i] != NO_LEVEL {
        var s :| 0 <= s < |isoRuns| && i in isoRuns[s].indices;
        var indices := isoRuns[s].indices;
        assert forall k :: 0 <= k < |indices| ==> AlikeAt(a[indices[k]], b[indices[k]]);
        LiveAlike(a, b, levels, indices);
        NeutralizedAlike(Live(a, levels, indices), Live(b, levels, indices), isoRuns[s]);
        var q := LivePlace(a', b', a, levels, indices, i);
      }
    }
  }

  /** Resolving with W1 as UAX #9 has it gives the classes, and with them the levels, that
      the source gives, if no mark and no isolate control is a bracket, as none is. */
  lemma SameInTheEnd(types: seq<BidiClass>, base: Level, paragraph: seq<char>, lookup: BracketTable, st: Stages,
                     classes: seq<BidiClass>, levels: seq<Level>, weak: seq<BidiClass>, paired: seq<BidiClass>, uaxClasses: seq<BidiClass>)
    requires Resolved(types, base, paragraph, lookup, st, classes, levels)
    requires |weak| == |paired| == |uaxClasses| == |types|
    requires BoundedRuns(st.explicitLevels, st.isoRuns)
    requires AllUaxWeakened(st.explicitClasses, weak, st.explicitLevels, st.isoRuns)
    requires if paragraph == [] then paired == weak
             else N0(weak, paired, types, st.explicitLevels, st.isoRuns, paragraph, lookup)
    requires AllNeutralized(paired, uaxClasses, st.explicitLevels, st.isoRuns)
    requires forall i :: 0 <= i < |paragraph| && (types[i] == NonspacingMark || types[i].IsIsoControl()) ==> lookup(paragraph[i]) == None
    ensures uaxClasses == classes
  {
    hide Explained, Sequences, AllWeakened, AllUaxWeakened, N0, AllNeutralized, Alike, LiveClasses, Levelled, BoundedRuns, Covering, EndsDirected;
    var c, l := st.explicitClasses, st.explicitLevels;
    SequencesFit(c, l, base, st.runs, st.isoRuns);
    AllWeakenedAlike(c, st.weak, weak, l, st.isoRuns);
    forall i | 0 <= i < |types|
      ensures st.weak[i].IsIsoControl() && paragraph != [] ==> lookup(paragraph[i]) == None
    {
      ControlsCame(types, base, c, l, i);
    }
    forall i | 0 <= i < |types| && l[i] == NO_LEVEL ensures !st.weak[i].IsIsoControl() {
      ControlsCame(types, base, c, l, i);
      RemovedKeptAt(c, st.weak, l, st.isoRuns, i);
    }
    if paragraph != [] {
      BracketRuleAlike(st.weak, st.paired, weak, paired, types, l, st.isoRuns, paragraph, lookup);
    }
    AllNeutralizedAlike(st.paired, classes, paired, uaxClasses, l, st.isoRuns);
  }

  lemma RemovedKeptAt(before: seq<BidiClass>, after: seq<BidiClass>, levels: seq<Level>, isoRuns: seq<IsoRun>, i: nat)
    requires |before| == |after| == |levels| && BoundedRuns(levels, isoRuns) && AllWeakened(before, after, levels, isoRuns)
    requires i < |levels| && levels[i] == NO_LEVEL
    ensures after[i] == before[i]
  {
    hide Live, Weakened;
  }
}
