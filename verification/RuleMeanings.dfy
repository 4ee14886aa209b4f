/** W1-W7, N1 and N2 in a row, read off the text: the classes a sequence ends up with are those
    that seven and two steps of the rules as conditions give, and no others. */
module RuleMeanings {
  import opened BidiTypes
  import opened Runs
  import opened TextChains
  import opened PlainRules
  import opened Rules
  import opened MarksAfterControls
  import Weak
  import Neutral

  /** `bc` is what the rule makes of the character at `k`. */
  ghost predicate ByRule(rule: Rule, cs: seq<BidiClass>, run: IsoRun, k: nat, bc: BidiClass)
    requires k < |cs|
  {
    match rule
    case RuleW1 => ByW1(cs, k, run.sos, bc)
    case RuleW2 => ByW2(cs, k, bc)
    case RuleW3 => ByW3(cs, k, bc)
    case RuleW4 => ByW4(cs, k, bc)
    case RuleW5 => ByW5(cs, k, bc)
    case RuleW6 => ByW6(cs, k, bc)
    case RuleW7 => ByW7(cs, k, run.sos, bc)
    case RuleN1 => ByN1(cs, k, run.sos, run.eos, bc)
    case RuleN2 => ByN2(cs, k, run.level, bc)
  }

  ghost predicate Steps(rule: Rule, before: seq<BidiClass>, after: seq<BidiClass>, run: IsoRun) {
    |after| == |before| && forall k :: 0 <= k < |before| ==> ByRule(rule, before, run, k, after[k])
  }

  lemma OnItself(cs: seq<BidiClass>, out: seq<BidiClass>) returns (f: seq<nat>)
    requires AllKept(cs) && |out| == |cs|
    ensures Around(cs, out, cs, out, f)
  {
    hide KEPT_CLASSES;
    f := seq(|cs|, k requires 0 <= k < |cs| => k);
    forall p | 0 <= p < |cs| ensures p in f { assert f[p] == p; }
  }

  predicate Ended(run: IsoRun) {
    run.sos in {LeftToRight, RightToLeft} && run.eos in {LeftToRight, RightToLeft}
  }

  /** Each rule does what its condition says. */
  lemma ApplySteps(rule: Rule, cs: seq<BidiClass>, run: IsoRun)
    requires AllKept(cs) && Ended(run)
    ensures Steps(rule, cs, Apply(rule, cs, run), run)
    ensures AllKept(Apply(rule, cs, run))
  {
    hide AllKept, ByW1, ByW2, ByW3, ByW4, ByW5, ByW6, ByW7, ByN1, ByN2, Around;
    var f := OnItself(cs, Apply(rule, cs, run));
    ApplyKept(rule, cs, run);
    match rule
    case RuleW1 => Weak.W1Means(cs, Apply(rule, cs, run), cs, f, run.sos);
    case RuleW2 => Weak.W2Means(cs, Apply(rule, cs, run), cs, f, run.sos);
    case RuleW3 => Weak.W3Means(cs, Apply(rule, cs, run), cs, f);
    case RuleW4 => Weak.W4Means(cs, Apply(rule, cs, run), cs, f);
    case RuleW5 => Weak.W5Means(cs, Apply(rule, cs, run), cs, f);
    case RuleW6 => Weak.W6Means(cs, Apply(rule, cs, run), cs, f);
    case RuleW7 => Weak.W7Means(cs, Apply(rule, cs, run), cs, f, run.sos);
    case RuleN1 => Neutral.N1Means(cs, Apply(rule, cs, run), cs, f, run.sos, run.eos);
    case RuleN2 => Neutral.N2Means(cs, Apply(rule, cs, run), cs, f, run.level);
  }

  lemma ApplyKept(rule: Rule, cs: seq<BidiClass>, run: IsoRun)
    requires AllKept(cs) && Ended(run)
    ensures AllKept(Apply(rule, cs, run))
  {
    hide Apply, ClassesAfter;
    ApplyClasses(rule, cs, run, KEPT_CLASSES);
    AfterKept(rule);
    var out := Apply(rule, cs, run);
    forall k | 0 <= k < |out| ensures out[k] in KEPT_CLASSES {
      assert out[k] in KEPT_CLASSES;
    }
  }

  /** And the condition leaves no choice. */
  lemma ByRuleUnique(rule: Rule, cs: seq<BidiClass>, run: IsoRun, k: nat, a: BidiClass, b: BidiClass)
    requires k < |cs| && ByRule(rule, cs, run, k, a) && ByRule(rule, cs, run, k, b)
    ensures a == b
  {
    hide KEPT_CLASSES, Amid, Flanked, ByW1, Back, NoneBack, Ahead;
    if rule.RuleW1? { ByW1Unique(cs, k, run.sos, a, b); }
  }

  lemma ByW1Unique(cs: seq<BidiClass>, k: nat, sos: BidiClass, a: BidiClass, b: BidiClass)
    requires k < |cs| && ByW1(cs, k, sos, a) && ByW1(cs, k, sos, b)
    ensures a == b
  {
    hide KEPT_CLASSES, Back, NoneBack;
    if cs[k] == NonspacingMark { NearestUnique(cs, k, sos, a, b, KEPT_CLASSES - {NonspacingMark}); }
  }

  ghost predicate Nearest(cs: seq<BidiClass>, k: nat, edge: BidiClass, bc: BidiClass, stop: set<BidiClass>)
    requires k <= |cs|
  {
    (bc in stop && Back(cs, k, {bc}, stop)) || (bc == edge && NoneBack(cs, k, stop))
  }

  lemma NearestUnique(cs: seq<BidiClass>, k: nat, edge: BidiClass, a: BidiClass, b: BidiClass, stop: set<BidiClass>)
    requires k <= |cs| && Nearest(cs, k, edge, a, stop) && Nearest(cs, k, edge, b, stop)
    ensures a == b
  {
    if a in stop && Back(cs, k, {a}, stop) && b in stop && Back(cs, k, {b}, stop) {
      var i :| 0 <= i < k && cs[i] in {a} && forall h :: i < h < k ==> cs[h] !in stop;
      var j :| 0 <= j < k && cs[j] in {b} && forall h :: j < h < k ==> cs[h] !in stop;
    }
  }

  lemma StepsUnique(rule: Rule, cs: seq<BidiClass>, out: seq<BidiClass>, run: IsoRun)
    requires AllKept(cs) && Ended(run)
    ensures Steps(rule, cs, out, run) <==> out == Apply(rule, cs, run)
  {
    hide ByRule, Apply, AllKept;
    ApplySteps(rule, cs, run);
    if Steps(rule, cs, out, run) {
      forall k | 0 <= k < |cs| ensures out[k] == Apply(rule, cs, run)[k] {
        ByRuleUnique(rule, cs, run, k, out[k], Apply(rule, cs, run)[k]);
      }
    }
  }

  /** The classes between the weak rules. */
  datatype Weakening = Weakening(w1: seq<BidiClass>, w2: seq<BidiClass>, w3: seq<BidiClass>,
                                 w4: seq<BidiClass>, w5: seq<BidiClass>, w6: seq<BidiClass>)

  /** W1 to W7, one after the other, lead from `cs` to `out`. */
  ghost predicate Weakens(cs: seq<BidiClass>, w: Weakening, out: seq<BidiClass>, sos: BidiClass) {
    && |cs| == |w.w1| == |w.w2| == |w.w3| == |w.w4| == |w.w5| == |w.w6| == |out|
    && forall k :: 0 <= k < |cs| ==>
         && ByW1(cs, k, sos, w.w1[k])
         && ByW2(w.w1, k, w.w2[k])
         && ByW3(w.w2, k, w.w3[k])
         && ByW4(w.w3, k, w.w4[k])
         && ByW5(w.w4, k, w.w5[k])
         && ByW6(w.w5, k, w.w6[k])
         && ByW7(w.w6, k, sos, out[k])
  }

  lemma WeakensSteps(cs: seq<BidiClass>, w: Weakening, out: seq<BidiClass>, run: IsoRun)
    ensures Weakens(cs, w, out, run.sos) <==>
      && Steps(RuleW1, cs, w.w1, run) && Steps(RuleW2, w.w1, w.w2, run) && Steps(RuleW3, w.w2, w.w3, run)
      && Steps(RuleW4, w.w3, w.w4, run) && Steps(RuleW5, w.w4, w.w5, run) && Steps(RuleW6, w.w5, w.w6, run)
      && Steps(RuleW7, w.w6, out, run)
  {
    hide ByW1, ByW2, ByW3, ByW4, ByW5, ByW6, ByW7;
  }

  lemma FromW2(w1: seq<BidiClass>, w: Weakening, out: seq<BidiClass>, run: IsoRun)
    requires AllKept(w1) && Ended(run)
    ensures (&& Steps(RuleW2, w1, w.w2, run) && Steps(RuleW3, w.w2, w.w3, run)
             && Steps(RuleW4, w.w3, w.w4, run) && Steps(RuleW5, w.w4, w.w5, run) && Steps(RuleW6, w.w5, w.w6, run)
             && Steps(RuleW7, w.w6, out, run))
       <==> (&& w.w2 == Apply(RuleW2, w1, run) && w.w3 == Apply(RuleW3, w.w2, run)
             && w.w4 == Apply(RuleW4, w.w3, run) && w.w5 == Apply(RuleW5, w.w4, run) && w.w6 == Apply(RuleW6, w.w5, run)
             && out == Apply(RuleW7, w.w6, run))
  {
    hide Steps, Apply, AllKept;
    var w2 := Apply(RuleW2, w1, run);
    var w3 := Apply(RuleW3, w2, run);
    var w4 := Apply(RuleW4, w3, run);
    var w5 := Apply(RuleW5, w4, run);
    var w6 := Apply(RuleW6, w5, run);
    ApplyKept(RuleW2, w1, run); ApplyKept(RuleW3, w2, run); ApplyKept(RuleW4, w3, run);
    ApplyKept(RuleW5, w4, run); ApplyKept(RuleW6, w5, run);
    StepsUnique(RuleW2, w1, w.w2, run); StepsUnique(RuleW3, w2, w.w3, run); StepsUnique(RuleW4, w3, w.w4, run);
    StepsUnique(RuleW5, w4, w.w5, run); StepsUnique(RuleW6, w5, w.w6, run); StepsUnique(RuleW7, w6, out, run);
  }

  /** What W1-W7 make of a sequence is what their conditions, step by step, make of it. */
  lemma WeakenedExactly(cs: seq<BidiClass>, out: seq<BidiClass>, run: IsoRun)
    requires AllKept(cs) && Ended(run)
    ensures out == Weakened(cs, run) <==> exists w :: Weakens(cs, w, out, run.sos)
  {
    hide Weakens, Steps, Apply, AllKept;
    var w1 := Apply(RuleW1, cs, run);
    ApplyKept(RuleW1, cs, run);
    if w :| Weakens(cs, w, out, run.sos) {
      WeakensSteps(cs, w, out, run);
      StepsUnique(RuleW1, cs, w.w1, run);
      FromW2(w1, w, out, run);
    }
    var w2 := Apply(RuleW2, w1, run);
    var w3 := Apply(RuleW3, w2, run);
    var w4 := Apply(RuleW4, w3, run);
    var w5 := Apply(RuleW5, w4, run);
    var w := Weakening(w1, w2, w3, w4, w5, Apply(RuleW6, w5, run));
    StepsUnique(RuleW1, cs, w1, run);
    FromW2(w1, w, Weakened(cs, run), run);
    WeakensSteps(cs, w, Weakened(cs, run), run);
  }

  /** And what N1 and N2 make of it. */
  ghost predicate Neutralizes(cs: seq<BidiClass>, mid: seq<BidiClass>, out: seq<BidiClass>, run: IsoRun) {
    && |cs| == |mid| == |out|
    && forall k :: 0 <= k < |cs| ==> ByN1(cs, k, run.sos, run.eos, mid[k]) && ByN2(mid, k, run.level, out[k])
  }

  lemma NeutralizedExactly(cs: seq<BidiClass>, out: seq<BidiClass>, run: IsoRun)
    requires AllKept(cs) && Ended(run)
    ensures out == Neutralized(cs, run) <==> exists mid :: Neutralizes(cs, mid, out, run)
  {
    hide ByN1, ByN2, Apply, AllKept;
    var n1 := Apply(RuleN1, cs, run);
    ApplyKept(RuleN1, cs, run);
    StepsUnique(RuleN1, cs, n1, run);
    StepsUnique(RuleN2, n1, Neutralized(cs, run), run);
    assert Neutralizes(cs, n1, Neutralized(cs, run), run);
    if mid :| Neutralizes(cs, mid, out, run) {
      StepsUnique(RuleN1, cs, mid, run);
      StepsUnique(RuleN2, n1, out, run);
    }
  }

  // ----- W1 as UAX #9 has it -----

  /** W1: a mark takes the class of the character before it that is no mark, ON after an
      isolate control, or sos. */
  ghost predicate ByUaxW1(cs: seq<BidiClass>, k: nat, sos: BidiClass, bc: BidiClass)
    requires k < |cs|
  {
    if cs[k] != NonspacingMark then bc == cs[k]
    else
      var controls := {LeftToRightIsolate, RightToLeftIsolate, FirstStrongIsolate, PopDirectionalIsolate};
      var stop := KEPT_CLASSES - {NonspacingMark};
      || (bc in stop - controls && Back(cs, k, {bc}, stop))
      || (bc == OtherNeutral && Back(cs, k, controls, stop))
      || (bc == sos && NoneBack(cs, k, stop))
  }

  /** What the rules give that the source's sequences are compared with. */
  lemma UaxWeakenedExactly(cs: seq<BidiClass>, out: seq<BidiClass>, run: IsoRun)
    requires AllKept(cs) && Ended(run)
    ensures out == UaxWeakened(cs, run) <==>
      exists w :: UaxWeakens(cs, w, out, run.sos)
  {
    hide UaxWeakens, Steps, Apply, AllKept, UaxW1;
    var w1 := UaxW1(cs, run.sos);
    UaxW1Means(cs, run.sos);
    if w :| UaxWeakens(cs, w, out, run.sos) {
      UaxWeakensSteps(cs, w, out, run);
      UaxW1Only(cs, w.w1, run.sos);
      FromW2(w1, w, out, run);
    }
    var w2 := Apply(RuleW2, w1, run);
    var w3 := Apply(RuleW3, w2, run);
    var w4 := Apply(RuleW4, w3, run);
    var w5 := Apply(RuleW5, w4, run);
    var w := Weakening(w1, w2, w3, w4, w5, Apply(RuleW6, w5, run));
    FromW2(w1, w, UaxWeakened(cs, run), run);
    UaxWeakensSteps(cs, w, UaxWeakened(cs, run), run);
  }

  ghost predicate UaxWeakens(cs: seq<BidiClass>, w: Weakening, out: seq<BidiClass>, sos: BidiClass) {
    && |cs| == |w.w1| == |w.w2| == |w.w3| == |w.w4| == |w.w5| == |w.w6| == |out|
    && forall k :: 0 <= k < |cs| ==>
         && ByUaxW1(cs, k, sos, w.w1[k])
         && ByW2(w.w1, k, w.w2[k])
         && ByW3(w.w2, k, w.w3[k])
         && ByW4(w.w3, k, w.w4[k])
         && ByW5(w.w4, k, w.w5[k])
         && ByW6(w.w5, k, w.w6[k])
         && ByW7(w.w6, k, sos, out[k])
  }

  ghost predicate UaxFirst(cs: seq<BidiClass>, w1: seq<BidiClass>, sos: BidiClass) {
    |w1| == |cs| && forall k :: 0 <= k < |cs| ==> ByUaxW1(cs, k, sos, w1[k])
  }

  lemma UaxWeakensSteps(cs: seq<BidiClass>, w: Weakening, out: seq<BidiClass>, run: IsoRun)
    ensures UaxWeakens(cs, w, out, run.sos) <==>
      && UaxFirst(cs, w.w1, run.sos) && Steps(RuleW2, w.w1, w.w2, run) && Steps(RuleW3, w.w2, w.w3, run)
      && Steps(RuleW4, w.w3, w.w4, run) && Steps(RuleW5, w.w4, w.w5, run) && Steps(RuleW6, w.w5, w.w6, run)
      && Steps(RuleW7, w.w6, out, run)
  {
    hide ByUaxW1, ByW2, ByW3, ByW4, ByW5, ByW6, ByW7;
  }

  lemma UaxW1Means(cs: seq<BidiClass>, sos: BidiClass)
    requires AllKept(cs) && sos in {LeftToRight, RightToLeft}
    ensures AllKept(UaxW1(cs, sos)) && UaxFirst(cs, UaxW1(cs, sos), sos)
  {
    hide Back, NoneBack, Weak.BaseBefore;
    forall k | 0 <= k < |cs| ensures UaxW1(cs, sos)[k] in KEPT_CLASSES && ByUaxW1(cs, k, sos, UaxW1(cs, sos)[k]) {
      Weak.BaseBeforeMeans(cs, k, sos);
      var bc, stop := Weak.BaseBefore(cs, k, sos), KEPT_CLASSES - {NonspacingMark};
      if bc.IsIsoControl() {
        BackMore(cs, k, bc, {LeftToRightIsolate, RightToLeftIsolate, FirstStrongIsolate, PopDirectionalIsolate}, stop);
      }
    }
  }

  lemma BackMore(cs: seq<BidiClass>, k: nat, bc: BidiClass, found: set<BidiClass>, stop: set<BidiClass>)
    requires k <= |cs| && bc in found && Back(cs, k, {bc}, stop)
    ensures Back(cs, k, found, stop)
  {
  }

  lemma UaxW1Only(cs: seq<BidiClass>, w1: seq<BidiClass>, sos: BidiClass)
    requires AllKept(cs) && sos in {LeftToRight, RightToLeft} && UaxFirst(cs, w1, sos)
    ensures w1 == UaxW1(cs, sos)
  {
    hide KEPT_CLASSES, AllKept, UaxW1, ByUaxW1;
    UaxW1Means(cs, sos);
    forall k | 0 <= k < |cs| ensures w1[k] == UaxW1(cs, sos)[k] {
      ByUaxW1Unique(cs, k, sos, w1[k], UaxW1(cs, sos)[k]);
    }
  }

  lemma ByUaxW1Unique(cs: seq<BidiClass>, k: nat, sos: BidiClass, a: BidiClass, b: BidiClass)
    requires k < |cs| && ByUaxW1(cs, k, sos, a) && ByUaxW1(cs, k, sos, b)
    ensures a == b
  {
    hide KEPT_CLASSES;
    var stop := KEPT_CLASSES - {NonspacingMark};
    ControlsStop();
  }

  lemma ControlsStop()
    ensures {LeftToRightIsolate, RightToLeftIsolate, FirstStrongIsolate, PopDirectionalIsolate} <= KEPT_CLASSES - {NonspacingMark}
  {
  }
}
