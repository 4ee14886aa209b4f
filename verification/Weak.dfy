/** Rules W1-W7 as UAX #9 states them, except that W1 gives a mark after an isolate control
    the class of the control, as the source does, and not ON. They are rules on a sequence
    from which the characters that rule X9 removed are gone: every rule reads the classes on
    entry and applies everywhere at once. The passes walk the chain in place, read what they
    have already written and step over removed characters; each is proved to compute its
    rule. */
module Weak {
  import opened Wrappers
  import opened BidiTypes
  import opened Runs
  import opened TextChains
  import opened PlainRules

  // ----- The rules -----

  /** The class of the nearest character before `k` that is no NSM, or sos. */
  function BaseBefore(cs: seq<BidiClass>, k: nat, sos: BidiClass): BidiClass
    requires k <= |cs|
  {
    if k == 0 then sos
    else if cs[k - 1] != NonspacingMark then cs[k - 1]
    else BaseBefore(cs, k - 1, sos)
  }

  function W1(cs: seq<BidiClass>, sos: BidiClass): (r: seq<BidiClass>)
    ensures |r| == |cs|
  {
    seq(|cs|, k requires 0 <= k < |cs| => if cs[k] == NonspacingMark then BaseBefore(cs, k, sos) else cs[k])
  }

  /** The nearest class of `strong` before `k`, or sos. */
  function StrongBefore(cs: seq<BidiClass>, k: nat, sos: BidiClass, strong: set<BidiClass>): BidiClass
    requires k <= |cs|
  {
    if k == 0 then sos
    else if cs[k - 1] in strong then cs[k - 1]
    else StrongBefore(cs, k - 1, sos, strong)
  }

  const LETTERS := {LeftToRight, RightToLeft, ArabicLetter}
  const SIDES := {LeftToRight, RightToLeft}

  function W2(cs: seq<BidiClass>, sos: BidiClass): (r: seq<BidiClass>)
    ensures |r| == |cs|
  {
    seq(|cs|, k requires 0 <= k < |cs| =>
      if cs[k] == EuropeanNumber && StrongBefore(cs, k, sos, LETTERS) == ArabicLetter then ArabicNumber else cs[k])
  }

  function W3(cs: seq<BidiClass>): (r: seq<BidiClass>)
    ensures |r| == |cs|
  {
    seq(|cs|, k requires 0 <= k < |cs| => if cs[k] == ArabicLetter then RightToLeft else cs[k])
  }

  /** The characters on both sides of `k` are of class `bc`. */
  predicate Surrounded(cs: seq<BidiClass>, k: nat, bc: BidiClass) {
    0 < k < |cs| - 1 && cs[k - 1] == bc && cs[k + 1] == bc
  }

  function W4(cs: seq<BidiClass>): (r: seq<BidiClass>)
    ensures |r| == |cs|
  {
    seq(|cs|, k requires 0 <= k < |cs| =>
      if cs[k] in {EuropeanSeparator, CommonSeparator} && Surrounded(cs, k, EuropeanNumber) then EuropeanNumber
      else if cs[k] == CommonSeparator && Surrounded(cs, k, ArabicNumber) then ArabicNumber
      else cs[k])
  }

  /** Only European terminators lie between `k` and a European number before it. */
  predicate NumberBefore(cs: seq<BidiClass>, k: nat)
    requires k <= |cs|
  {
    k > 0 && (cs[k - 1] == EuropeanNumber || (cs[k - 1] == EuropeanTerminator && NumberBefore(cs, k - 1)))
  }

  predicate NumberAfter(cs: seq<BidiClass>, k: nat)
    requires k < |cs|
    decreases |cs| - k
  {
    k + 1 < |cs| && (cs[k + 1] == EuropeanNumber || (cs[k + 1] == EuropeanTerminator && NumberAfter(cs, k + 1)))
  }

  function W5(cs: seq<BidiClass>): (r: seq<BidiClass>)
    ensures |r| == |cs|
  {
    seq(|cs|, k requires 0 <= k < |cs| =>
      if cs[k] == EuropeanTerminator && (NumberBefore(cs, k) || NumberAfter(cs, k)) then EuropeanNumber else cs[k])
  }

  function W6(cs: seq<BidiClass>): (r: seq<BidiClass>)
    ensures |r| == |cs|
  {
    seq(|cs|, k requires 0 <= k < |cs| =>
      if cs[k] in {EuropeanSeparator, CommonSeparator, EuropeanTerminator} then OtherNeutral else cs[k])
  }

  function W7(cs: seq<BidiClass>, sos: BidiClass): (r: seq<BidiClass>)
    ensures |r| == |cs|
  {
    seq(|cs|, k requires 0 <= k < |cs| =>
      if cs[k] == EuropeanNumber && StrongBefore(cs, k, sos, SIDES) == LeftToRight then LeftToRight else cs[k])
  }

  // ----- What the rules say of the text -----

  lemma {:induction false} BaseBeforeMeans(cs: seq<BidiClass>, k: nat, sos: BidiClass)
    requires AllKept(cs) && k <= |cs|
    ensures var bc, stop := BaseBefore(cs, k, sos), KEPT_CLASSES - {NonspacingMark};
      (bc in stop && Back(cs, k, {bc}, stop)) || (bc == sos && NoneBack(cs, k, stop))
  {
    hide KEPT_CLASSES;
    if k > 0 {
      var bc, stop := BaseBefore(cs, k, sos), KEPT_CLASSES - {NonspacingMark};
      BackStep(cs, k - 1, if bc in stop then {bc} else {}, stop);
      if cs[k - 1] == NonspacingMark { BaseBeforeMeans(cs, k - 1, sos); }
    }
  }

  lemma {:induction false} StrongBeforeMeans(cs: seq<BidiClass>, k: nat, sos: BidiClass, strong: set<BidiClass>, bc: BidiClass)
    requires k <= |cs| && bc in strong
    ensures StrongBefore(cs, k, sos, strong) == bc <==> Back(cs, k, {bc}, strong) || (sos == bc && NoneBack(cs, k, strong))
  {
    if k > 0 {
      BackStep(cs, k - 1, {bc}, strong);
      StrongBeforeMeans(cs, k - 1, sos, strong, bc);
    }
  }

  lemma SurroundedMeans(cs: seq<BidiClass>, k: nat, bc: BidiClass)
    requires AllKept(cs) && k < |cs| && bc in KEPT_CLASSES
    ensures Surrounded(cs, k, bc) <==> Amid(cs, k, bc)
  {
    hide KEPT_CLASSES;
    if k > 0 { BackStep(cs, k - 1, {bc}, KEPT_CLASSES); }
    if k + 1 < |cs| { AheadStep(cs, k + 1, {bc}, KEPT_CLASSES); }
  }

  lemma {:induction false} NumberBeforeMeans(cs: seq<BidiClass>, k: nat)
    requires AllKept(cs) && k <= |cs|
    ensures NumberBefore(cs, k) <==> Back(cs, k, {EuropeanNumber}, KEPT_CLASSES - {EuropeanTerminator})
  {
    NumberIsKept();
    hide KEPT_CLASSES;
    if k > 0 {
      BackStep(cs, k - 1, {EuropeanNumber}, KEPT_CLASSES - {EuropeanTerminator});
      NumberBeforeMeans(cs, k - 1);
    }
  }

  lemma {:induction false} NumberAfterMeans(cs: seq<BidiClass>, k: nat)
    requires AllKept(cs) && k < |cs|
    ensures NumberAfter(cs, k) <==> Ahead(cs, k, {EuropeanNumber}, KEPT_CLASSES - {EuropeanTerminator})
    decreases |cs| - k
  {
    NumberIsKept();
    hide KEPT_CLASSES;
    if k + 1 < |cs| {
      AheadStep(cs, k + 1, {EuropeanNumber}, KEPT_CLASSES - {EuropeanTerminator});
      NumberAfterMeans(cs, k + 1);
    }
  }

  lemma NumberIsKept()
    ensures {EuropeanNumber} <= KEPT_CLASSES - {EuropeanTerminator}
    ensures {EuropeanNumber} <= KEPT_CLASSES && {ArabicNumber} <= KEPT_CLASSES
  {
  }

  lemma W1Means(all: seq<BidiClass>, after: seq<BidiClass>, cs: seq<BidiClass>, f: seq<nat>, sos: BidiClass)
    requires Around(all, after, cs, W1(cs, sos), f)
    ensures |after| == |all| && forall p :: 0 <= p < |all| ==> ByW1(all, p, sos, after[p])
  {
    hide Around, KEPT_CLASSES, Remain, AllKept, BaseBefore, Back, NoneBack;
    var stop := KEPT_CLASSES - {NonspacingMark};
    AroundSize(all, after, cs, W1(cs, sos), f);
    forall p | 0 <= p < |all| ensures ByW1(all, p, sos, after[p]) {
      var k := AroundAt(all, after, cs, W1(cs, sos), f, p);
      assert NonspacingMark in KEPT_CLASSES by { KeptClass(NonspacingMark); }
      if all[p] == NonspacingMark {
        var bc := BaseBefore(cs, k, sos);
        BaseBeforeMeans(cs, k, sos);
        BackSame(all, cs, f, k, if bc in stop then {bc} else {}, stop);
      }
    }
  }

  lemma W2Means(all: seq<BidiClass>, after: seq<BidiClass>, cs: seq<BidiClass>, f: seq<nat>, sos: BidiClass)
    requires Around(all, after, cs, W2(cs, sos), f) && sos in {LeftToRight, RightToLeft}
    ensures |after| == |all| && forall p :: 0 <= p < |all| ==> ByW2(all, p, after[p])
  {
    StopsAreKept();
    hide Around, KEPT_CLASSES, Remain, AllKept, StrongBefore, Back, NoneBack;
    var stop := {LeftToRight, RightToLeft, ArabicLetter};
    AroundSize(all, after, cs, W2(cs, sos), f);
    forall p | 0 <= p < |all| ensures ByW2(all, p, after[p]) {
      var k := AroundAt(all, after, cs, W2(cs, sos), f, p);
      if all[p] == EuropeanNumber {
        StrongBeforeMeans(cs, k, sos, stop, ArabicLetter);
        BackSame(all, cs, f, k, {ArabicLetter}, stop);
      }
    }
  }

  lemma StopsAreKept()
    ensures EuropeanNumber in KEPT_CLASSES && {LeftToRight, RightToLeft, ArabicLetter} <= KEPT_CLASSES
    ensures {EuropeanSeparator, CommonSeparator, EuropeanTerminator} <= KEPT_CLASSES && ArabicLetter in KEPT_CLASSES
  {
  }

  lemma W3Means(all: seq<BidiClass>, after: seq<BidiClass>, cs: seq<BidiClass>, f: seq<nat>)
    requires Around(all, after, cs, W3(cs), f)
    ensures |after| == |all| && forall p :: 0 <= p < |all| ==> ByW3(all, p, after[p])
  {
    StopsAreKept();
    hide Around, KEPT_CLASSES, Remain, AllKept;
    AroundSize(all, after, cs, W3(cs), f);
    forall p | 0 <= p < |all| ensures ByW3(all, p, after[p]) {
      var k := AroundAt(all, after, cs, W3(cs), f, p);
    }
  }

  lemma W4Means(all: seq<BidiClass>, after: seq<BidiClass>, cs: seq<BidiClass>, f: seq<nat>)
    requires Around(all, after, cs, W4(cs), f)
    ensures |after| == |all| && forall p :: 0 <= p < |all| ==> ByW4(all, p, after[p])
  {
    StopsAreKept();
    NumberIsKept();
    hide Around, KEPT_CLASSES, Remain, AllKept, Back, Ahead, NoneBack, NoneAhead, Surrounded;
    AroundSize(all, after, cs, W4(cs), f);
    forall p | 0 <= p < |all| ensures ByW4(all, p, after[p]) {
      var k := AroundAt(all, after, cs, W4(cs), f, p);
      if all[p] in {EuropeanSeparator, CommonSeparator, EuropeanTerminator} {
        AmidSame(all, cs, f, k, EuropeanNumber);
        AmidSame(all, cs, f, k, ArabicNumber);
      }
    }
  }

  lemma AmidSame(all: seq<BidiClass>, cs: seq<BidiClass>, f: seq<nat>, k: nat, bc: BidiClass)
    requires |f| == |cs| && Remain(all, cs, f) && AllKept(cs) && k < |cs| && bc in KEPT_CLASSES
    ensures f[k] < |all| && (Surrounded(cs, k, bc) <==> Amid(all, f[k], bc))
  {
    hide Remain, KEPT_CLASSES, Back, Ahead, AllKept;
    SurroundedMeans(cs, k, bc);
    BackSame(all, cs, f, k, {bc}, KEPT_CLASSES);
    AheadSame(all, cs, f, k, {bc}, KEPT_CLASSES);
  }

  lemma W5Means(all: seq<BidiClass>, after: seq<BidiClass>, cs: seq<BidiClass>, f: seq<nat>)
    requires Around(all, after, cs, W5(cs), f)
    ensures |after| == |all| && forall p :: 0 <= p < |all| ==> ByW5(all, p, after[p])
  {
    StopsAreKept();
    NumberIsKept();
    hide Around, KEPT_CLASSES, Remain, AllKept, Back, Ahead, NumberBefore, NumberAfter;
    var stop := KEPT_CLASSES - {EuropeanTerminator};
    AroundSize(all, after, cs, W5(cs), f);
    forall p | 0 <= p < |all| ensures ByW5(all, p, after[p]) {
      var k := AroundAt(all, after, cs, W5(cs), f, p);
      if all[p] == EuropeanTerminator {
        NumberBeforeMeans(cs, k);
        NumberAfterMeans(cs, k);
        BackSame(all, cs, f, k, {EuropeanNumber}, stop);
        AheadSame(all, cs, f, k, {EuropeanNumber}, stop);
      }
    }
  }

  lemma W6Means(all: seq<BidiClass>, after: seq<BidiClass>, cs: seq<BidiClass>, f: seq<nat>)
    requires Around(all, after, cs, W6(cs), f)
    ensures |after| == |all| && forall p :: 0 <= p < |all| ==> ByW6(all, p, after[p])
  {
    StopsAreKept();
    hide Around, KEPT_CLASSES, Remain, AllKept;
    AroundSize(all, after, cs, W6(cs), f);
    forall p | 0 <= p < |all| ensures ByW6(all, p, after[p]) {
      var k := AroundAt(all, after, cs, W6(cs), f, p);
    }
  }

  lemma W7Means(all: seq<BidiClass>, after: seq<BidiClass>, cs: seq<BidiClass>, f: seq<nat>, sos: BidiClass)
    requires Around(all, after, cs, W7(cs, sos), f)
    ensures |after| == |all| && forall p :: 0 <= p < |all| ==> ByW7(all, p, sos, after[p])
  {
    StopsAreKept();
    hide Around, KEPT_CLASSES, Remain, AllKept, StrongBefore, Back, NoneBack;
    var stop := {LeftToRight, RightToLeft};
    AroundSize(all, after, cs, W7(cs, sos), f);
    forall p | 0 <= p < |all| ensures ByW7(all, p, sos, after[p]) {
      var k := AroundAt(all, after, cs, W7(cs, sos), f, p);
      if all[p] == EuropeanNumber {
        StrongBeforeMeans(cs, k, sos, stop, LeftToRight);
        BackSame(all, cs, f, k, {LeftToRight}, stop);
      }
    }
  }

  // ----- What earlier steps of a pass leave as it was -----

  lemma {:induction false} StrongBeforeSame(a: seq<BidiClass>, b: seq<BidiClass>, k: nat, sos: BidiClass, strong: set<BidiClass>)
    requires k <= |a| && k <= |b|
    requires forall j :: 0 <= j < k ==> a[j] == b[j] || (a[j] !in strong && b[j] !in strong)
    ensures StrongBefore(a, k, sos, strong) == StrongBefore(b, k, sos, strong)
  {
    if k > 0 { StrongBeforeSame(a, b, k - 1, sos, strong); }
  }

  /** A separator is changed only when no separator follows it. */
  lemma SeparatorBefore(cs: seq<BidiClass>, k: nat, bc: BidiClass)
    requires 0 < k < |cs| && cs[k] in {EuropeanSeparator, CommonSeparator}
    requires bc in {EuropeanNumber, ArabicNumber}
    ensures W4(cs)[k - 1] == bc <==> cs[k - 1] == bc
  {
  }

  // ----- The passes -----

  /** W1: `resolve_combining_marks` on one sequence. */
  method ResolveCombiningMarks(start: seq<BidiClass>, levels: seq<Level>, run: IsoRun) returns (types: seq<BidiClass>)
    requires |start| == |levels| && Inert(start, levels) && Chain(levels, run)
    ensures |types| == |start| && Untouched(start, types, levels, run.indices)
    ensures Live(types, levels, run.indices) == W1(Live(start, levels, run.indices), run.sos)
    ensures forall p :: 0 <= p < |run.indices| ==> ByW1(Along(start, run.indices), p, run.sos, types[run.indices[p]])
  {
    hide Live, Between, Before, Inert;
    types := start;
    var priorBc := run.sos;
    ghost var cs := Live(start, levels, run.indices);
    ghost var out := W1(cs, run.sos);
    BetweenStart(start, levels, run.indices, out);
    BeforeStart(start, levels, run.indices);
    for k := 0 to |run.indices|
      invariant |types| == |start|
      invariant Between(start, types, levels, run.indices, k, out, cs)
      invariant Before(start, levels, run.indices, k) <= |cs|
      invariant priorBc == BaseBefore(cs, Before(start, levels, run.indices, k), run.sos)
    {
      var idx := run.indices[k];
      BetweenHere(start, types, levels, run.indices, k, out, cs);
      InertHere(start, types, levels, run.indices, k, out, cs);
      if types[idx] == NonspacingMark {
        BetweenForward(start, types, levels, run.indices, k, out, cs);
        types := types[idx := priorBc];
      } else if levels[idx] != NO_LEVEL {
        BetweenForward(start, types, levels, run.indices, k, out, cs);
        assert types == types[idx := types[idx]];
        priorBc := types[idx];
      }
    }
    BetweenEnd(start, types, levels, run.indices, out, cs);
    BetweenUntouched(start, types, levels, run.indices, |run.indices|, out, cs);
    AroundChain(start, types, levels, run.indices);
    W1Means(Along(start, run.indices), Along(types, run.indices), cs, Kept(levels, run.indices), run.sos);
  }

  /** W2: `resolve_european_numbers` on one sequence. */
  method ResolveEuropeanNumbers(start: seq<BidiClass>, levels: seq<Level>, run: IsoRun) returns (types: seq<BidiClass>)
    requires |start| == |levels| && Inert(start, levels) && Chain(levels, run)
    ensures |types| == |start| && Untouched(start, types, levels, run.indices)
    ensures Live(types, levels, run.indices) == W2(Live(start, levels, run.indices), run.sos)
    ensures forall p :: 0 <= p < |run.indices| ==> ByW2(Along(start, run.indices), p, types[run.indices[p]])
  {
    hide Live, Between, Before, Inert;
    types := start;
    ghost var cs := Live(start, levels, run.indices);
    ghost var out := W2(cs, run.sos);
    BetweenStart(start, levels, run.indices, out);
    BeforeStart(start, levels, run.indices);
    for ridx := 0 to |run.indices|
      invariant |types| == |start|
      invariant Between(start, types, levels, run.indices, ridx, out, cs)
      invariant Before(start, levels, run.indices, ridx) <= |cs|
    {
      var cidx := run.indices[ridx];
      BetweenHere(start, types, levels, run.indices, ridx, out, cs);
      InertHere(start, types, levels, run.indices, ridx, out, cs);
      ghost var m := Before(start, levels, run.indices, ridx);
      if levels[cidx] != NO_LEVEL {
        BetweenForward(start, types, levels, run.indices, ridx, out, cs);
      }
      if types[cidx] == EuropeanNumber {
        InertBetween(start, types, levels, run.indices, ridx, out, cs);
        var firstStrongBc := FirstStrongBack(types, levels, run.indices[..ridx], run.sos, LETTERS);
        StrongBeforeSame(cs, out[..m], m, run.sos, LETTERS);
        if firstStrongBc == ArabicLetter {
          types := types[cidx := ArabicNumber];
        } else {
          assert types == types[cidx := types[cidx]];
        }
      } else if levels[cidx] != NO_LEVEL {
        assert types == types[cidx := types[cidx]];
      }
    }
    BetweenEnd(start, types, levels, run.indices, out, cs);
    BetweenUntouched(start, types, levels, run.indices, |run.indices|, out, cs);
    AroundChain(start, types, levels, run.indices);
    W2Means(Along(start, run.indices), Along(types, run.indices), cs, Kept(levels, run.indices), run.sos);
  }

  /** The backward scans of W2 and W7. */
  method FirstStrongBack(types: seq<BidiClass>, levels: seq<Level>, prior: seq<nat>, sos: BidiClass, strong: set<BidiClass>)
    returns (bc: BidiClass)
    requires |types| == |levels| && Bounded(levels, prior)
    requires StillInert(types, levels) && strong <= LETTERS
    ensures var cs := Live(types, levels, prior); bc == StrongBefore(cs, |cs|, sos, strong)
  {
    hide Live;
    bc := sos;
    var k := |prior|;
    ghost var cs := Live(types, levels, prior);
    assert prior[..k] == prior;
    while k > 0
      invariant k <= |prior|
      invariant bc == sos
      invariant var rest := Live(types, levels, prior[..k]);
        StrongBefore(rest, |rest|, sos, strong) == StrongBefore(cs, |cs|, sos, strong)
    {
      LiveNext(types, levels, prior, k - 1);
      ghost var seen := Live(types, levels, prior[..k]);
      k := k - 1;
      ghost var rest := Live(types, levels, prior[..k]);
      var pidx := prior[k];
      if levels[pidx] != NO_LEVEL {
        assert seen == rest + [types[pidx]];
        StrongBeforeSame(seen, rest, |rest|, sos, strong);
      } else {
        assert seen == rest;
      }
      if types[pidx] in strong {
        bc := types[pidx];
        return;
      }
    }
    assert prior[..0] == [];
    LiveEmpty(types, levels);
  }

  /** W3: `resolve_arabic_letters` on one sequence. */
  method ResolveArabicLetters(start: seq<BidiClass>, levels: seq<Level>, run: IsoRun) returns (types: seq<BidiClass>)
    requires |start| == |levels| && Inert(start, levels) && Chain(levels, run)
    ensures |types| == |start| && Untouched(start, types, levels, run.indices)
    ensures Live(types, levels, run.indices) == W3(Live(start, levels, run.indices))
    ensures forall p :: 0 <= p < |run.indices| ==> ByW3(Along(start, run.indices), p, types[run.indices[p]])
  {
    hide Live, Between, Before, Inert;
    types := start;
    ghost var cs := Live(start, levels, run.indices);
    ghost var out := W3(cs);
    BetweenStart(start, levels, run.indices, out);
    for k := 0 to |run.indices|
      invariant |types| == |start|
      invariant Between(start, types, levels, run.indices, k, out, cs)
    {
      var idx := run.indices[k];
      BetweenHere(start, types, levels, run.indices, k, out, cs);
      InertHere(start, types, levels, run.indices, k, out, cs);
      if levels[idx] != NO_LEVEL { BetweenForward(start, types, levels, run.indices, k, out, cs); }
      if types[idx] == ArabicLetter {
        types := types[idx := RightToLeft];
      } else if levels[idx] != NO_LEVEL {
        assert types == types[idx := types[idx]];
      }
    }
    BetweenEnd(start, types, levels, run.indices, out, cs);
    BetweenUntouched(start, types, levels, run.indices, |run.indices|, out, cs);
    AroundChain(start, types, levels, run.indices);
    W3Means(Along(start, run.indices), Along(types, run.indices), cs, Kept(levels, run.indices));
  }

  /** W6: `resolve_es_cs_et` on one sequence. */
  method ResolveEsCsEt(start: seq<BidiClass>, levels: seq<Level>, run: IsoRun) returns (types: seq<BidiClass>)
    requires |start| == |levels| && Inert(start, levels) && Chain(levels, run)
    ensures |types| == |start| && Untouched(start, types, levels, run.indices)
    ensures Live(types, levels, run.indices) == W6(Live(start, levels, run.indices))
    ensures forall p :: 0 <= p < |run.indices| ==> ByW6(Along(start, run.indices), p, types[run.indices[p]])
  {
    hide Live, Between, Before, Inert;
    types := start;
    ghost var cs := Live(start, levels, run.indices);
    ghost var out := W6(cs);
    BetweenStart(start, levels, run.indices, out);
    for k := 0 to |run.indices|
      invariant |types| == |start|
      invariant Between(start, types, levels, run.indices, k, out, cs)
    {
      var idx := run.indices[k];
      BetweenHere(start, types, levels, run.indices, k, out, cs);
      InertHere(start, types, levels, run.indices, k, out, cs);
      if levels[idx] != NO_LEVEL { BetweenForward(start, types, levels, run.indices, k, out, cs); }
      if types[idx] in {EuropeanSeparator, CommonSeparator, EuropeanTerminator} {
        types := types[idx := OtherNeutral];
      } else if levels[idx] != NO_LEVEL {
        assert types == types[idx := types[idx]];
      }
    }
    BetweenEnd(start, types, levels, run.indices, out, cs);
    BetweenUntouched(start, types, levels, run.indices, |run.indices|, out, cs);
    AroundChain(start, types, levels, run.indices);
    W6Means(Along(start, run.indices), Along(types, run.indices), cs, Kept(levels, run.indices));
  }

  /** `is_prior_context`: the nearest character before, past removed ones, is `bc`. */
  method IsPriorContext(types: seq<BidiClass>, levels: seq<Level>, prior: seq<nat>, bc: BidiClass) returns (found: Option<nat>)
    requires |types| == |levels| && Bounded(levels, prior)
    requires StillInert(types, levels) && !bc.IsFormat()
    ensures var cs := Live(types, levels, prior); found.Some? <==> cs != [] && cs[|cs| - 1] == bc
    ensures found.Some? ==> found.value in prior && types[found.value] == bc
  {
    hide Live;
    var k := |prior|;
    ghost var cs := Live(types, levels, prior);
    assert prior[..k] == prior;
    while k > 0
      invariant k <= |prior|
      invariant Live(types, levels, prior[..k]) == cs
    {
      LiveNext(types, levels, prior, k - 1);
      k := k - 1;
      var idx := prior[k];
      if types[idx] == bc {
        return Some(idx);
      }
      if levels[idx] != NO_LEVEL {
        return None;
      }
    }
    assert prior[..0] == [];
    LiveEmpty(types, levels);
    found := None;
  }

  /** `is_following_context`: the nearest character after, past removed ones, is `bc`. */
  method IsFollowingContext(types: seq<BidiClass>, levels: seq<Level>, next: seq<nat>, bc: BidiClass) returns (found: Option<nat>)
    requires |types| == |levels| && Bounded(levels, next)
    requires StillInert(types, levels) && !bc.IsFormat()
    ensures var cs := Live(types, levels, next); found.Some? <==> cs != [] && cs[0] == bc
    ensures found.Some? ==> found.value in next && types[found.value] == bc
  {
    hide Live;
    var k := 0;
    ghost var cs := Live(types, levels, next);
    assert next[0..] == next;
    while k < |next|
      invariant k <= |next|
      invariant Live(types, levels, next[k..]) == cs
    {
      LiveNext(types, levels, next, k);
      var idx := next[k];
      if types[idx] == bc {
        return Some(idx);
      }
      if levels[idx] != NO_LEVEL {
        return None;
      }
      k := k + 1;
    }
    assert next[k..] == [];
    LiveEmpty(types, levels);
    found := None;
  }

  method IsInContext(types: seq<BidiClass>, levels: seq<Level>, indices: seq<nat>, k: nat, bc: BidiClass) returns (yes: bool)
    requires |types| == |levels| && Bounded(levels, indices) && k < |indices|
    requires StillInert(types, levels) && !bc.IsFormat()
    ensures var prior, next := Live(types, levels, indices[..k]), Live(types, levels, indices[k + 1..]);
      yes <==> prior != [] && prior[|prior| - 1] == bc && next != [] && next[0] == bc
  {
    var prior := IsPriorContext(types, levels, indices[..k], bc);
    var next := IsFollowingContext(types, levels, indices[k + 1..], bc);
    yes := prior.Some? && next.Some?;
  }

  /** What a look at both neighbours finds half way through W4. */
  lemma InContextIsSurrounded(cs: seq<BidiClass>, m: nat, bc: BidiClass)
    requires m < |cs| && cs[m] in {EuropeanSeparator, CommonSeparator}
    requires bc in {EuropeanNumber, ArabicNumber}
    ensures var prior, next := W4(cs)[..m], cs[m + 1..];
      Surrounded(cs, m, bc) <==> prior != [] && prior[|prior| - 1] == bc && next != [] && next[0] == bc
  {
    if m > 0 { SeparatorBefore(cs, m, bc); }
  }

  /** W4: `resolve_separators` on one sequence. */
  method ResolveSeparators(start: seq<BidiClass>, levels: seq<Level>, run: IsoRun) returns (types: seq<BidiClass>)
    requires |start| == |levels| && Inert(start, levels) && Chain(levels, run)
    ensures |types| == |start| && Untouched(start, types, levels, run.indices)
    ensures Live(types, levels, run.indices) == W4(Live(start, levels, run.indices))
    ensures forall p :: 0 <= p < |run.indices| ==> ByW4(Along(start, run.indices), p, types[run.indices[p]])
  {
    hide Live, Between, Before, Inert, Surrounded;
    types := start;
    ghost var cs := Live(start, levels, run.indices);
    ghost var out := W4(cs);
    BetweenStart(start, levels, run.indices, out);
    for k := 0 to |run.indices|
      invariant |types| == |start|
      invariant Between(start, types, levels, run.indices, k, out, cs)
    {
      var idx := run.indices[k];
      BetweenHere(start, types, levels, run.indices, k, out, cs);
      InertHere(start, types, levels, run.indices, k, out, cs);
      InertBetween(start, types, levels, run.indices, k, out, cs);
      ghost var m := Before(start, levels, run.indices, k);
      if levels[idx] != NO_LEVEL { BetweenForward(start, types, levels, run.indices, k, out, cs); }
      assert types == types[idx := types[idx]];
      if types[idx] == EuropeanSeparator {
        InContextIsSurrounded(cs, m, EuropeanNumber);
        var yes := IsInContext(types, levels, run.indices, k, EuropeanNumber);
        if yes {
          types := types[idx := EuropeanNumber];
        }
      } else if types[idx] == CommonSeparator {
        InContextIsSurrounded(cs, m, EuropeanNumber);
        InContextIsSurrounded(cs, m, ArabicNumber);
        var yes := IsInContext(types, levels, run.indices, k, EuropeanNumber);
        if yes {
          types := types[idx := EuropeanNumber];
        } else {
          yes := IsInContext(types, levels, run.indices, k, ArabicNumber);
          if yes {
            types := types[idx := ArabicNumber];
          }
        }
      }
    }
    BetweenEnd(start, types, levels, run.indices, out, cs);
    BetweenUntouched(start, types, levels, run.indices, |run.indices|, out, cs);
    AroundChain(start, types, levels, run.indices);
    W4Means(Along(start, run.indices), Along(types, run.indices), cs, Kept(levels, run.indices));
  }

  /** W7: `resolve_en` on one sequence, in reverse. */
  method ResolveEn(start: seq<BidiClass>, levels: seq<Level>, run: IsoRun) returns (types: seq<BidiClass>)
    requires |start| == |levels| && Inert(start, levels) && Chain(levels, run)
    ensures |types| == |start| && Untouched(start, types, levels, run.indices)
    ensures Live(types, levels, run.indices) == W7(Live(start, levels, run.indices), run.sos)
    ensures forall p :: 0 <= p < |run.indices| ==> ByW7(Along(start, run.indices), p, run.sos, types[run.indices[p]])
  {
    hide Live, Between, Before, Inert;
    types := start;
    ghost var cs := Live(start, levels, run.indices);
    ghost var out := W7(cs, run.sos);
    BetweenStart(start, levels, run.indices, out);
    for ridx := |run.indices| downto 0
      invariant |types| == |start|
      invariant Between(start, types, levels, run.indices, ridx, cs, out)
    {
      var cidx := run.indices[ridx];
      BetweenBackward(start, types, levels, run.indices, ridx, cs, out);
      InertBetween(start, types, levels, run.indices, ridx + 1, cs, out);
      ghost var m := Before(start, levels, run.indices, ridx);
      assert types == types[cidx := types[cidx]];
      if types[cidx] == EuropeanNumber {
        var firstStrongBc := FirstStrongBack(types, levels, run.indices[..ridx], run.sos, SIDES);
        StrongBeforeSame(cs, cs[..m], m, run.sos, SIDES);
        if firstStrongBc == LeftToRight {
          types := types[cidx := LeftToRight];
        }
      }
    }
    BetweenEnd(start, types, levels, run.indices, cs, out);
    BetweenUntouched(start, types, levels, run.indices, 0, cs, out);
    AroundChain(start, types, levels, run.indices);
    W7Means(Along(start, run.indices), Along(types, run.indices), cs, Kept(levels, run.indices), run.sos);
  }
}
