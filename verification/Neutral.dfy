/** Rules N1 and N2 on a sequence without removed characters, and the passes that
    compute them in place. */
module Neutral {
  import opened Wrappers
  import opened BidiTypes
  import opened Runs
  import opened TextChains
  import opened PlainRules

  /** The side a strong class or a number counts for. */
  function SideOf(bc: BidiClass): Option<Direction> {
    match bc
    case LeftToRight => Some(Ltr)
    case RightToLeft => Some(Rtl)
    case EuropeanNumber => Some(Rtl)
    case ArabicNumber => Some(Rtl)
    case _ => None
  }

  /** The side a sequence begins or ends on. */
  function EdgeOf(bc: BidiClass): Option<Direction> {
    match bc
    case LeftToRight => Some(Ltr)
    case RightToLeft => Some(Rtl)
    case _ => None
  }

  /** The side of the first class before `k` that is not neutral, or of sos. */
  function SideBefore(cs: seq<BidiClass>, k: nat, sos: BidiClass): Option<Direction>
    requires k <= |cs|
  {
    if k == 0 then EdgeOf(sos)
    else if cs[k - 1].IsNeutral() then SideBefore(cs, k - 1, sos)
    else SideOf(cs[k - 1])
  }

  /** The side of the first class from `k` on that is not neutral, or of eos. */
  function SideFrom(cs: seq<BidiClass>, k: nat, eos: BidiClass): Option<Direction>
    requires k <= |cs|
    decreases |cs| - k
  {
    if k == |cs| then EdgeOf(eos)
    else if cs[k].IsNeutral() then SideFrom(cs, k + 1, eos)
    else SideOf(cs[k])
  }

  /** N1: neutrals between two sides that agree take that side. */
  function N1(cs: seq<BidiClass>, sos: BidiClass, eos: BidiClass): (r: seq<BidiClass>)
    ensures |r| == |cs|
  {
    seq(|cs|, k requires 0 <= k < |cs| => N1At(cs, k, sos, eos))
  }

  function N1At(cs: seq<BidiClass>, k: nat, sos: BidiClass, eos: BidiClass): BidiClass
    requires k < |cs|
  {
    var before, after := SideBefore(cs, k, sos), SideFrom(cs, k + 1, eos);
    if cs[k].IsNeutral() && before.Some? && before == after then before.value.AsBidiClass() else cs[k]
  }

  /** N2: any other neutral takes the direction of the level. */
  function N2(cs: seq<BidiClass>, level: Level): (r: seq<BidiClass>)
    ensures |r| == |cs|
  {
    seq(|cs|, k requires 0 <= k < |cs| => if cs[k].IsNeutral() then ClassOf(level) else cs[k])
  }

  // ----- What the rules say of the text -----

  /** What counts for a side. */
  function CountsFor(side: Direction): set<BidiClass> {
    if side == Ltr then LEFTS else RIGHTS
  }

  lemma StopAt(bc: BidiClass, side: Direction)
    requires bc in KEPT_CLASSES
    ensures bc.IsNeutral() <==> bc !in NOT_NEUTRAL
    ensures SideOf(bc) == Some(side) <==> bc in CountsFor(side)
    ensures EdgeOf(bc) == Some(side) <==> bc == side.AsBidiClass()
    ensures CountsFor(side) <= NOT_NEUTRAL <= KEPT_CLASSES
  {
  }

  lemma LookSets(side: Direction)
    ensures CountsFor(side) <= NOT_NEUTRAL <= KEPT_CLASSES
  {
  }

  lemma {:induction false} SideBeforeMeans(cs: seq<BidiClass>, k: nat, sos: BidiClass, side: Direction)
    requires AllKept(cs) && k <= |cs| && sos in {LeftToRight, RightToLeft}
    ensures SideBefore(cs, k, sos) == Some(side) <==>
      Led(cs, k, CountsFor(side), sos, side.AsBidiClass())
  {
    hide CountsFor, NOT_NEUTRAL, SideOf;
    if k > 0 {
      StopAt(cs[k - 1], side);
      BackStep(cs, k - 1, CountsFor(side), NOT_NEUTRAL);
      SideBeforeMeans(cs, k - 1, sos, side);
    }
  }

  lemma {:induction false} SideFromMeans(cs: seq<BidiClass>, k: nat, eos: BidiClass, side: Direction)
    requires AllKept(cs) && 0 < k <= |cs| && eos in {LeftToRight, RightToLeft}
    ensures SideFrom(cs, k, eos) == Some(side) <==>
      Ahead(cs, k - 1, CountsFor(side), NOT_NEUTRAL) || (eos == side.AsBidiClass() && NoneAhead(cs, k - 1, NOT_NEUTRAL))
    decreases |cs| - k
  {
    hide CountsFor, NOT_NEUTRAL, SideOf;
    if k < |cs| {
      StopAt(cs[k], side);
      AheadStep(cs, k, CountsFor(side), NOT_NEUTRAL);
      SideFromMeans(cs, k + 1, eos, side);
    }
  }

  lemma FlankedMeans(all: seq<BidiClass>, cs: seq<BidiClass>, f: seq<nat>, k: nat, sos: BidiClass, eos: BidiClass, side: Direction)
    requires |f| == |cs| && Remain(all, cs, f) && AllKept(cs) && k < |cs|
    requires sos in {LeftToRight, RightToLeft} && eos in {LeftToRight, RightToLeft}
    ensures f[k] < |all|
    ensures SideBefore(cs, k, sos) == SideFrom(cs, k + 1, eos) == Some(side) <==>
      Flanked(all, f[k], CountsFor(side), sos, eos, side.AsBidiClass())
  {
    LookSets(side);
    hide Remain, AllKept, KEPT_CLASSES, NOT_NEUTRAL, CountsFor, SideBefore, SideFrom, Back, NoneBack, Ahead, NoneAhead, Direction.AsBidiClass;
    SideBeforeMeans(cs, k, sos, side);
    SideFromMeans(cs, k + 1, eos, side);
    BackSame(all, cs, f, k, CountsFor(side), NOT_NEUTRAL);
    AheadSame(all, cs, f, k, CountsFor(side), NOT_NEUTRAL);
  }

  lemma N1Means(all: seq<BidiClass>, after: seq<BidiClass>, cs: seq<BidiClass>, f: seq<nat>, sos: BidiClass, eos: BidiClass)
    requires Around(all, after, cs, N1(cs, sos, eos), f)
    requires sos in {LeftToRight, RightToLeft} && eos in {LeftToRight, RightToLeft}
    ensures |after| == |all| && forall p :: 0 <= p < |all| ==> ByN1(all, p, sos, eos, after[p])
  {
    hide Around, Remain, AllKept, KEPT_CLASSES, NOT_NEUTRAL, SideBefore, SideFrom, Flanked, BidiClass.IsNeutral;
    AroundSize(all, after, cs, N1(cs, sos, eos), f);
    forall p | 0 <= p < |all| ensures ByN1(all, p, sos, eos, after[p]) {
      KeptClass(all[p]);
      var k := AroundAt(all, after, cs, N1(cs, sos, eos), f, p);
      if all[p] in KEPT_CLASSES {
        FlankedMeans(all, cs, f, k, sos, eos, Ltr);
        FlankedMeans(all, cs, f, k, sos, eos, Rtl);
      }
    }
  }

  lemma N2Means(all: seq<BidiClass>, after: seq<BidiClass>, cs: seq<BidiClass>, f: seq<nat>, level: Level)
    requires Around(all, after, cs, N2(cs, level), f)
    ensures |after| == |all| && forall p :: 0 <= p < |all| ==> ByN2(all, p, level, after[p])
  {
    hide Around, Remain, AllKept, KEPT_CLASSES, NOT_NEUTRAL, BidiClass.IsNeutral;
    AroundSize(all, after, cs, N2(cs, level), f);
    forall p | 0 <= p < |all| ensures ByN2(all, p, level, after[p]) {
      KeptClass(all[p]);
      var k := AroundAt(all, after, cs, N2(cs, level), f, p);
    }
  }

  /** Neutrals already resolved to the right show the side they stand before. */
  lemma {:induction false} ResolvedSideFrom(cs: seq<BidiClass>, k: nat, sos: BidiClass, eos: BidiClass)
    requires k <= |cs|
    ensures SideFrom(N1(cs, sos, eos), k, eos) == SideFrom(cs, k, eos)
    decreases |cs| - k
  {
    if k < |cs| { ResolvedSideFrom(cs, k + 1, sos, eos); }
  }

  lemma {:induction false} SideBeforeSame(a: seq<BidiClass>, b: seq<BidiClass>, k: nat, sos: BidiClass)
    requires k <= |a| && k <= |b|
    requires forall j :: 0 <= j < k ==> a[j] == b[j]
    ensures SideBefore(a, k, sos) == SideBefore(b, k, sos)
  {
    if k > 0 { SideBeforeSame(a, b, k - 1, sos); }
  }

  lemma {:induction false} SideFromSuffix(cs: seq<BidiClass>, k: nat, j: nat, eos: BidiClass)
    requires k <= j <= |cs|
    ensures SideFrom(cs[k..], j - k, eos) == SideFrom(cs, j, eos)
    decreases |cs| - j
  {
    if j < |cs| { SideFromSuffix(cs, k, j + 1, eos); }
  }

  /** `is_prior_context_left` and `is_prior_context_right`. */
  method IsPriorContext(types: seq<BidiClass>, levels: seq<Level>, prior: seq<nat>, sot: BidiClass, side: Direction)
    returns (yes: bool)
    requires |types| == |levels| && Bounded(levels, prior) && StillInert(types, levels)
    ensures var cs := Live(types, levels, prior); yes <==> SideBefore(cs, |cs|, sot) == Some(side)
  {
    hide Live;
    var k := |prior|;
    ghost var cs := Live(types, levels, prior);
    assert prior[..k] == prior;
    while k > 0
      invariant k <= |prior|
      invariant var rest := Live(types, levels, prior[..k]); SideBefore(rest, |rest|, sot) == SideBefore(cs, |cs|, sot)
    {
      LiveNext(types, levels, prior, k - 1);
      ghost var seen := Live(types, levels, prior[..k]);
      k := k - 1;
      ghost var rest := Live(types, levels, prior[..k]);
      var idx := prior[k];
      if levels[idx] != NO_LEVEL {
        assert seen == rest + [types[idx]];
        SideBeforeSame(seen, rest, |rest|, sot);
      } else {
        assert seen == rest;
      }
      if SideOf(types[idx]) == Some(side) {
        return true;
      }
      if levels[idx] == NO_LEVEL {
        continue;
      }
      if types[idx].IsNeutral() {
        continue;
      }
      return false;
    }
    assert prior[..0] == [];
    LiveEmpty(types, levels);
    yes := EdgeOf(sot) == Some(side);
  }

  /** `is_following_context_left` and `is_following_context_right`. */
  method IsFollowingContext(types: seq<BidiClass>, levels: seq<Level>, next: seq<nat>, eot: BidiClass, side: Direction)
    returns (yes: bool)
    requires |types| == |levels| && Bounded(levels, next) && StillInert(types, levels)
    ensures yes <==> SideFrom(Live(types, levels, next), 0, eot) == Some(side)
  {
    hide Live;
    var k := 0;
    ghost var cs := Live(types, levels, next);
    assert next[0..] == next;
    while k < |next|
      invariant k <= |next|
      invariant SideFrom(Live(types, levels, next[k..]), 0, eot) == SideFrom(cs, 0, eot)
    {
      LiveNext(types, levels, next, k);
      ghost var seen, rest := Live(types, levels, next[k..]), Live(types, levels, next[k + 1..]);
      var idx := next[k];
      k := k + 1;
      if levels[idx] != NO_LEVEL {
        assert seen == [types[idx]] + rest && seen[1..] == rest;
        SideFromSuffix(seen, 1, 1, eot);
      } else {
        assert seen == rest;
      }
      if SideOf(types[idx]) == Some(side) {
        return true;
      }
      if levels[idx] == NO_LEVEL {
        continue;
      }
      if types[idx].IsNeutral() {
        continue;
      }
      return false;
    }
    assert next[k..] == [];
    LiveEmpty(types, levels);
    yes := EdgeOf(eot) == Some(side);
  }

  /** What the two looks find half way through N1. */
  lemma LooksFindN1(cs: seq<BidiClass>, m: nat, sos: BidiClass, eos: BidiClass)
    requires m < |cs|
    ensures var out := N1(cs, sos, eos);
      && SideBefore(cs[..m], m, sos) == SideBefore(cs, m, sos)
      && SideFrom(out[m + 1..], 0, eos) == SideFrom(cs, m + 1, eos)
  {
    SideBeforeSame(cs[..m], cs, m, sos);
    SideFromSuffix(N1(cs, sos, eos), m + 1, m + 1, eos);
    ResolvedSideFrom(cs, m + 1, sos, eos);
  }

  /** N1: `resolve_neutrals_by_context` on one sequence, in reverse. */
  method ResolveNeutralsByContext(start: seq<BidiClass>, levels: seq<Level>, run: IsoRun) returns (types: seq<BidiClass>)
    requires |start| == |levels| && Inert(start, levels) && Chain(levels, run)
    ensures |types| == |start| && Untouched(start, types, levels, run.indices)
    ensures Live(types, levels, run.indices) == N1(Live(start, levels, run.indices), run.sos, run.eos)
    ensures forall p :: 0 <= p < |run.indices| ==> ByN1(Along(start, run.indices), p, run.sos, run.eos, types[run.indices[p]])
  {
    hide Live, Between, Before, Inert, SideBefore, SideFrom;
    types := start;
    ghost var cs := Live(start, levels, run.indices);
    ghost var out := N1(cs, run.sos, run.eos);
    BetweenStart(start, levels, run.indices, out);
    for ridx := |run.indices| downto 0
      invariant |types| == |start|
      invariant Between(start, types, levels, run.indices, ridx, cs, out)
    {
      var cidx := run.indices[ridx];
      BetweenBackward(start, types, levels, run.indices, ridx, cs, out);
      InertBetween(start, types, levels, run.indices, ridx + 1, cs, out);
      ghost var m := Before(start, levels, run.indices, ridx);
      assert types == types[cidx := types[cidx]];
      if types[cidx].IsNeutral() {
        LooksFindN1(cs, m, run.sos, run.eos);
        var before := IsPriorContext(types, levels, run.indices[..ridx], run.sos, Ltr);
        var after := IsFollowingContext(types, levels, run.indices[ridx + 1..], run.eos, Ltr);
        if before && after {
          types := types[cidx := LeftToRight];
        } else {
          before := IsPriorContext(types, levels, run.indices[..ridx], run.sos, Rtl);
          after := IsFollowingContext(types, levels, run.indices[ridx + 1..], run.eos, Rtl);
          if before && after {
            types := types[cidx := RightToLeft];
          }
        }
      }
    }
    BetweenEnd(start, types, levels, run.indices, cs, out);
    BetweenUntouched(start, types, levels, run.indices, 0, cs, out);
    AroundChain(start, types, levels, run.indices);
    N1Means(Along(start, run.indices), Along(types, run.indices), cs, Kept(levels, run.indices), run.sos, run.eos);
  }

  /** N2: `resolve_neutrals_by_level` on one sequence, in reverse. */
  method ResolveNeutralsByLevel(start: seq<BidiClass>, levels: seq<Level>, run: IsoRun) returns (types: seq<BidiClass>)
    requires |start| == |levels| && Inert(start, levels) && Chain(levels, run)
    ensures |types| == |start| && Untouched(start, types, levels, run.indices)
    ensures Live(types, levels, run.indices) == N2(Live(start, levels, run.indices), run.level)
    ensures forall p :: 0 <= p < |run.indices| ==> ByN2(Along(start, run.indices), p, run.level, types[run.indices[p]])
  {
    hide Live, Between, Before, Inert;
    types := start;
    ghost var cs := Live(start, levels, run.indices);
    ghost var out := N2(cs, run.level);
    BetweenStart(start, levels, run.indices, out);
    for ridx := |run.indices| downto 0
      invariant |types| == |start|
      invariant Between(start, types, levels, run.indices, ridx, cs, out)
    {
      var cidx := run.indices[ridx];
      BetweenBackward(start, types, levels, run.indices, ridx, cs, out);
      InertBetween(start, types, levels, run.indices, ridx + 1, cs, out);
      assert types == types[cidx := types[cidx]];
      if types[cidx].IsNeutral() {
        types := types[cidx := ClassOf(levels[cidx])];
      }
    }
    BetweenEnd(start, types, levels, run.indices, cs, out);
    BetweenUntouched(start, types, levels, run.indices, 0, cs, out);
    AroundChain(start, types, levels, run.indices);
    N2Means(Along(start, run.indices), Along(types, run.indices), cs, Kept(levels, run.indices), run.level);
  }
}
