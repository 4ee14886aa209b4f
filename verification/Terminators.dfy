/** Rule W5 in place: every European number met turns the terminators next to it,
    on both sides, into European numbers; those are met again later. */
module Terminators {
  import opened BidiTypes
  import opened Runs
  import opened TextChains
  import opened PlainRules
  import opened Weak

  // ----- Filling -----

  /** The terminators that end `p` become numbers. */
  function FilledBack(p: seq<BidiClass>): (r: seq<BidiClass>)
    ensures |r| == |p|
  {
    if p == [] || p[|p| - 1] != EuropeanTerminator then p
    else FilledBack(p[..|p| - 1]) + [EuropeanNumber]
  }

  /** The terminators that begin `p` become numbers. */
  function FilledForward(p: seq<BidiClass>): (r: seq<BidiClass>)
    ensures |r| == |p|
  {
    if p == [] || p[0] != EuropeanTerminator then p
    else [EuropeanNumber] + FilledForward(p[1..])
  }

  /** Where the terminators that end `p` start. */
  function TailStart(p: seq<BidiClass>): (t: nat)
    ensures t <= |p|
    ensures forall j :: t <= j < |p| ==> p[j] == EuropeanTerminator
    ensures t > 0 ==> p[t - 1] != EuropeanTerminator
  {
    if p == [] || p[|p| - 1] != EuropeanTerminator then |p| else TailStart(p[..|p| - 1])
  }

  /** Where the terminators that begin `p` end. */
  function HeadEnd(p: seq<BidiClass>): (t: nat)
    ensures t <= |p|
    ensures forall j :: 0 <= j < t ==> p[j] == EuropeanTerminator
    ensures t < |p| ==> p[t] != EuropeanTerminator
  {
    if p == [] || p[0] != EuropeanTerminator then 0 else 1 + HeadEnd(p[1..])
  }

  lemma {:induction false} FilledBackAt(p: seq<BidiClass>, j: nat)
    requires j < |p|
    ensures FilledBack(p)[j] == if TailStart(p) <= j then EuropeanNumber else p[j]
  {
    if p[|p| - 1] == EuropeanTerminator && j < |p| - 1 { FilledBackAt(p[..|p| - 1], j); }
  }

  lemma {:induction false} FilledForwardAt(p: seq<BidiClass>, j: nat)
    requires j < |p|
    ensures FilledForward(p)[j] == if j < HeadEnd(p) then EuropeanNumber else p[j]
  {
    if p[0] == EuropeanTerminator && j > 0 { FilledForwardAt(p[1..], j - 1); }
  }

  method FillBack(start: seq<BidiClass>, levels: seq<Level>, prior: seq<nat>) returns (types: seq<BidiClass>)
    requires |start| == |levels| && Bounded(levels, prior) && Increasing(prior)
    requires StillInert(start, levels)
    ensures |types| == |start| && Untouched(start, types, levels, prior)
    ensures Live(types, levels, prior) == FilledBack(Live(start, levels, prior))
  {
    hide Live, FilledBack;
    types := start;
    var k := |prior|;
    ghost var cs := Live(start, levels, prior);
    assert prior[..k] == prior && prior[k..] == [];
    LiveEmpty(start, levels);
    while k > 0
      invariant k <= |prior|
      invariant |types| == |start| && Untouched(start, types, levels, prior)
      invariant forall j :: 0 <= j < k ==> types[prior[j]] == start[prior[j]]
      invariant FilledBack(cs) == FilledBack(Live(start, levels, prior[..k])) + Live(types, levels, prior[k..])
    {
      LiveNext(start, levels, prior, k - 1);
      LiveNext(types, levels, prior, k - 1);
      ghost var before := types;
      k := k - 1;
      var idx := prior[k];
      if types[idx] == EuropeanTerminator {
        types := types[idx := EuropeanNumber];
        assert idx !in prior[..k] && idx !in prior[k + 1..] && idx in prior;
        SetOther(before, levels, prior[..k], idx, EuropeanNumber);
        SetOther(before, levels, prior[k + 1..], idx, EuropeanNumber);
        LiveNext(types, levels, prior, k);
        FilledBackStep(Live(start, levels, prior[..k]), Live(before, levels, prior[k + 1..]));
      } else if levels[idx] != NO_LEVEL {
        k := k + 1;
        LiveSplit(types, levels, prior, k);
        LiveSame(start, types, levels, prior[..k]);
        FilledBackStops(Live(start, levels, prior[..k]));
        return;
      } else {
        assert Live(start, levels, prior[..k + 1]) == Live(start, levels, prior[..k]);
        assert Live(types, levels, prior[k..]) == Live(types, levels, prior[k + 1..]);
      }
    }
    assert prior[..0] == [] && prior[0..] == prior;
    LiveEmpty(start, levels);
    FilledBackStops([]);
  }

  lemma FilledBackStep(rest: seq<BidiClass>, done: seq<BidiClass>)
    ensures FilledBack(rest + [EuropeanTerminator]) + done == FilledBack(rest) + ([EuropeanNumber] + done)
  {
    assert (rest + [EuropeanTerminator])[..|rest|] == rest;
  }

  lemma FilledBackStops(p: seq<BidiClass>)
    requires p == [] || p[|p| - 1] != EuropeanTerminator
    ensures FilledBack(p) == p
  {
  }

  lemma FilledForwardStops(p: seq<BidiClass>)
    requires p == [] || p[0] != EuropeanTerminator
    ensures FilledForward(p) == p
  {
  }

  method FillForward(start: seq<BidiClass>, levels: seq<Level>, next: seq<nat>) returns (types: seq<BidiClass>)
    requires |start| == |levels| && Bounded(levels, next) && Increasing(next)
    requires StillInert(start, levels)
    ensures |types| == |start| && Untouched(start, types, levels, next)
    ensures Live(types, levels, next) == FilledForward(Live(start, levels, next))
  {
    hide Live, FilledForward;
    types := start;
    var k := 0;
    ghost var cs := Live(start, levels, next);
    assert next[..0] == [] && next[0..] == next;
    LiveEmpty(start, levels);
    while k < |next|
      invariant k <= |next|
      invariant |types| == |start| && Untouched(start, types, levels, next)
      invariant forall j :: k <= j < |next| ==> types[next[j]] == start[next[j]]
      invariant FilledForward(cs) == Live(types, levels, next[..k]) + FilledForward(Live(start, levels, next[k..]))
    {
      LiveNext(start, levels, next, k);
      LiveNext(types, levels, next, k);
      ghost var before := types;
      var idx := next[k];
      if types[idx] == EuropeanTerminator {
        types := types[idx := EuropeanNumber];
        assert idx !in next[..k] && idx !in next[k + 1..] && idx in next;
        SetOther(before, levels, next[..k], idx, EuropeanNumber);
        SetOther(before, levels, next[k + 1..], idx, EuropeanNumber);
        LiveNext(types, levels, next, k);
        FilledForwardStep(Live(before, levels, next[..k]), Live(start, levels, next[k + 1..]));
      } else if levels[idx] != NO_LEVEL {
        LiveSplit(types, levels, next, k);
        LiveSame(start, types, levels, next[k..]);
        FilledForwardStops(Live(start, levels, next[k..]));
        return;
      } else {
        assert Live(start, levels, next[k..]) == Live(start, levels, next[k + 1..]);
        assert Live(types, levels, next[..k + 1]) == Live(types, levels, next[..k]);
      }
      k := k + 1;
    }
    assert next[..k] == next && next[k..] == [];
    LiveEmpty(start, levels);
    FilledForwardStops([]);
  }

  lemma FilledForwardStep(done: seq<BidiClass>, rest: seq<BidiClass>)
    ensures done + FilledForward([EuropeanTerminator] + rest) == (done + [EuropeanNumber]) + FilledForward(rest)
  {
    assert ([EuropeanTerminator] + rest)[1..] == rest;
  }

  // ----- Half way through W5 -----

  /** Only terminators that W5 turns have been turned. */
  ghost predicate Turned(cs: seq<BidiClass>, c: seq<BidiClass>) {
    && |c| == |cs|
    && forall j :: 0 <= j < |cs| ==> c[j] == cs[j] || (cs[j] == EuropeanTerminator && c[j] == EuropeanNumber && W5(cs)[j] == EuropeanNumber)
  }

  /** No number before `m` has a terminator next to it. */
  ghost predicate Settled(c: seq<BidiClass>, m: nat) {
    forall j :: 0 <= j < |c| && j < m && c[j] == EuropeanNumber ==>
      && (j > 0 ==> c[j - 1] != EuropeanTerminator)
      && (j + 1 < |c| ==> c[j + 1] != EuropeanTerminator)
  }

  lemma {:induction false} AfterThrough(cs: seq<BidiClass>, j: nat, m: nat)
    requires j < m < |cs|
    requires forall i :: j < i < m ==> cs[i] == EuropeanTerminator
    requires cs[m] == EuropeanNumber || (cs[m] == EuropeanTerminator && NumberAfter(cs, m))
    ensures NumberAfter(cs, j)
    decreases m - j
  {
    if j + 1 < m { AfterThrough(cs, j + 1, m); }
  }

  lemma {:induction false} BeforeThrough(cs: seq<BidiClass>, m: nat, j: nat)
    requires m < j <= |cs|
    requires forall i :: m < i < j ==> cs[i] == EuropeanTerminator
    requires cs[m] == EuropeanNumber || (cs[m] == EuropeanTerminator && NumberBefore(cs, m))
    ensures NumberBefore(cs, j)
    decreases j
  {
    if m + 1 < j { BeforeThrough(cs, m, j - 1); }
  }

  lemma {:induction false} BeforeDown(cs: seq<BidiClass>, m: nat, j: nat)
    requires j <= m < |cs| && NumberBefore(cs, m)
    requires forall i :: j <= i < m ==> cs[i] == EuropeanTerminator
    ensures NumberBefore(cs, j)
    decreases m - j
  {
    if j < m { BeforeDown(cs, m - 1, j); }
  }

  lemma {:induction false} AfterUp(cs: seq<BidiClass>, m: nat, j: nat)
    requires m <= j < |cs| && NumberAfter(cs, m)
    requires forall i :: m < i <= j ==> cs[i] == EuropeanTerminator
    ensures NumberAfter(cs, j)
    decreases j - m
  {
    if m < j { AfterUp(cs, m + 1, j); }
  }

  /** A terminator joined by terminators to a number or to a turned one is turned
      by W5 too. */
  lemma JoinedBefore(cs: seq<BidiClass>, c: seq<BidiClass>, j: nat, m: nat)
    requires Turned(cs, c) && j < m < |cs| && c[m] == EuropeanNumber
    requires forall i :: j <= i < m ==> c[i] == EuropeanTerminator
    ensures W5(cs)[j] == EuropeanNumber && cs[j] == EuropeanTerminator
  {
    if cs[m] == EuropeanNumber || NumberAfter(cs, m) {
      AfterThrough(cs, j, m);
    } else {
      BeforeDown(cs, m, j);
    }
  }

  lemma JoinedAfter(cs: seq<BidiClass>, c: seq<BidiClass>, m: nat, j: nat)
    requires Turned(cs, c) && m < j < |cs| && c[m] == EuropeanNumber
    requires forall i :: m < i <= j ==> c[i] == EuropeanTerminator
    ensures W5(cs)[j] == EuropeanNumber && cs[j] == EuropeanTerminator
  {
    if cs[m] == EuropeanNumber || NumberBefore(cs, m) {
      BeforeThrough(cs, m, j);
    } else {
      AfterUp(cs, m, j);
    }
  }

  /** What meeting a number at `m` makes of the chain. */
  function Filled(c: seq<BidiClass>, m: nat): (r: seq<BidiClass>)
    requires m < |c|
    ensures |r| == |c|
  {
    FilledBack(c[..m]) + [c[m]] + FilledForward(c[m + 1..])
  }

  lemma FilledAt(c: seq<BidiClass>, m: nat, j: nat)
    requires m < |c| && j < |c|
    ensures var lo, hi := TailStart(c[..m]), m + 1 + HeadEnd(c[m + 1..]);
      Filled(c, m)[j] == if (lo <= j < m) || (m < j < hi) then EuropeanNumber else c[j]
  {
    hide FilledBack, FilledForward, TailStart, HeadEnd;
    if j < m { FilledBackAt(c[..m], j); }
    if m < j { FilledForwardAt(c[m + 1..], j - m - 1); }
  }

  lemma FilledTurned(cs: seq<BidiClass>, c: seq<BidiClass>, m: nat)
    requires Turned(cs, c) && m < |c| && c[m] == EuropeanNumber
    ensures Turned(cs, Filled(c, m))
  {
    hide Filled, W5;
    var lo, hi := TailStart(c[..m]), m + 1 + HeadEnd(c[m + 1..]);
    forall j | 0 <= j < |c|
      ensures Filled(c, m)[j] == cs[j] ||
        (cs[j] == EuropeanTerminator && Filled(c, m)[j] == EuropeanNumber && W5(cs)[j] == EuropeanNumber)
    {
      FilledAt(c, m, j);
      if lo <= j < m {
        forall i | j <= i < m ensures c[i] == EuropeanTerminator { assert c[..m][i] == c[i]; }
        JoinedBefore(cs, c, j, m);
      } else if m < j < hi {
        forall i | m < i <= j ensures c[i] == EuropeanTerminator { assert c[m + 1..][i - m - 1] == c[i]; }
        JoinedAfter(cs, c, m, j);
      }
    }
  }

  lemma FilledSettled(c: seq<BidiClass>, m: nat)
    requires m < |c| && c[m] == EuropeanNumber && Settled(c, m)
    ensures Settled(Filled(c, m), m + 1)
  {
    hide Filled;
    var lo, hi := TailStart(c[..m]), m + 1 + HeadEnd(c[m + 1..]);
    forall j | 0 <= j < |c| && j < m + 1 && Filled(c, m)[j] == EuropeanNumber
      ensures j > 0 ==> Filled(c, m)[j - 1] != EuropeanTerminator
      ensures j + 1 < |c| ==> Filled(c, m)[j + 1] != EuropeanTerminator
    {
      FilledAt(c, m, j);
      if j > 0 { FilledAt(c, m, j - 1); }
      if j + 1 < |c| { FilledAt(c, m, j + 1); }
      assert lo > 0 ==> c[..m][lo - 1] == c[lo - 1];
      assert hi < |c| ==> c[m + 1..][hi - m - 1] == c[hi];
    }
  }

  /** Once every number is settled, W5 is done. */
  lemma {:induction false} SettledBefore(cs: seq<BidiClass>, c: seq<BidiClass>, j: nat)
    requires Turned(cs, c) && Settled(c, |c|)
    requires j < |cs| && cs[j] == EuropeanTerminator && NumberBefore(cs, j)
    ensures c[j] == EuropeanNumber
  {
    if cs[j - 1] == EuropeanTerminator { SettledBefore(cs, c, j - 1); }
    assert c[j - 1] == EuropeanNumber;
  }

  lemma {:induction false} SettledAfter(cs: seq<BidiClass>, c: seq<BidiClass>, j: nat)
    requires Turned(cs, c) && Settled(c, |c|)
    requires j < |cs| && cs[j] == EuropeanTerminator && NumberAfter(cs, j)
    ensures c[j] == EuropeanNumber
    decreases |cs| - j
  {
    if cs[j + 1] == EuropeanTerminator { SettledAfter(cs, c, j + 1); }
    assert c[j + 1] == EuropeanNumber;
  }

  lemma SettledIsW5(cs: seq<BidiClass>, c: seq<BidiClass>)
    requires Turned(cs, c) && Settled(c, |c|)
    ensures c == W5(cs)
  {
    forall j | 0 <= j < |cs|
      ensures c[j] == W5(cs)[j]
    {
      if cs[j] == EuropeanTerminator {
        if NumberBefore(cs, j) { SettledBefore(cs, c, j); }
        else if NumberAfter(cs, j) { SettledAfter(cs, c, j); }
      }
    }
  }

  /** A change confined to one part of the chain leaves the rest. */
  lemma OutsidePart(a: seq<BidiClass>, b: seq<BidiClass>, levels: seq<Level>, part: seq<nat>, rest: seq<nat>)
    requires |a| == |b| == |levels| && Bounded(levels, rest) && Untouched(a, b, levels, part)
    requires forall i :: i in rest ==> i !in part
    ensures Live(a, levels, rest) == Live(b, levels, rest)
  {
    LiveSame(a, b, levels, rest);
  }

  lemma UntouchedTrans(a: seq<BidiClass>, b: seq<BidiClass>, c: seq<BidiClass>, levels: seq<Level>, part: seq<nat>, indices: seq<nat>)
    requires |a| == |b| == |c| == |levels|
    requires Untouched(a, b, levels, indices) && Untouched(b, c, levels, part)
    requires forall i :: i in part ==> i in indices
    ensures Untouched(a, c, levels, indices)
  {
  }

  /** Meeting a number at the `k`-th position. */
  method FillAround(start: seq<BidiClass>, levels: seq<Level>, indices: seq<nat>, k: nat) returns (types: seq<BidiClass>)
    requires |start| == |levels| && Bounded(levels, indices) && Increasing(indices) && k < |indices|
    requires StillInert(start, levels) && levels[indices[k]] != NO_LEVEL
    ensures |types| == |start| && Untouched(start, types, levels, indices)
    ensures var c, m := Live(start, levels, indices), Before(start, levels, indices, k);
      m < |c| && Live(types, levels, indices) == Filled(c, m)
  {
    hide Live, FilledBack, FilledForward, Untouched;
    var prior, next, idx := indices[..k], indices[k + 1..], indices[k];
    ghost var c, m := Live(start, levels, indices), Before(start, levels, indices, k);
    LiveNext(start, levels, indices, k);
    LiveSplit(start, levels, indices, k);
    assert c[..m] == Live(start, levels, prior) && c[m + 1..] == Live(start, levels, next);
    UntouchedSelf(start, levels, indices);
    var half := FillBack(start, levels, prior);
    UntouchedInert(start, half, levels, prior);
    OutsidePart(start, half, levels, prior, next);
    UntouchedTrans(start, start, half, levels, prior, indices);
    types := FillForward(half, levels, next);
    OutsidePart(half, types, levels, next, prior);
    UntouchedTrans(start, half, types, levels, next, indices);
    UntouchedAt(start, half, levels, prior, idx);
    UntouchedAt(half, types, levels, next, idx);
    LiveNext(types, levels, indices, k);
    LiveSplit(types, levels, indices, k);
  }

  lemma UntouchedSelf(a: seq<BidiClass>, levels: seq<Level>, indices: seq<nat>)
    requires |a| == |levels|
    ensures Untouched(a, a, levels, indices)
  {
  }

  lemma UntouchedInert(a: seq<BidiClass>, b: seq<BidiClass>, levels: seq<Level>, indices: seq<nat>)
    requires |a| == |b| == |levels| && Untouched(a, b, levels, indices) && StillInert(a, levels)
    ensures StillInert(b, levels)
  {
  }

  lemma UntouchedAt(a: seq<BidiClass>, b: seq<BidiClass>, levels: seq<Level>, indices: seq<nat>, i: nat)
    requires |a| == |b| == |levels| && Untouched(a, b, levels, indices) && i < |levels| && i !in indices
    ensures a[i] == b[i]
  {
  }

  /** W5: `resolve_terminators` on one sequence. */
  method ResolveTerminators(start: seq<BidiClass>, levels: seq<Level>, run: IsoRun) returns (types: seq<BidiClass>)
    requires |start| == |levels| && Inert(start, levels) && Chain(levels, run)
    ensures |types| == |start| && Untouched(start, types, levels, run.indices)
    ensures Live(types, levels, run.indices) == W5(Live(start, levels, run.indices))
    ensures forall p :: 0 <= p < |run.indices| ==> ByW5(Along(start, run.indices), p, types[run.indices[p]])
  {
    hide Live, Before, Turned, Settled, Untouched, Filled, W5;
    types := start;
    ghost var cs := Live(start, levels, run.indices);
    TurnedStart(cs);
    UntouchedSelf(start, levels, run.indices);
    BeforeStart(start, levels, run.indices);
    for k := 0 to |run.indices|
      invariant |types| == |start| && Untouched(start, types, levels, run.indices)
      invariant Turned(cs, Live(types, levels, run.indices))
      invariant Settled(Live(types, levels, run.indices), Before(start, levels, run.indices, k))
    {
      var idx := run.indices[k];
      ghost var c, m := Live(types, levels, run.indices), Before(start, levels, run.indices, k);
      ChainAt(start, types, levels, run.indices, k);
      UntouchedInert(start, types, levels, run.indices);
      if types[idx] == EuropeanNumber {
        ghost var before := types;
        types := FillAround(types, levels, run.indices, k);
        UntouchedTrans(start, before, types, levels, run.indices, run.indices);
        FilledTurned(cs, c, m);
        FilledSettled(c, m);
      } else if levels[idx] != NO_LEVEL {
        SettledOver(c, m);
      }
    }
    EndBefore(start, levels, run.indices);
    TurnedLength(cs, Live(types, levels, run.indices));
    SettledIsW5(cs, Live(types, levels, run.indices));
    AroundChain(start, types, levels, run.indices);
    W5Means(Along(start, run.indices), Along(types, run.indices), cs, Kept(levels, run.indices));
  }

  lemma TurnedStart(cs: seq<BidiClass>)
    ensures Turned(cs, cs) && Settled(cs, 0)
  {
  }

  lemma TurnedLength(cs: seq<BidiClass>, c: seq<BidiClass>)
    requires Turned(cs, c)
    ensures |c| == |cs|
  {
  }

  lemma SettledOver(c: seq<BidiClass>, m: nat)
    requires m < |c| && c[m] != EuropeanNumber && Settled(c, m)
    ensures Settled(c, m + 1)
  {
  }

  lemma EndBefore(types: seq<BidiClass>, levels: seq<Level>, indices: seq<nat>)
    requires |types| == |levels| && Bounded(levels, indices)
    ensures Before(types, levels, indices, |indices|) == |Live(types, levels, indices)|
  {
    assert indices[..|indices|] == indices;
  }

  lemma ChainAt(start: seq<BidiClass>, types: seq<BidiClass>, levels: seq<Level>, indices: seq<nat>, k: nat)
    requires |start| == |types| == |levels| && Bounded(levels, indices) && k < |indices|
    requires StillInert(start, levels) && Untouched(start, types, levels, indices)
    ensures Before(types, levels, indices, k) == Before(start, levels, indices, k)
    ensures var c, m := Live(types, levels, indices), Before(start, levels, indices, k);
      if levels[indices[k]] == NO_LEVEL
      then Before(start, levels, indices, k + 1) == m && types[indices[k]].IsFormat()
      else Before(start, levels, indices, k + 1) == m + 1 && m < |c| && types[indices[k]] == c[m]
  {
    hide Live;
    LiveLength(start, types, levels, indices[..k]);
    LiveNext(start, levels, indices, k);
    LiveNext(types, levels, indices, k);
    LiveSplit(types, levels, indices, k);
  }
}
