/** The classes of a text chain without the characters that rule X9 removed, and
    how a pass that walks the chain in place changes them. */
module TextChains {
  import opened BidiTypes
  import opened Runs

  /** The classes at the positions that were not removed, in order. */
  ghost function Live(types: seq<BidiClass>, levels: seq<Level>, indices: seq<nat>): (cs: seq<BidiClass>)
    requires |types| == |levels| && Bounded(levels, indices)
  {
    if indices == [] then []
    else
      var i := indices[|indices| - 1];
      Live(types, levels, indices[..|indices| - 1]) + if levels[i] == NO_LEVEL then [] else [types[i]]
  }

  /** Exactly the removed characters still have a class that rule X9 deletes. */
  ghost predicate Inert(types: seq<BidiClass>, levels: seq<Level>) {
    && |types| == |levels|
    && forall i :: 0 <= i < |levels| ==> (levels[i] == NO_LEVEL <==> types[i].IsFormat())
  }

  /** A removed character has a class that no rule looks for. */
  ghost predicate StillInert(types: seq<BidiClass>, levels: seq<Level>)
    requires |types| == |levels|
  {
    forall i :: 0 <= i < |levels| && levels[i] == NO_LEVEL ==> types[i].IsFormat()
  }

  lemma {:induction false} LiveConcat(types: seq<BidiClass>, levels: seq<Level>, a: seq<nat>, b: seq<nat>)
    requires |types| == |levels| && Bounded(levels, a) && Bounded(levels, b)
    ensures Bounded(levels, a + b)
    ensures Live(types, levels, a + b) == Live(types, levels, a) + Live(types, levels, b)
  {
    if b == [] {
      assert a + b == a;
    } else {
      var n := |b| - 1;
      assert (a + b)[..|a + b| - 1] == a + b[..n];
      LiveConcat(types, levels, a, b[..n]);
    }
  }

  lemma LiveSplit(types: seq<BidiClass>, levels: seq<Level>, indices: seq<nat>, k: nat)
    requires |types| == |levels| && Bounded(levels, indices) && k <= |indices|
    ensures Live(types, levels, indices) == Live(types, levels, indices[..k]) + Live(types, levels, indices[k..])
  {
    hide Live;
    assert indices == indices[..k] + indices[k..];
    LiveConcat(types, levels, indices[..k], indices[k..]);
  }

  lemma LiveOne(types: seq<BidiClass>, levels: seq<Level>, i: nat)
    requires |types| == |levels| && i < |levels|
    ensures Live(types, levels, [i]) == if levels[i] == NO_LEVEL then [] else [types[i]]
  {
    assert [i][..0] == [];
  }

  lemma BoundedParts(levels: seq<Level>, indices: seq<nat>, k: nat)
    requires Bounded(levels, indices) && k < |indices|
    ensures indices[k] < |levels|
    ensures Bounded(levels, indices[..k]) && Bounded(levels, indices[..k + 1])
    ensures Bounded(levels, [indices[k]])
    ensures Bounded(levels, indices[k..]) && Bounded(levels, indices[k + 1..])
  {
  }

  lemma LiveNext(types: seq<BidiClass>, levels: seq<Level>, indices: seq<nat>, k: nat)
    requires |types| == |levels| && Bounded(levels, indices) && k < |indices|
    ensures var here := if levels[indices[k]] == NO_LEVEL then [] else [types[indices[k]]];
      && Live(types, levels, indices[..k + 1]) == Live(types, levels, indices[..k]) + here
      && Live(types, levels, indices[k..]) == here + Live(types, levels, indices[k + 1..])
  {
    hide Live, Bounded;
    BoundedParts(levels, indices, k);
    LiveOne(types, levels, indices[k]);
    assert indices[..k + 1] == indices[..k] + [indices[k]];
    LiveConcat(types, levels, indices[..k], [indices[k]]);
    assert indices[k..] == [indices[k]] + indices[k + 1..];
    LiveConcat(types, levels, [indices[k]], indices[k + 1..]);
  }

  /** Only the classes at live positions of the chain matter. */
  lemma {:induction false} LiveSame(a: seq<BidiClass>, b: seq<BidiClass>, levels: seq<Level>, indices: seq<nat>)
    requires |a| == |b| == |levels| && Bounded(levels, indices)
    requires forall i :: 0 <= i < |levels| && i in indices && levels[i] != NO_LEVEL ==> a[i] == b[i]
    ensures Live(a, levels, indices) == Live(b, levels, indices)
  {
    if indices != [] {
      var n := |indices| - 1;
      assert indices[n] in indices;
      LiveSame(a, b, levels, indices[..n]);
    }
  }

  lemma {:induction false} LiveLength(a: seq<BidiClass>, b: seq<BidiClass>, levels: seq<Level>, indices: seq<nat>)
    requires |a| == |b| == |levels| && Bounded(levels, indices)
    ensures |Live(a, levels, indices)| == |Live(b, levels, indices)|
  {
    if indices != [] { LiveLength(a, b, levels, indices[..|indices| - 1]); }
  }

  /** Every live class is the class of some live position of the chain. */
  lemma {:induction false} LiveAt(types: seq<BidiClass>, levels: seq<Level>, indices: seq<nat>, q: nat) returns (i: nat)
    requires |types| == |levels| && Bounded(levels, indices)
    requires q < |Live(types, levels, indices)|
    ensures i in indices && i < |levels| && levels[i] != NO_LEVEL && types[i] == Live(types, levels, indices)[q]
  {
    var n := |indices| - 1;
    if q < |Live(types, levels, indices[..n])| {
      i := LiveAt(types, levels, indices[..n], q);
    } else {
      i := indices[n];
    }
  }

  /** And every live position of the chain has its class among them. */
  lemma {:induction false} AtLive(types: seq<BidiClass>, levels: seq<Level>, indices: seq<nat>, i: nat) returns (q: nat)
    requires |types| == |levels| && Bounded(levels, indices)
    requires i in indices && levels[i] != NO_LEVEL
    ensures q < |Live(types, levels, indices)| && types[i] == Live(types, levels, indices)[q]
  {
    var n := |indices| - 1;
    if indices[n] == i {
      q := |Live(types, levels, indices)| - 1;
    } else {
      q := AtLive(types, levels, indices[..n], i);
    }
  }

  // ----- A pass that changes one position at a time -----

  /** The positions before the `k`-th hold `before` and the others `after`;
      nothing outside the chain, and nothing removed, has changed. */
  ghost predicate Between(start: seq<BidiClass>, types: seq<BidiClass>, levels: seq<Level>, indices: seq<nat>, k: nat,
                          before: seq<BidiClass>, after: seq<BidiClass>)
  {
    && |start| == |types| == |levels| && Bounded(levels, indices) && k <= |indices|
    && Untouched(start, types, levels, indices)
    && |before| == |after| == |Live(start, levels, indices)|
    && var m := |Live(start, levels, indices[..k])|;
       && m <= |before|
       && Live(types, levels, indices[..k]) == before[..m]
       && Live(types, levels, indices[k..]) == after[m..]
  }

  ghost predicate Untouched(start: seq<BidiClass>, types: seq<BidiClass>, levels: seq<Level>, indices: seq<nat>)
    requires |start| == |types| == |levels|
  {
    forall i :: 0 <= i < |levels| && (i !in indices || levels[i] == NO_LEVEL) ==> types[i] == start[i]
  }

  /** How many live positions come before the `k`-th. */
  ghost function Before(types: seq<BidiClass>, levels: seq<Level>, indices: seq<nat>, k: nat): nat
    requires |types| == |levels| && Bounded(levels, indices) && k <= |indices|
  {
    |Live(types, levels, indices[..k])|
  }

  lemma BetweenStart(types: seq<BidiClass>, levels: seq<Level>, indices: seq<nat>, after: seq<BidiClass>)
    requires |types| == |levels| && Bounded(levels, indices)
    requires |after| == |Live(types, levels, indices)|
    ensures Between(types, types, levels, indices, 0, after, Live(types, levels, indices))
    ensures Between(types, types, levels, indices, |indices|, Live(types, levels, indices), after)
  {
    assert indices[..|indices|] == indices && indices[0..] == indices;
  }

  lemma BetweenEnd(start: seq<BidiClass>, types: seq<BidiClass>, levels: seq<Level>, indices: seq<nat>,
                   before: seq<BidiClass>, after: seq<BidiClass>)
    ensures Between(start, types, levels, indices, |indices|, before, after) ==> Live(types, levels, indices) == before
    ensures Between(start, types, levels, indices, 0, before, after) ==> Live(types, levels, indices) == after
  {
    assert indices[..|indices|] == indices && indices[0..] == indices;
  }

  /** What is known at the `k`-th position. */
  lemma BetweenHere(start: seq<BidiClass>, types: seq<BidiClass>, levels: seq<Level>, indices: seq<nat>, k: nat,
                    before: seq<BidiClass>, after: seq<BidiClass>)
    requires Between(start, types, levels, indices, k, before, after) && k < |indices|
    ensures var m := Before(start, levels, indices, k);
      if levels[indices[k]] == NO_LEVEL
      then Before(start, levels, indices, k + 1) == m && Between(start, types, levels, indices, k + 1, before, after)
      else
        && Before(start, levels, indices, k + 1) == m + 1 <= |before|
        && types[indices[k]] == after[m]
        && Live(types, levels, indices[..k]) == before[..m]
        && Live(types, levels, indices[k + 1..]) == after[m + 1..]
  {
    LiveNext(types, levels, indices, k);
    LiveNext(start, levels, indices, k);
    LiveSplit(start, levels, indices, k + 1);
  }

  /** Setting one position leaves the live classes of the others. */
  lemma SetOther(types: seq<BidiClass>, levels: seq<Level>, indices: seq<nat>, i: nat, bc: BidiClass)
    requires |types| == |levels| && Bounded(levels, indices) && i < |levels| && i !in indices
    ensures Live(types[i := bc], levels, indices) == Live(types, levels, indices)
  {
    LiveSame(types[i := bc], types, levels, indices);
  }

  /** A pass in order: the `k`-th position gets the class `before` has for it. */
  lemma BetweenForward(start: seq<BidiClass>, types: seq<BidiClass>, levels: seq<Level>, indices: seq<nat>, k: nat,
                       before: seq<BidiClass>, after: seq<BidiClass>)
    requires Between(start, types, levels, indices, k, before, after) && k < |indices|
    requires Increasing(indices) && levels[indices[k]] != NO_LEVEL
    ensures var m := Before(start, levels, indices, k);
      && m < |before|
      && Between(start, types[indices[k] := before[m]], levels, indices, k + 1, before, after)
  {
    hide Live;
    BetweenHere(start, types, levels, indices, k, before, after);
    var m, i := Before(start, levels, indices, k), indices[k];
    var next := types[i := before[m]];
    assert i !in indices[..k] && i !in indices[k + 1..];
    SetOther(types, levels, indices[..k], i, before[m]);
    SetOther(types, levels, indices[k + 1..], i, before[m]);
    LiveNext(next, levels, indices, k);
    assert before[..m] + [before[m]] == before[..m + 1];
    assert i in indices;
  }

  /** A pass in reverse: the position before the `k`-th gets the class `after` has. */
  lemma BetweenBackward(start: seq<BidiClass>, types: seq<BidiClass>, levels: seq<Level>, indices: seq<nat>, k: nat,
                        before: seq<BidiClass>, after: seq<BidiClass>)
    requires Between(start, types, levels, indices, k + 1, before, after) && k < |indices|
    requires Increasing(indices)
    ensures var m := Before(start, levels, indices, k);
      if levels[indices[k]] == NO_LEVEL then Between(start, types, levels, indices, k, before, after)
      else
        && m < |before|
        && Between(start, types[indices[k] := after[m]], levels, indices, k, before, after)
        && types[indices[k]] == before[m]
        && Live(types, levels, indices[..k]) == before[..m]
        && Live(types, levels, indices[k + 1..]) == after[m + 1..]
  {
    hide Live;
    var m, i := Before(start, levels, indices, k), indices[k];
    LiveNext(types, levels, indices, k);
    LiveNext(start, levels, indices, k);
    LiveLength(start, types, levels, indices[..k]);
    if levels[i] != NO_LEVEL {
      var next := types[i := after[m]];
      assert i !in indices[..k] && i !in indices[k + 1..];
      SetOther(types, levels, indices[..k], i, after[m]);
      SetOther(types, levels, indices[k + 1..], i, after[m]);
      LiveNext(next, levels, indices, k);
      assert [after[m]] + after[m + 1..] == after[m..];
      assert before[..m + 1][..m] == before[..m];
      assert i in indices;
    }
  }

  lemma LiveEmpty(types: seq<BidiClass>, levels: seq<Level>)
    requires |types| == |levels|
    ensures Live(types, levels, []) == []
  {
  }

  lemma BeforeStart(types: seq<BidiClass>, levels: seq<Level>, indices: seq<nat>)
    requires |types| == |levels| && Bounded(levels, indices)
    ensures Before(types, levels, indices, 0) == 0
  {
    assert indices[..0] == [];
  }

  lemma BetweenUntouched(start: seq<BidiClass>, types: seq<BidiClass>, levels: seq<Level>, indices: seq<nat>, k: nat,
                         before: seq<BidiClass>, after: seq<BidiClass>)
    requires Between(start, types, levels, indices, k, before, after)
    ensures Untouched(start, types, levels, indices)
  {
  }

  /** A removed character still has a class that no rule looks for. */
  lemma InertHere(start: seq<BidiClass>, types: seq<BidiClass>, levels: seq<Level>, indices: seq<nat>, k: nat,
                  before: seq<BidiClass>, after: seq<BidiClass>)
    requires Inert(start, levels) && Between(start, types, levels, indices, k, before, after) && k < |indices|
    ensures levels[indices[k]] == NO_LEVEL ==> types[indices[k]].IsFormat()
  {
  }

  lemma InertBetween(start: seq<BidiClass>, types: seq<BidiClass>, levels: seq<Level>, indices: seq<nat>, k: nat,
                     before: seq<BidiClass>, after: seq<BidiClass>)
    requires Inert(start, levels) && Between(start, types, levels, indices, k, before, after)
    ensures StillInert(types, levels)
  {
  }
}
