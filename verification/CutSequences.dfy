/** N0 on a sequence that is cut in two between strong characters, as the source cuts one at an
    overridden isolate: exactly when the parts get what the whole gets. */
module CutSequences {
  import opened Wrappers
  import opened BidiTypes
  import opened Runs
  import opened TextChains
  import opened Rules
  import opened Brackets
  import opened BracketOverflow
  import opened Determined
  import opened ChainCores
  import opened OverriddenIsolates
  import Neutral

  /** A pair with its brackets on either side of the cut. */
  predicate Spans(p: Pair, n: nat) {
    p.openingPos < n <= p.closingPos
  }

  ghost predicate NoneSpans(pairs: seq<Pair>, n: nat) {
    forall j :: 0 <= j < |pairs| ==> !Spans(pairs[j], n)
  }

  /** The positions of the second part in the whole. */
  function Behind(n: nat, len: nat): (f: seq<nat>)
    ensures |f| == len && forall k :: 0 <= k < len ==> f[k] == n + k
  {
    seq(len, k requires 0 <= k => n + k)
  }

  // ----- BD16 -----

  lemma {:induction false} CollectPrefix(a: seq<Mark>, b: seq<Mark>, k: nat)
    requires k <= |a|
    ensures Collect(a + b, k) == Collect(a, k)
  {
    if k > 0 { CollectPrefix(a, b, k - 1); }
  }

  lemma {:induction false} SeekConcat(a: seq<Waiting>, b: seq<Waiting>, bracket: char)
    ensures Seek(a + b, bracket) == if Seek(b, bracket).Some? then Some(|a| + Seek(b, bracket).value) else Seek(a, bracket)
  {
    if b == [] {
      assert a + b == a;
    } else {
      var m := |b| - 1;
      assert (a + b)[..|a + b| - 1] == a + b[..m];
      SeekConcat(a, b[..m], bracket);
    }
  }

  /** What BD16 has after the first part and some of the second. */
  function Joined(f: seq<nat>, a: Pairing, b: Pairing): Pairing {
    Pairing(a.waiting + MapWaiting(f, b.waiting), a.pairs + MapPairs(f, b.pairs))
  }

  /** One character of the second part, unless it closes an opener of the first. */
  lemma StepJoined(f: seq<nat>, a: Pairing, b: Pairing, k: nat, mark: Mark)
    requires k < |f| && PairStep(Joined(f, a, b), f[k], mark).Some?
    requires mark.Closing? && Seek(b.waiting, mark.bracket).None? ==> Seek(a.waiting, mark.bracket).None?
    ensures PairStep(b, k, mark).Some?
    ensures PairStep(Joined(f, a, b), f[k], mark).value == Joined(f, a, PairStep(b, k, mark).value)
  {
    match mark
    case Other =>
    case Opening(closing) =>
      var w := Waiting(closing, k);
      assert MapWaiting(f, b.waiting + [w]) == MapWaiting(f, b.waiting) + [Waiting(closing, f[k])];
      assert a.waiting + (MapWaiting(f, b.waiting) + [Waiting(closing, f[k])]) == a.waiting + MapWaiting(f, b.waiting) + [Waiting(closing, f[k])];
    case Closing(bracket) =>
      SeekMapped(f, b.waiting, bracket);
      SeekConcat(a.waiting, MapWaiting(f, b.waiting), bracket);
      var d := Seek(b.waiting, bracket);
      if d.Some? {
        var p := Pair(b.waiting[d.value].pos, k);
        var w := a.waiting + MapWaiting(f, b.waiting);
        assert w[..|a.waiting| + d.value] == a.waiting + MapWaiting(f, b.waiting[..d.value]);
        assert MapPairs(f, b.pairs + [p]) == MapPairs(f, b.pairs) + [MapPair(f, p)];
        assert a.pairs + (MapPairs(f, b.pairs) + [MapPair(f, p)]) == a.pairs + MapPairs(f, b.pairs) + [MapPair(f, p)];
      }
  }

  /** A character that closes an opener of the first part. */
  lemma StepSpans(f: seq<nat>, a: Pairing, b: Pairing, k: nat, bracket: char)
    requires k < |f| && Seek(b.waiting, bracket).None? && Seek(a.waiting, bracket).Some?
    ensures PairStep(Joined(f, a, b), f[k], Closing(bracket)).Some?
    ensures PairStep(Joined(f, a, b), f[k], Closing(bracket)).value.pairs ==
            Joined(f, a, b).pairs + [Pair(a.waiting[Seek(a.waiting, bracket).value].pos, f[k])]
  {
    SeekMapped(f, b.waiting, bracket);
    SeekConcat(a.waiting, MapWaiting(f, b.waiting), bracket);
  }

  /** Pairs once found stay. */
  lemma StepAdds(st: Pairing, pos: nat, mark: Mark)
    requires PairStep(st, pos, mark).Some?
    ensures st.pairs <= PairStep(st, pos, mark).value.pairs
  {
  }

  /** Some pair reaches over the cut, from an opener that still waits there. */
  ghost predicate SpanFrom(waiting: seq<Waiting>, pairs: seq<Pair>, n: nat) {
    exists d, j :: 0 <= d < |waiting| && 0 <= j < |pairs| && Spans(pairs[j], n) && pairs[j].openingPos == waiting[d].pos
  }

  /** The pairs of the parts lie on one side each. */
  lemma PartsDoNotSpan(a: seq<Mark>, b: seq<Mark>, k: nat)
    requires k <= |b| && Collect(a, |a|).Some? && Collect(b, k).Some?
    ensures NoneSpans(Joined(Behind(|a|, |b|), Collect(a, |a|).value, Collect(b, k).value).pairs, |a|)
    ensures forall d :: 0 <= d < |Collect(a, |a|).value.waiting| ==> Collect(a, |a|).value.waiting[d].pos < |a|
  {
    hide Collect, NonCrossing, PairStep;
    CollectPairs(a, |a|);
    CollectPairs(b, k);
    var st := Collect(b, k).value;
    forall j | 0 <= j < |st.pairs| ensures st.pairs[j].openingPos < |b| { assert Joins(b, st.pairs[j]); }
  }

  /** Either no pair reaches over the cut, and the two parts have been collected side by
      side, or one does from an opener that still waits there. */
  lemma {:induction false} SideBySide(a: seq<Mark>, b: seq<Mark>, k: nat)
    requires k <= |b| && Collect(a + b, |a| + k).Some?
    ensures Collect(a, |a|).Some?
    ensures NoneSpans(Collect(a + b, |a| + k).value.pairs, |a|) ==> Collect(b, k).Some?
    ensures NoneSpans(Collect(a + b, |a| + k).value.pairs, |a|) ==>
              Collect(a + b, |a| + k).value == Joined(Behind(|a|, |b|), Collect(a, |a|).value, Collect(b, k).value)
    ensures !NoneSpans(Collect(a + b, |a| + k).value.pairs, |a|) ==>
              SpanFrom(Collect(a, |a|).value.waiting, Collect(a + b, |a| + k).value.pairs, |a|)
  {
    hide PairStep, Joined, NoneSpans, SpanFrom;
    var f := Behind(|a|, |b|);
    if k == 0 {
      CollectPrefix(a, b, |a|);
      JoinedStart(f, Collect(a, |a|).value);
      PartsDoNotSpan(a, b, 0);
    } else {
      assert (a + b)[|a| + k - 1] == b[k - 1];
      SideBySide(a, b, k - 1);
      var before, after := Collect(a + b, |a| + k - 1).value, Collect(a + b, |a| + k).value;
      var st := Collect(a, |a|).value;
      StepAdds(before, |a| + k - 1, b[k - 1]);
      if NoneSpans(before.pairs, |a|) {
        var rest := Collect(b, k - 1).value;
        PartsDoNotSpan(a, b, k - 1);
        if b[k - 1].Closing? && Seek(rest.waiting, b[k - 1].bracket).None? && Seek(st.waiting, b[k - 1].bracket).Some? {
          var d := Seek(st.waiting, b[k - 1].bracket).value;
          StepSpans(f, st, rest, k - 1, b[k - 1].bracket);
          NewSpan(st.waiting, before.pairs, d, f[k - 1], |a|);
        } else {
          StepJoined(f, st, rest, k - 1, b[k - 1]);
          PartsDoNotSpan(a, b, k);
        }
      } else {
        OldSpan(st.waiting, before.pairs, after.pairs, |a|);
      }
    }
  }

  lemma JoinedStart(f: seq<nat>, a: Pairing)
    ensures Joined(f, a, Pairing([], [])) == a
  {
  }

  lemma NewSpan(waiting: seq<Waiting>, pairs: seq<Pair>, d: nat, pos: nat, n: nat)
    requires d < |waiting| && waiting[d].pos < n <= pos
    ensures var more := pairs + [Pair(waiting[d].pos, pos)]; SpanFrom(waiting, more, n) && !NoneSpans(more, n)
  {
    var more := pairs + [Pair(waiting[d].pos, pos)];
    assert Spans(more[|pairs|], n);
  }

  lemma OldSpan(waiting: seq<Waiting>, pairs: seq<Pair>, more: seq<Pair>, n: nat)
    requires pairs <= more && SpanFrom(waiting, pairs, n)
    ensures SpanFrom(waiting, more, n) && !NoneSpans(more, n)
  {
    var d, j :| 0 <= d < |waiting| && 0 <= j < |pairs| && Spans(pairs[j], n) && pairs[j].openingPos == waiting[d].pos;
    assert Spans(more[j], n);
  }

  // ----- N0 on the first part -----

  /** A sequence without removed characters, cut behind a character that did not come as a
      mark. */
  ghost predicate CutRun(orig: seq<BidiClass>, levels: seq<Level>, whole: IsoRun, first: IsoRun, second: IsoRun) {
    && |orig| == |levels| && Bounded(levels, whole.indices) && Bounded(levels, first.indices) && Bounded(levels, second.indices)
    && whole.indices == first.indices + second.indices && first.indices != [] && second.indices != []
    && Increasing(whole.indices)
    && (forall k :: 0 <= k < |whole.indices| ==> levels[whole.indices[k]] != NO_LEVEL)
    && orig[first.indices[|first.indices| - 1]] != NonspacingMark
    && whole.level == first.level == second.level && whole.sos == first.sos
  }

  lemma FirstAt(orig: seq<BidiClass>, levels: seq<Level>, whole: IsoRun, first: IsoRun, second: IsoRun, k: nat)
    requires CutRun(orig, levels, whole, first, second) && k < |whole.indices|
    ensures whole.indices[k] == if k < |first.indices| then first.indices[k] else second.indices[k - |first.indices|]
  {
  }

  lemma TrailsFirst(orig: seq<BidiClass>, levels: seq<Level>, whole: IsoRun, first: IsoRun, second: IsoRun, a: nat, k: nat)
    requires CutRun(orig, levels, whole, first, second) && a < |first.indices| - 1 && k < |whole.indices|
    ensures Trails(orig, levels, whole.indices, a, k) <==> k < |first.indices| && Trails(orig, levels, first.indices, a, k)
  {
    var n := |first.indices|;
    assert whole.indices[n - 1] == first.indices[n - 1] && levels[whole.indices[n - 1]] != NO_LEVEL;
    assert forall j :: 0 <= j < n ==> whole.indices[j] == first.indices[j];
  }

  lemma FollowsFirst(orig: seq<BidiClass>, levels: seq<Level>, whole: IsoRun, first: IsoRun, second: IsoRun, p: Pair, k: nat)
    requires CutRun(orig, levels, whole, first, second) && p.openingPos < p.closingPos < |first.indices| - 1 && k < |whole.indices|
    ensures Follows(orig, levels, whole.indices, p, k) <==> k < |first.indices| && Follows(orig, levels, first.indices, p, k)
  {
    TrailsFirst(orig, levels, whole, first, second, p.openingPos, k);
    TrailsFirst(orig, levels, whole, first, second, p.closingPos, k);
    hide Trails;
  }

  lemma PairSetFirst(types: seq<BidiClass>, after: seq<BidiClass>, orig: seq<BidiClass>, levels: seq<Level>,
                     whole: IsoRun, first: IsoRun, second: IsoRun, p: Pair, bc: BidiClass)
    requires CutRun(orig, levels, whole, first, second) && |types| == |orig| && p.openingPos < p.closingPos < |first.indices| - 1
    requires PairSet(types, after, orig, levels, first.indices, p, bc)
    ensures PairSet(types, after, orig, levels, whole.indices, p, bc)
  {
    hide Follows;
    forall k | 0 <= k < |whole.indices|
      ensures after[whole.indices[k]] == if Follows(orig, levels, whole.indices, p, k) then bc else types[whole.indices[k]]
    {
      FirstAt(orig, levels, whole, first, second, k);
      FollowsFirst(orig, levels, whole, first, second, p, k);
      if k >= |first.indices| { SecondElsewhere(orig, levels, whole, first, second, k); }
    }
    assert forall i :: i in first.indices ==> i in whole.indices;
  }

  lemma SecondElsewhere(orig: seq<BidiClass>, levels: seq<Level>, whole: IsoRun, first: IsoRun, second: IsoRun, k: nat)
    requires CutRun(orig, levels, whole, first, second) && |first.indices| <= k < |whole.indices|
    ensures whole.indices[k] !in first.indices
  {
    forall j | 0 <= j < |first.indices| ensures first.indices[j] != whole.indices[k] {
      assert whole.indices[j] < whole.indices[k] && whole.indices[j] == first.indices[j];
    }
  }

  lemma PairSideFirst(types: seq<BidiClass>, orig: seq<BidiClass>, levels: seq<Level>, whole: IsoRun, first: IsoRun, second: IsoRun, p: Pair)
    requires CutRun(orig, levels, whole, first, second) && |types| == |orig| && p.openingPos < p.closingPos < |first.indices|
    ensures PairSide(types, levels, whole, p) == PairSide(types, levels, first, p)
  {
    hide Live, Neutral.SideBefore;
    assert whole.indices[..p.openingPos] == first.indices[..p.openingPos];
    assert forall k :: 0 <= k < |first.indices| ==> whole.indices[k] == first.indices[k];
  }

  lemma {:induction false} PairsFirst(start: seq<BidiClass>, types: seq<BidiClass>, orig: seq<BidiClass>, levels: seq<Level>,
                                      whole: IsoRun, first: IsoRun, second: IsoRun, pairs: seq<Pair>)
    requires CutRun(orig, levels, whole, first, second) && |start| == |orig| && PairsFit(pairs, |first.indices| - 1)
    requires PairsResolved(start, types, orig, levels, first, pairs)
    ensures PairsResolved(start, types, orig, levels, whole, pairs)
    decreases |pairs|
  {
    hide PairSide, PairSet;
    if pairs != [] {
      var m := |pairs| - 1;
      var before := PairsBefore(start, types, orig, levels, first, pairs);
      PairsFirst(start, before, orig, levels, whole, first, second, pairs[..m]);
      PairSideFirst(before, orig, levels, whole, first, second, pairs[m]);
      var side := PairSide(before, levels, first, pairs[m]);
      if side.Some? { PairSetFirst(before, types, orig, levels, whole, first, second, pairs[m], side.value.AsBidiClass()); }
    }
  }

  // ----- And on the second part -----

  lemma MarkSecond(orig: seq<BidiClass>, levels: seq<Level>, whole: IsoRun, first: IsoRun, second: IsoRun, k: nat)
    requires CutRun(orig, levels, whole, first, second) && k < |second.indices|
    ensures MarkOrNone(orig, levels, whole.indices, |first.indices| + k) <==> MarkOrNone(orig, levels, second.indices, k)
  {
    FirstAt(orig, levels, whole, first, second, |first.indices| + k);
  }

  lemma TrailsSecond(orig: seq<BidiClass>, levels: seq<Level>, whole: IsoRun, first: IsoRun, second: IsoRun, a: nat, k: nat)
    requires CutRun(orig, levels, whole, first, second) && a < |second.indices| && k < |second.indices|
    ensures Trails(orig, levels, whole.indices, |first.indices| + a, |first.indices| + k) <==> Trails(orig, levels, second.indices, a, k)
  {
    var n := |first.indices|;
    TrailsMeans(orig, levels, whole.indices, n + a, n + k);
    TrailsMeans(orig, levels, second.indices, a, k);
    FirstAt(orig, levels, whole, first, second, n + k);
    hide Trails, MarkOrNone, CutRun;
    if Trails(orig, levels, whole.indices, n + a, n + k) {
      forall j: nat | a < j < k ensures MarkOrNone(orig, levels, second.indices, j) {
        MarkSecond(orig, levels, whole, first, second, j);
        assert MarkOrNone(orig, levels, whole.indices, n + j);
      }
    }
    if Trails(orig, levels, second.indices, a, k) {
      forall h: nat | n + a < h < n + k ensures MarkOrNone(orig, levels, whole.indices, h) {
        MarkSecond(orig, levels, whole, first, second, h - n);
        assert MarkOrNone(orig, levels, second.indices, h - n);
      }
    }
  }

  lemma FollowsSecond(orig: seq<BidiClass>, levels: seq<Level>, whole: IsoRun, first: IsoRun, second: IsoRun, p: Pair, h: nat)
    requires CutRun(orig, levels, whole, first, second) && p.openingPos < p.closingPos < |second.indices| && h < |whole.indices|
    ensures var n := |first.indices|;
      Follows(orig, levels, whole.indices, Pair(n + p.openingPos, n + p.closingPos), h) <==>
      h >= n && Follows(orig, levels, second.indices, p, h - n)
  {
    var n := |first.indices|;
    if h >= n {
      TrailsSecond(orig, levels, whole, first, second, p.openingPos, h - n);
      TrailsSecond(orig, levels, whole, first, second, p.closingPos, h - n);
      hide Trails;
    }
  }

  lemma PairSetSecond(types: seq<BidiClass>, after: seq<BidiClass>, orig: seq<BidiClass>, levels: seq<Level>,
                      whole: IsoRun, first: IsoRun, second: IsoRun, p: Pair, bc: BidiClass)
    requires CutRun(orig, levels, whole, first, second) && |types| == |orig| && p.openingPos < p.closingPos < |second.indices|
    requires PairSet(types, after, orig, levels, second.indices, p, bc)
    ensures var n := |first.indices|; PairSet(types, after, orig, levels, whole.indices, Pair(n + p.openingPos, n + p.closingPos), bc)
  {
    hide Follows;
    var n := |first.indices|;
    var q := Pair(n + p.openingPos, n + p.closingPos);
    forall h | 0 <= h < |whole.indices|
      ensures after[whole.indices[h]] == if Follows(orig, levels, whole.indices, q, h) then bc else types[whole.indices[h]]
    {
      FirstAt(orig, levels, whole, first, second, h);
      FollowsSecond(orig, levels, whole, first, second, p, h);
      if h < n { FirstElsewhere(orig, levels, whole, first, second, h); }
    }
    assert forall i :: i in second.indices ==> i in whole.indices;
  }

  lemma FirstElsewhere(orig: seq<BidiClass>, levels: seq<Level>, whole: IsoRun, first: IsoRun, second: IsoRun, h: nat)
    requires CutRun(orig, levels, whole, first, second) && h < |first.indices|
    ensures whole.indices[h] !in second.indices
  {
    var n := |first.indices|;
    forall j | 0 <= j < |second.indices| ensures second.indices[j] != whole.indices[h] {
      assert whole.indices[h] < whole.indices[n + j] && whole.indices[n + j] == second.indices[j];
    }
  }

  /** Looking back from the second part ends at its first character, which is strong. */
  lemma PriorSecond(types: seq<BidiClass>, orig: seq<BidiClass>, levels: seq<Level>, whole: IsoRun, first: IsoRun, second: IsoRun, m: nat)
    requires CutRun(orig, levels, whole, first, second) && |types| == |orig| && 0 < m <= |second.indices|
    requires types[second.indices[0]] in {LeftToRight, RightToLeft}
    ensures var prior, whole' := Live(types, levels, second.indices[..m]), Live(types, levels, whole.indices[..|first.indices| + m]);
      Neutral.SideBefore(whole', |whole'|, whole.sos) == Neutral.SideBefore(prior, |prior|, second.sos)
  {
    hide Live, Neutral.SideBefore;
    var y := second.indices[..m];
    assert whole.indices[..|first.indices| + m] == first.indices + y;
    LiveConcat(types, levels, first.indices, y);
    AllLive(levels, whole, |first.indices|, y);
    LiveList(types, levels, y);
    hide CutRun;
    var x, z := Live(types, levels, first.indices), Live(types, levels, y);
    SideBeforePart(x + z, z, |x|, |z|, whole.sos, second.sos);
  }

  /** The side of a pair goes by what is inside and what comes before. */
  lemma PairSideBy(types: seq<BidiClass>, levels: seq<Level>, a: IsoRun, p: Pair, b: IsoRun, q: Pair)
    requires |types| == |levels| && Bounded(levels, a.indices) && Bounded(levels, b.indices) && a.level == b.level
    requires p.openingPos < p.closingPos < |a.indices| && q.openingPos < q.closingPos < |b.indices|
    requires forall side: Direction :: Inside(types, a.indices, p, side) == Inside(types, b.indices, q, side)
    requires var x, y := Live(types, levels, a.indices[..p.openingPos]), Live(types, levels, b.indices[..q.openingPos]);
      Neutral.SideBefore(x, |x|, a.sos) == Neutral.SideBefore(y, |y|, b.sos)
    ensures PairSide(types, levels, a, p) == PairSide(types, levels, b, q)
  {
    hide Live, Neutral.SideBefore, Inside;
    var e := DirectionOf(a.level);
    assert Inside(types, a.indices, p, e) == Inside(types, b.indices, q, e);
    assert Inside(types, a.indices, p, e.Opposite()) == Inside(types, b.indices, q, e.Opposite());
  }

  lemma PairSideSecond(types: seq<BidiClass>, orig: seq<BidiClass>, levels: seq<Level>, whole: IsoRun, first: IsoRun, second: IsoRun, p: Pair)
    requires CutRun(orig, levels, whole, first, second) && |types| == |orig| && 0 < p.openingPos < p.closingPos < |second.indices|
    requires types[second.indices[0]] in {LeftToRight, RightToLeft}
    ensures var n := |first.indices|;
      PairSide(types, levels, whole, Pair(n + p.openingPos, n + p.closingPos)) == PairSide(types, levels, second, p)
  {
    hide Live, Neutral.SideBefore, Inside, PairSide;
    PriorSecond(types, orig, levels, whole, first, second, p.openingPos);
    var n := |first.indices|;
    forall side: Direction ensures Inside(types, whole.indices, Pair(n + p.openingPos, n + p.closingPos), side) == Inside(types, second.indices, p, side) {
      InsideSecond(types, whole.indices, second.indices, n, p, side);
    }
    PairSideBy(types, levels, whole, Pair(n + p.openingPos, n + p.closingPos), second, p);
  }

  lemma AllLive(levels: seq<Level>, whole: IsoRun, n: nat, y: seq<nat>)
    requires Bounded(levels, whole.indices) && n + |y| <= |whole.indices| && forall k :: 0 <= k < |y| ==> y[k] == whole.indices[n + k]
    requires forall k :: 0 <= k < |whole.indices| ==> levels[whole.indices[k]] != NO_LEVEL
    ensures Bounded(levels, y) && forall k :: 0 <= k < |y| ==> levels[y[k]] != NO_LEVEL
  {
  }

  lemma InsideSecond(types: seq<BidiClass>, whole: seq<nat>, second: seq<nat>, n: nat, p: Pair, side: Direction)
    requires |whole| == n + |second| && p.openingPos < p.closingPos < |second|
    requires forall k :: 0 <= k < |second| ==> second[k] < |types| && whole[n + k] == second[k]
    requires forall k :: 0 <= k < |whole| ==> whole[k] < |types|
    ensures Inside(types, second, p, side) <==> Inside(types, whole, Pair(n + p.openingPos, n + p.closingPos), side)
  {
    if k :| p.openingPos < k < p.closingPos && Neutral.SideOf(types[second[k]]) == Some(side) {
      assert Neutral.SideOf(types[whole[n + k]]) == Some(side);
    }
    if h :| n + p.openingPos < h < n + p.closingPos && Neutral.SideOf(types[whole[h]]) == Some(side) {
      assert whole[n + (h - n)] == second[h - n];
    }
  }

  /** The pairs of the second part told in positions of the whole. */
  function Moved(n: nat, pairs: seq<Pair>): (r: seq<Pair>)
    ensures |r| == |pairs|
  {
    seq(|pairs|, j requires 0 <= j < |pairs| => MovedPair(n, pairs[j]))
  }

  function MovedPair(n: nat, p: Pair): Pair {
    Pair(n + p.openingPos, n + p.closingPos)
  }

  lemma StrongStays(types: seq<BidiClass>, after: seq<BidiClass>, i: nat)
    requires SetsSides(types, after) && i < |types| && types[i] in {LeftToRight, RightToLeft}
    ensures |after| == |types| && after[i] in {LeftToRight, RightToLeft}
  {
  }

  /** One pair resolved. */
  ghost predicate OnePair(before: seq<BidiClass>, types: seq<BidiClass>, orig: seq<BidiClass>, levels: seq<Level>, run: IsoRun, p: Pair)
    requires |before| == |orig| == |levels| && Bounded(levels, run.indices) && p.openingPos < p.closingPos < |run.indices|
  {
    match PairSide(before, levels, run, p)
    case None => types == before
    case Some(side) => PairSet(before, types, orig, levels, run.indices, p, side.AsBidiClass())
  }

  lemma OnePairSecond(before: seq<BidiClass>, types: seq<BidiClass>, orig: seq<BidiClass>, levels: seq<Level>,
                      whole: IsoRun, first: IsoRun, second: IsoRun, p: Pair)
    requires CutRun(orig, levels, whole, first, second) && |before| == |orig| && 0 < p.openingPos < p.closingPos < |second.indices|
    requires before[second.indices[0]] in {LeftToRight, RightToLeft} && OnePair(before, types, orig, levels, second, p)
    ensures OnePair(before, types, orig, levels, whole, MovedPair(|first.indices|, p))
    ensures |types| == |before| && types[second.indices[0]] in {LeftToRight, RightToLeft}
  {
    hide PairSide, PairSet, SetsSides, Increasing;
    PairSideSecond(before, orig, levels, whole, first, second, p);
    var side := PairSide(before, levels, second, p);
    if side.Some? {
      PairSetSecond(before, types, orig, levels, whole, first, second, p, side.value.AsBidiClass());
      PairSetEffect(before, types, orig, levels, second.indices, p, side.value);
      StrongStays(before, types, second.indices[0]);
    }
  }

  lemma LastPair(start: seq<BidiClass>, types: seq<BidiClass>, orig: seq<BidiClass>, levels: seq<Level>, run: IsoRun, pairs: seq<Pair>)
    returns (before: seq<BidiClass>)
    requires |start| == |orig| == |levels| && Bounded(levels, run.indices) && pairs != [] && PairsFit(pairs, |run.indices|)
    requires PairsResolved(start, types, orig, levels, run, pairs)
    ensures |before| == |start| && PairsFit(pairs[..|pairs| - 1], |run.indices|)
    ensures PairsResolved(start, before, orig, levels, run, pairs[..|pairs| - 1])
    ensures OnePair(before, types, orig, levels, run, pairs[|pairs| - 1])
  {
    hide PairSide, PairSet, PairsResolved;
    before := PairsBefore(start, types, orig, levels, run, pairs);
  }

  lemma PairsNext(start: seq<BidiClass>, before: seq<BidiClass>, types: seq<BidiClass>, orig: seq<BidiClass>, levels: seq<Level>,
                  run: IsoRun, pairs: seq<Pair>, p: Pair)
    requires |start| == |orig| == |levels| && Bounded(levels, run.indices) && PairsFit(pairs, |run.indices|)
    requires p.openingPos < p.closingPos < |run.indices| && |before| == |types| == |start|
    requires PairsResolved(start, before, orig, levels, run, pairs) && OnePair(before, types, orig, levels, run, p)
    ensures PairsFit(pairs + [p], |run.indices|) && PairsResolved(start, types, orig, levels, run, pairs + [p])
  {
    hide PairSide, PairSet;
    assert (pairs + [p])[..|pairs|] == pairs;
  }

  /** No pair opens with the first character. */
  ghost predicate LaterOpening(pairs: seq<Pair>) {
    forall j :: 0 <= j < |pairs| ==> pairs[j].openingPos > 0
  }

  lemma MovedNext(n: nat, pairs: seq<Pair>, len: nat)
    requires pairs != [] && PairsFit(pairs, len) && LaterOpening(pairs)
    ensures var m := |pairs| - 1;
      && 0 < pairs[m].openingPos < pairs[m].closingPos < len && LaterOpening(pairs[..m])
      && Moved(n, pairs) == Moved(n, pairs[..m]) + [MovedPair(n, pairs[m])]
      && MovedPair(n, pairs[m]).openingPos < MovedPair(n, pairs[m]).closingPos < n + len
      && PairsFit(pairs[..m], len) && PairsFit(Moved(n, pairs), n + len)
  {
  }

  lemma CutLengths(orig: seq<BidiClass>, levels: seq<Level>, whole: IsoRun, first: IsoRun, second: IsoRun)
    requires CutRun(orig, levels, whole, first, second)
    ensures |orig| == |levels| && Bounded(levels, whole.indices) && Bounded(levels, first.indices) && Bounded(levels, second.indices)
    ensures |whole.indices| == |first.indices| + |second.indices| && second.indices != []
  {
  }

  lemma PairsSecondNext(start: seq<BidiClass>, before: seq<BidiClass>, types: seq<BidiClass>, orig: seq<BidiClass>, levels: seq<Level>,
                        whole: IsoRun, first: IsoRun, second: IsoRun, pairs: seq<Pair>)
    requires CutRun(orig, levels, whole, first, second) && |start| == |before| == |orig| && pairs != []
    requires PairsFit(pairs, |second.indices|) && LaterOpening(pairs)
    requires before[second.indices[0]] in {LeftToRight, RightToLeft}
    requires OnePair(before, types, orig, levels, second, pairs[|pairs| - 1])
    requires PairsFit(Moved(|first.indices|, pairs[..|pairs| - 1]), |whole.indices|)
    requires PairsResolved(start, before, orig, levels, whole, Moved(|first.indices|, pairs[..|pairs| - 1]))
    ensures |types| == |start| && types[second.indices[0]] in {LeftToRight, RightToLeft}
    ensures PairsFit(Moved(|first.indices|, pairs), |whole.indices|)
    ensures PairsResolved(start, types, orig, levels, whole, Moved(|first.indices|, pairs))
  {
    CutLengths(orig, levels, whole, first, second);
    hide CutRun, Moved, MovedPair, OnePair, PairsFit, LaterOpening, PairsResolved;
    var m, n := |pairs| - 1, |first.indices|;
    MovedNext(n, pairs, |second.indices|);
    OnePairSecond(before, types, orig, levels, whole, first, second, pairs[m]);
    PairsNext(start, before, types, orig, levels, whole, Moved(n, pairs[..m]), MovedPair(n, pairs[m]));
  }

  lemma {:induction false} PairsSecond(start: seq<BidiClass>, types: seq<BidiClass>, orig: seq<BidiClass>, levels: seq<Level>,
                                       whole: IsoRun, first: IsoRun, second: IsoRun, pairs: seq<Pair>)
    requires CutRun(orig, levels, whole, first, second) && |start| == |orig| && PairsFit(pairs, |second.indices|)
    requires LaterOpening(pairs) && start[second.indices[0]] in {LeftToRight, RightToLeft}
    requires PairsResolved(start, types, orig, levels, second, pairs)
    ensures |types| == |start| && types[second.indices[0]] in {LeftToRight, RightToLeft}
    ensures PairsFit(Moved(|first.indices|, pairs), |whole.indices|)
    ensures PairsResolved(start, types, orig, levels, whole, Moved(|first.indices|, pairs))
    decreases |pairs|
  {
    CutLengths(orig, levels, whole, first, second);
    hide CutRun, Moved, OnePair, PairsFit, LaterOpening, PairsResolved;
    if pairs == [] {
      NoneMoved(start, types, orig, levels, whole, second, |first.indices|);
    } else {
      var before := LastPair(start, types, orig, levels, second, pairs);
      MovedNext(|first.indices|, pairs, |second.indices|);
      PairsSecond(start, before, orig, levels, whole, first, second, pairs[..|pairs| - 1]);
      PairsSecondNext(start, before, types, orig, levels, whole, first, second, pairs);
    }
  }

  lemma NoneMoved(start: seq<BidiClass>, types: seq<BidiClass>, orig: seq<BidiClass>, levels: seq<Level>, whole: IsoRun, second: IsoRun, n: nat)
    requires |start| == |orig| == |levels| && Bounded(levels, whole.indices) && Bounded(levels, second.indices)
    requires PairsResolved(start, types, orig, levels, second, [])
    ensures types == start && Moved(n, []) == [] && PairsFit([], |whole.indices|)
    ensures PairsResolved(start, types, orig, levels, whole, [])
  {
  }

  /** Pairs resolved after others. */
  lemma {:induction false} PairsAppend(start: seq<BidiClass>, mid: seq<BidiClass>, types: seq<BidiClass>, orig: seq<BidiClass>, levels: seq<Level>,
                                       run: IsoRun, p: seq<Pair>, q: seq<Pair>)
    requires |start| == |orig| == |levels| && Bounded(levels, run.indices) && PairsFit(p, |run.indices|) && PairsFit(q, |run.indices|)
    requires PairsResolved(start, mid, orig, levels, run, p) && |mid| == |start| && PairsResolved(mid, types, orig, levels, run, q)
    ensures PairsFit(p + q, |run.indices|) && PairsResolved(start, types, orig, levels, run, p + q)
    decreases |q|
  {
    hide PairSide, PairSet;
    if q == [] {
      assert p + q == p;
    } else {
      var m := |q| - 1;
      var before := PairsBefore(mid, types, orig, levels, run, q);
      PairsAppend(start, mid, before, orig, levels, run, p, q[..m]);
      assert (p + q)[..|p + q| - 1] == p + q[..m];
    }
  }

  // ----- Where no pair reaches over the cut -----

  /** BD16 does not overflow, and finds what it finds in the parts. */
  ghost predicate FoundApart(start: seq<BidiClass>, levels: seq<Level>, paragraph: seq<char>, lookup: BracketTable,
                             whole: IsoRun, first: IsoRun, second: IsoRun)
    requires |start| == |levels| == |paragraph|
    requires Bounded(levels, whole.indices) && Bounded(levels, first.indices) && Bounded(levels, second.indices)
  {
    var a, b := Marks(start, paragraph, lookup, first.indices), Marks(start, paragraph, lookup, second.indices);
    && Collect(a, |a|).Some? && Collect(b, |b|).Some?
    && Collected(Marks(start, paragraph, lookup, whole.indices), |whole.indices|).pairs ==
       Collect(a, |a|).value.pairs + MapPairs(Behind(|a|, |b|), Collect(b, |b|).value.pairs)
  }

  lemma MarksJoin(start: seq<BidiClass>, orig: seq<BidiClass>, levels: seq<Level>, paragraph: seq<char>, lookup: BracketTable,
                  whole: IsoRun, first: IsoRun, second: IsoRun)
    requires CutRun(orig, levels, whole, first, second) && |start| == |levels| == |paragraph|
    ensures Marks(start, paragraph, lookup, whole.indices) ==
            Marks(start, paragraph, lookup, first.indices) + Marks(start, paragraph, lookup, second.indices)
  {
  }

  lemma ApartOrSpan(start: seq<BidiClass>, orig: seq<BidiClass>, levels: seq<Level>, paragraph: seq<char>, lookup: BracketTable,
                    whole: IsoRun, first: IsoRun, second: IsoRun)
    requires CutRun(orig, levels, whole, first, second) && |start| == |levels| == |paragraph|
    requires !Overflows(start, paragraph, lookup, whole.indices)
    ensures var pairs := Collected(Marks(start, paragraph, lookup, whole.indices), |whole.indices|).pairs;
      var a := Marks(start, paragraph, lookup, first.indices);
      && Collect(a, |a|).Some?
      && (NoneSpans(pairs, |first.indices|) ==> FoundApart(start, levels, paragraph, lookup, whole, first, second))
      && (!NoneSpans(pairs, |first.indices|) ==> SpanFrom(Collect(a, |a|).value.waiting, pairs, |first.indices|))
  {
    hide Marks, Collect, NoneSpans, SpanFrom;
    MarksJoin(start, orig, levels, paragraph, lookup, whole, first, second);
    var a, b := Marks(start, paragraph, lookup, first.indices), Marks(start, paragraph, lookup, second.indices);
    SideBySide(a, b, |b|);
    var m := CollectedPairs(a + b, |a + b|);
  }

  /** Strong characters on both sides of the cut. */
  ghost predicate StrongCut(start: seq<BidiClass>, first: IsoRun, second: IsoRun) {
    && first.indices != [] && first.indices[|first.indices| - 1] < |start| && second.indices != [] && second.indices[0] < |start|
    && start[first.indices[|first.indices| - 1]] in {LeftToRight, RightToLeft} && start[second.indices[0]] in {LeftToRight, RightToLeft}
  }

  /** The brackets of the pairs are not the strong characters at the cut. */
  lemma PairsOffTheCut(start: seq<BidiClass>, levels: seq<Level>, paragraph: seq<char>, lookup: BracketTable, indices: seq<nat>, pairs: seq<Pair>)
    requires |start| == |levels| == |paragraph| && Bounded(levels, indices) && indices != []
    requires SequencePairs(start, paragraph, lookup, indices, pairs)
    ensures start[indices[|indices| - 1]] in {LeftToRight, RightToLeft} ==> PairsFit(pairs, |indices| - 1)
    ensures start[indices[0]] in {LeftToRight, RightToLeft} ==> LaterOpening(pairs)
    ensures PairsFit(pairs, |indices|)
  {
    hide Collected, NonCrossing, ByOpening;
    var marks := Marks(start, paragraph, lookup, indices);
    var m := CollectedPairs(marks, |indices|);
    forall j | 0 <= j < |pairs|
      ensures pairs[j].openingPos < pairs[j].closingPos < |indices|
      ensures start[indices[pairs[j].openingPos]] == OtherNeutral && start[indices[pairs[j].closingPos]] == OtherNeutral
    {
      var i := SameElement(pairs, Collected(marks, |indices|).pairs, j);
      assert Joins(marks, pairs[j]);
    }
  }

  lemma MovedIsMapped(n: nat, len: nat, pairs: seq<Pair>)
    requires PairsFit(pairs, len)
    ensures MapPairs(Behind(n, len), pairs) == Moved(n, pairs)
  {
  }

  lemma MovedOrdered(n: nat, p: seq<Pair>, q: seq<Pair>)
    requires ByOpening(p) && ByOpening(q) && PairsFit(p, n)
    ensures ByOpening(p + Moved(n, q))
  {
  }

  /** The sorted pairs of the parts, one after the other, are those of the whole. */
  lemma PairsSideBySide(start: seq<BidiClass>, orig: seq<BidiClass>, levels: seq<Level>, paragraph: seq<char>, lookup: BracketTable,
                        whole: IsoRun, first: IsoRun, second: IsoRun, p: seq<Pair>, q: seq<Pair>)
    requires CutRun(orig, levels, whole, first, second) && |start| == |levels| == |paragraph|
    requires FoundApart(start, levels, paragraph, lookup, whole, first, second)
    requires SequencePairs(start, paragraph, lookup, first.indices, p) && SequencePairs(start, paragraph, lookup, second.indices, q)
    ensures SequencePairs(start, paragraph, lookup, whole.indices, p + Moved(|first.indices|, q))
  {
    CutLengths(orig, levels, whole, first, second);
    CutNotEmpty(orig, levels, whole, first, second);
    hide CutRun, Marks, Collect, ByOpening, MapPairs, Moved, PairsFit, LaterOpening;
    PairsOffTheCut(start, levels, paragraph, lookup, first.indices, p);
    PairsOffTheCut(start, levels, paragraph, lookup, second.indices, q);
    var a, b := Marks(start, paragraph, lookup, first.indices), Marks(start, paragraph, lookup, second.indices);
    var m := CollectedPairs(a, |a|);
    m := CollectedPairs(b, |b|);
    MultisetMapped(Behind(|a|, |b|), q, Collect(b, |b|).value.pairs);
    MovedIsMapped(|a|, |b|, q);
    MovedOrdered(|a|, p, q);
  }

  lemma CutNotEmpty(orig: seq<BidiClass>, levels: seq<Level>, whole: IsoRun, first: IsoRun, second: IsoRun)
    requires CutRun(orig, levels, whole, first, second)
    ensures first.indices != [] && second.indices != []
    ensures forall i :: i in second.indices ==> i !in first.indices
  {
    forall i | i in second.indices ensures i !in first.indices {
      var k :| 0 <= k < |second.indices| && second.indices[k] == i;
      FirstAt(orig, levels, whole, first, second, |first.indices| + k);
      SecondElsewhere(orig, levels, whole, first, second, |first.indices| + k);
    }
  }

  /** What is set is strong, and so the cut stays between strong characters. */
  lemma StrongCutStays(start: seq<BidiClass>, a: seq<BidiClass>, first: IsoRun, second: IsoRun)
    requires SetsSides(start, a) && StrongCut(start, first, second)
    ensures |a| == |start| && StrongCut(a, first, second)
  {
    hide SetsSides;
    StrongStays(start, a, first.indices[|first.indices| - 1]);
    StrongStays(start, a, second.indices[0]);
  }

  lemma AgreesOff(start: seq<BidiClass>, a: seq<BidiClass>, changed: seq<nat>, kept: seq<nat>)
    requires |start| == |a| && forall i :: 0 <= i < |start| && i !in changed ==> a[i] == start[i]
    requires forall i :: i in kept ==> i !in changed
    ensures AgreeOn(start, a, kept)
  {
  }

  /** One part leaves the other as it was. */
  lemma PartLeaves(start: seq<BidiClass>, a: seq<BidiClass>, orig: seq<BidiClass>, levels: seq<Level>,
                   whole: IsoRun, first: IsoRun, second: IsoRun, paragraph: seq<char>, lookup: BracketTable)
    requires CutRun(orig, levels, whole, first, second) && |start| == |levels| == |paragraph| && StrongCut(start, first, second)
    requires OneStep(start, a, orig, levels, first, paragraph, lookup)
    ensures |a| == |start| && AgreeOn(start, a, second.indices) && StrongCut(a, first, second)
  {
    CutLengths(orig, levels, whole, first, second);
    CutNotEmpty(orig, levels, whole, first, second);
    hide CutRun, OneStep, Resolvable, Changed, SetsSides, StrongCut, AgreeOn;
    OneEffect(start, a, orig, levels, first, paragraph, lookup);
    StrongCutStays(start, a, first, second);
    AgreesOff(start, a, first.indices, second.indices);
  }

  /** The pairs of the parts resolved one after the other in the whole. */
  lemma PairsTogether(start: seq<BidiClass>, a: seq<BidiClass>, b: seq<BidiClass>, orig: seq<BidiClass>, levels: seq<Level>,
                      whole: IsoRun, first: IsoRun, second: IsoRun, p: seq<Pair>, q: seq<Pair>)
    requires CutRun(orig, levels, whole, first, second) && |start| == |a| == |levels| && StrongCut(a, first, second)
    requires AgreeOn(start, a, second.indices) && PairsFit(p, |first.indices| - 1) && PairsFit(q, |second.indices|) && LaterOpening(q)
    requires PairsResolved(start, a, orig, levels, first, p) && PairsResolved(start, b, orig, levels, second, q)
    ensures |b| == |a| && PairsFit(p + Moved(|first.indices|, q), |whole.indices|)
    ensures PairsResolved(start, Overlay(a, b, second.indices), orig, levels, whole, p + Moved(|first.indices|, q))
  {
    CutLengths(orig, levels, whole, first, second);
    PairsLocal(start, b, a, orig, levels, second, q);
    hide CutRun, PairsResolved, Moved, LaterOpening, Overlay;
    var r := Overlay(a, b, second.indices);
    PairsFirst(start, a, orig, levels, whole, first, second, p);
    PairsSecond(a, r, orig, levels, whole, first, second, q);
    PairsAppend(start, a, r, orig, levels, whole, p, Moved(|first.indices|, q));
  }

  lemma StepTogether(start: seq<BidiClass>, a: seq<BidiClass>, b: seq<BidiClass>, orig: seq<BidiClass>, levels: seq<Level>,
                     whole: IsoRun, first: IsoRun, second: IsoRun, paragraph: seq<char>, lookup: BracketTable)
    requires CutRun(orig, levels, whole, first, second) && |start| == |levels| == |paragraph| && StrongCut(start, first, second)
    requires FoundApart(start, levels, paragraph, lookup, whole, first, second)
    requires OneStep(start, a, orig, levels, first, paragraph, lookup) && OneStep(start, b, orig, levels, second, paragraph, lookup)
    ensures |a| == |b| && OneStep(start, Overlay(a, b, second.indices), orig, levels, whole, paragraph, lookup)
  {
    CutLengths(orig, levels, whole, first, second);
    CutNotEmpty(orig, levels, whole, first, second);
    var p := StepPairs(start, a, orig, levels, first, paragraph, lookup);
    var q := StepPairs(start, b, orig, levels, second, paragraph, lookup);
    PairsOffTheCut(start, levels, paragraph, lookup, first.indices, p);
    PairsOffTheCut(start, levels, paragraph, lookup, second.indices, q);
    hide CutRun, OneStep, SequencePairs, PairsResolved, FoundApart, Moved, PairsFit, LaterOpening, Overlay, AgreeOn;
    PartLeaves(start, a, orig, levels, whole, first, second, paragraph, lookup);
    PairsTogether(start, a, b, orig, levels, whole, first, second, p, q);
    PairsSideBySide(start, orig, levels, paragraph, lookup, whole, first, second, p, q);
    StepWith(start, Overlay(a, b, second.indices), orig, levels, whole, paragraph, lookup, p + Moved(|first.indices|, q));
  }

  /** Where the pairs of the whole are those of the parts, so is the outcome. */
  lemma ApartResolved(start: seq<BidiClass>, a: seq<BidiClass>, b: seq<BidiClass>, t: seq<BidiClass>, orig: seq<BidiClass>, levels: seq<Level>,
                      whole: IsoRun, first: IsoRun, second: IsoRun, paragraph: seq<char>, lookup: BracketTable)
    requires CutRun(orig, levels, whole, first, second) && |start| == |levels| == |paragraph| && StrongCut(start, first, second)
    requires FoundApart(start, levels, paragraph, lookup, whole, first, second)
    requires OneStep(start, a, orig, levels, first, paragraph, lookup) && OneStep(start, b, orig, levels, second, paragraph, lookup)
    requires OneStep(start, t, orig, levels, whole, paragraph, lookup)
    ensures AgreeOn(a, t, first.indices) && AgreeOn(b, t, second.indices)
  {
    StepTogether(start, a, b, orig, levels, whole, first, second, paragraph, lookup);
    CutLengths(orig, levels, whole, first, second);
    CutNotEmpty(orig, levels, whole, first, second);
    hide CutRun, OneStep, FoundApart;
    OneStepUnique(start, t, Overlay(a, b, second.indices), orig, levels, whole, paragraph, lookup);
    forall k | 0 <= k < |first.indices| ensures first.indices[k] !in second.indices {
      assert first.indices[k] in first.indices;
    }
  }

  // ----- Where one does -----

  /** A strong character stays one. */
  lemma EnclosesStays(start: seq<BidiClass>, before: seq<BidiClass>, indices: seq<nat>, p: Pair)
    requires SetsSides(start, before) && forall k :: 0 <= k < |indices| ==> indices[k] < |start|
    requires Encloses(start, indices, p)
    ensures Encloses(before, indices, p)
  {
    var k :| p.openingPos < k < p.closingPos && k < |indices| && Neutral.SideOf(start[indices[k]]).Some?;
    assert Neutral.SideOf(before[indices[k]]).Some?;
  }

  lemma OpeningSet(types: seq<BidiClass>, after: seq<BidiClass>, orig: seq<BidiClass>, levels: seq<Level>, indices: seq<nat>, p: Pair, bc: BidiClass)
    requires |types| == |orig| == |levels| && Bounded(levels, indices) && p.openingPos < |indices|
    requires PairSet(types, after, orig, levels, indices, p, bc)
    ensures |after| == |types| && after[indices[p.openingPos]] == bc
  {
    hide Trails;
    assert Follows(orig, levels, indices, p, p.openingPos);
  }

  /** A pair that encloses a strong character has its opening bracket set. */
  lemma {:induction false} EnclosingSet(start: seq<BidiClass>, types: seq<BidiClass>, orig: seq<BidiClass>, levels: seq<Level>,
                                        run: IsoRun, pairs: seq<Pair>, j: nat)
    requires |start| == |orig| == |levels| && Bounded(levels, run.indices) && PairsFit(pairs, |run.indices|)
    requires NeutralPairs(start, run.indices, pairs) && PairsResolved(start, types, orig, levels, run, pairs)
    requires j < |pairs| && Encloses(start, run.indices, pairs[j])
    ensures |types| == |start| && types[run.indices[pairs[j].openingPos]] in {LeftToRight, RightToLeft}
    decreases |pairs|
  {
    hide PairSide, PairSet, Encloses, Changed;
    var m := |pairs| - 1;
    var before := PairsBefore(start, types, orig, levels, run, pairs);
    hide PairsResolved;
    if j < m { EnclosingSet(start, before, orig, levels, run, pairs[..m], j); }
    PairsEffect(start, before, orig, levels, run, pairs[..m]);
    SideIfEncloses(before, levels, run, pairs[m]);
    EncloseIf(start, before, run.indices, pairs[m]);
    var side := PairSide(before, levels, run, pairs[m]);
    if side.Some? {
      PairSetEffect(before, types, orig, levels, run.indices, pairs[m], side.value);
      OpeningSet(before, types, orig, levels, run.indices, pairs[m], side.value.AsBidiClass());
      if j < m { StrongStays(before, types, run.indices[pairs[j].openingPos]); }
    }
  }

  lemma EncloseIf(start: seq<BidiClass>, before: seq<BidiClass>, indices: seq<nat>, p: Pair)
    requires SetsSides(start, before) && forall k :: 0 <= k < |indices| ==> indices[k] < |start|
    ensures Encloses(start, indices, p) ==> Encloses(before, indices, p)
  {
    if Encloses(start, indices, p) { EnclosesStays(start, before, indices, p); }
  }

  /** A position that follows no pair is not set. */
  lemma {:induction false} NotSet(start: seq<BidiClass>, types: seq<BidiClass>, orig: seq<BidiClass>, levels: seq<Level>, run: IsoRun, pairs: seq<Pair>, k: nat)
    requires |start| == |orig| == |levels| && Bounded(levels, run.indices) && PairsFit(pairs, |run.indices|) && k < |run.indices|
    requires PairsResolved(start, types, orig, levels, run, pairs)
    requires forall j :: 0 <= j < |pairs| ==> !Follows(orig, levels, run.indices, pairs[j], k)
    ensures |types| == |start| && types[run.indices[k]] == start[run.indices[k]]
    decreases |pairs|
  {
    hide PairSide, Follows;
    if pairs != [] {
      var before := PairsBefore(start, types, orig, levels, run, pairs);
      NotSet(start, before, orig, levels, run, pairs[..|pairs| - 1], k);
    }
  }

  /** No mark is a bracket. */
  ghost predicate NoMarkBrackets(orig: seq<BidiClass>, paragraph: seq<char>, lookup: BracketTable) {
    |orig| == |paragraph| && forall i :: 0 <= i < |orig| && orig[i] == NonspacingMark ==> lookup(paragraph[i]) == None
  }

  /** An opener that still waits has not been set. */
  lemma WaitingNotSet(start: seq<BidiClass>, a: seq<BidiClass>, orig: seq<BidiClass>, levels: seq<Level>, run: IsoRun,
                      paragraph: seq<char>, lookup: BracketTable, d: nat)
    requires |start| == |orig| == |levels| == |paragraph| && Bounded(levels, run.indices) && NoMarkBrackets(orig, paragraph, lookup)
    requires OneStep(start, a, orig, levels, run, paragraph, lookup)
    requires var marks := Marks(start, paragraph, lookup, run.indices); Collect(marks, |marks|).Some? && d < |Collect(marks, |marks|).value.waiting|
    ensures var marks := Marks(start, paragraph, lookup, run.indices);
      var o := Collect(marks, |marks|).value.waiting[d].pos;
      o < |run.indices| && |a| == |start| && start[run.indices[o]] == OtherNeutral && a[run.indices[o]] == OtherNeutral
  {
    hide OneStep, PairsResolved, Collect, NonCrossing, ByOpening;
    var marks := Marks(start, paragraph, lookup, run.indices);
    var pairs := StepPairs(start, a, orig, levels, run, paragraph, lookup);
    var m := CollectedPairs(marks, |marks|);
    CollectPairs(marks, |marks|);
    var st := Collect(marks, |marks|).value;
    var o := st.waiting[d].pos;
    assert marks[o] == Opening(st.waiting[d].closing);
    forall j | 0 <= j < |pairs| ensures !Follows(orig, levels, run.indices, pairs[j], o) {
      var i := SameElement(pairs, st.pairs, j);
      assert o < st.pairs[i].openingPos || st.pairs[i].closingPos < o;
    }
    NotSet(start, a, orig, levels, run, pairs, o);
  }

  /** Such a pair encloses the strong character before the cut. */
  lemma SpanEncloses(start: seq<BidiClass>, orig: seq<BidiClass>, levels: seq<Level>, whole: IsoRun, first: IsoRun, second: IsoRun, p: Pair)
    requires CutRun(orig, levels, whole, first, second) && |start| == |levels| && StrongCut(start, first, second)
    requires Spans(p, |first.indices|) && p.openingPos < |first.indices| && start[first.indices[p.openingPos]] == OtherNeutral
    ensures Encloses(start, whole.indices, p)
  {
    var k := |first.indices| - 1;
    FirstAt(orig, levels, whole, first, second, k);
    assert p.openingPos != k;
    assert Neutral.SideOf(start[whole.indices[k]]).Some?;
  }

  /** A pair that reaches over the cut is resolved in the whole. */
  lemma SpanResolved(start: seq<BidiClass>, t: seq<BidiClass>, orig: seq<BidiClass>, levels: seq<Level>,
                     whole: IsoRun, first: IsoRun, second: IsoRun, paragraph: seq<char>, lookup: BracketTable, p: Pair)
    requires CutRun(orig, levels, whole, first, second) && |start| == |levels| == |paragraph| && StrongCut(start, first, second)
    requires OneStep(start, t, orig, levels, whole, paragraph, lookup)
    requires p in Collected(Marks(start, paragraph, lookup, whole.indices), |whole.indices|).pairs && Spans(p, |first.indices|)
    requires start[first.indices[p.openingPos]] == OtherNeutral
    ensures |t| == |start| && t[first.indices[p.openingPos]] in {LeftToRight, RightToLeft}
  {
    CutLengths(orig, levels, whole, first, second);
    SpanEncloses(start, orig, levels, whole, first, second, p);
    FirstAt(orig, levels, whole, first, second, p.openingPos);
    hide CutRun, OneStep, PairsResolved, Collected, Marks, Encloses, ByOpening, StrongCut;
    var found := Collected(Marks(start, paragraph, lookup, whole.indices), |whole.indices|).pairs;
    var j :| 0 <= j < |found| && found[j] == p;
    var pairs := StepPairs(start, t, orig, levels, whole, paragraph, lookup);
    var i := SameElement(found, pairs, j);
    PairsOfSequence(start, paragraph, lookup, whole.indices, pairs);
    EnclosingSet(start, t, orig, levels, whole, pairs, i);
  }

  /** And not in the parts. */
  lemma SpanChanges(start: seq<BidiClass>, a: seq<BidiClass>, t: seq<BidiClass>, orig: seq<BidiClass>, levels: seq<Level>,
                    whole: IsoRun, first: IsoRun, second: IsoRun, paragraph: seq<char>, lookup: BracketTable)
    requires CutRun(orig, levels, whole, first, second) && |start| == |levels| == |paragraph| && StrongCut(start, first, second)
    requires NoMarkBrackets(orig, paragraph, lookup) && !Overflows(start, paragraph, lookup, whole.indices)
    requires !NoneSpans(Collected(Marks(start, paragraph, lookup, whole.indices), |whole.indices|).pairs, |first.indices|)
    requires OneStep(start, a, orig, levels, first, paragraph, lookup) && OneStep(start, t, orig, levels, whole, paragraph, lookup)
    ensures !AgreeOn(a, t, first.indices)
  {
    CutLengths(orig, levels, whole, first, second);
    ApartOrSpan(start, orig, levels, paragraph, lookup, whole, first, second);
    hide CutRun, OneStep, Collected, Collect, Marks, Overflows, NoMarkBrackets, FoundApart, StrongCut;
    var n := |first.indices|;
    var marks := Marks(start, paragraph, lookup, first.indices);
    var found := Collected(Marks(start, paragraph, lookup, whole.indices), |whole.indices|).pairs;
    var waiting := Collect(marks, |marks|).value.waiting;
    var d, j :| 0 <= d < |waiting| && 0 <= j < |found| && Spans(found[j], n) && found[j].openingPos == waiting[d].pos;
    WaitingNotSet(start, a, orig, levels, first, paragraph, lookup, d);
    SpanResolved(start, t, orig, levels, whole, first, second, paragraph, lookup, found[j]);
  }

  // ----- Exactly -----

  /** N0 on the parts of a sequence that is cut between two strong characters, as an overridden
      isolate that is not linked cuts it, comes to what N0 on the whole does if and only if no
      bracket pair of the whole reaches over the cut. */
  lemma CutExactly(start: seq<BidiClass>, a: seq<BidiClass>, b: seq<BidiClass>, t: seq<BidiClass>, orig: seq<BidiClass>, levels: seq<Level>,
                   whole: IsoRun, first: IsoRun, second: IsoRun, paragraph: seq<char>, lookup: BracketTable)
    requires CutRun(orig, levels, whole, first, second) && |start| == |levels| == |paragraph| && StrongCut(start, first, second)
    requires NoMarkBrackets(orig, paragraph, lookup) && !Overflows(start, paragraph, lookup, whole.indices)
    requires OneStep(start, a, orig, levels, first, paragraph, lookup) && OneStep(start, b, orig, levels, second, paragraph, lookup)
    requires OneStep(start, t, orig, levels, whole, paragraph, lookup)
    ensures AgreeOn(a, t, first.indices) && AgreeOn(b, t, second.indices) <==>
            NoneSpans(Collected(Marks(start, paragraph, lookup, whole.indices), |whole.indices|).pairs, |first.indices|)
  {
    hide CutRun, OneStep, Collected, Collect, Marks, Overflows, NoMarkBrackets, FoundApart, AgreeOn, NoneSpans, SpanFrom;
    CutLengths(orig, levels, whole, first, second);
    ApartOrSpan(start, orig, levels, paragraph, lookup, whole, first, second);
    if NoneSpans(Collected(Marks(start, paragraph, lookup, whole.indices), |whole.indices|).pairs, |first.indices|) {
      ApartResolved(start, a, b, t, orig, levels, whole, first, second, paragraph, lookup);
    } else {
      SpanChanges(start, a, t, orig, levels, whole, first, second, paragraph, lookup);
    }
  }

  /** And where none does, N1 and N2 give the same classes. */
  lemma CutKeepsClasses(start: seq<BidiClass>, a: seq<BidiClass>, b: seq<BidiClass>, t: seq<BidiClass>, orig: seq<BidiClass>, levels: seq<Level>,
                        whole: IsoRun, first: IsoRun, second: IsoRun, paragraph: seq<char>, lookup: BracketTable)
    requires CutRun(orig, levels, whole, first, second) && |start| == |levels| == |paragraph| && StrongCut(start, first, second)
    requires whole.eos == second.eos && !Overflows(start, paragraph, lookup, whole.indices)
    requires NoneSpans(Collected(Marks(start, paragraph, lookup, whole.indices), |whole.indices|).pairs, |first.indices|)
    requires OneStep(start, a, orig, levels, first, paragraph, lookup) && OneStep(start, b, orig, levels, second, paragraph, lookup)
    requires OneStep(start, t, orig, levels, whole, paragraph, lookup)
    ensures |a| == |b| == |t| == |levels| && Bounded(levels, whole.indices) && Bounded(levels, first.indices) && Bounded(levels, second.indices)
    ensures Neutralized(Live(t, levels, whole.indices), whole) ==
            Neutralized(Live(a, levels, first.indices), first) + Neutralized(Live(b, levels, second.indices), second)
  {
    ApartOrSpan(start, orig, levels, paragraph, lookup, whole, first, second);
    CutLengths(orig, levels, whole, first, second);
    hide CutRun, OneStep, Collected, Collect, Marks, Overflows, FoundApart, NoneSpans, SpanFrom, Live, Neutralized, AgreeOn;
    ApartResolved(start, a, b, t, orig, levels, whole, first, second, paragraph, lookup);
    PartLeaves(start, a, orig, levels, whole, first, second, paragraph, lookup);
    StepKeepsLength(start, t, orig, levels, whole, paragraph, lookup);
    SecondStays(start, b, orig, levels, second, paragraph, lookup);
    ClassesJoin(a, b, t, orig, levels, whole, first, second);
  }

  lemma PartsLive(orig: seq<BidiClass>, levels: seq<Level>, whole: IsoRun, first: IsoRun, second: IsoRun)
    requires CutRun(orig, levels, whole, first, second)
    ensures |orig| == |levels| && Bounded(levels, whole.indices) && Bounded(levels, first.indices) && Bounded(levels, second.indices)
    ensures forall k :: 0 <= k < |first.indices| ==> levels[first.indices[k]] != NO_LEVEL
    ensures forall k :: 0 <= k < |second.indices| ==> levels[second.indices[k]] != NO_LEVEL
    ensures whole.indices == first.indices + second.indices && whole.level == first.level == second.level && whole.sos == first.sos
  {
    hide Increasing;
    AllLive(levels, whole, 0, first.indices);
    AllLive(levels, whole, |first.indices|, second.indices);
  }

  lemma LiveMeet(a: seq<BidiClass>, b: seq<BidiClass>, levels: seq<Level>, first: IsoRun, second: IsoRun)
    requires |a| == |b| == |levels| && Bounded(levels, first.indices) && Bounded(levels, second.indices)
    requires forall k :: 0 <= k < |first.indices| ==> levels[first.indices[k]] != NO_LEVEL
    requires forall k :: 0 <= k < |second.indices| ==> levels[second.indices[k]] != NO_LEVEL
    requires StrongCut(a, first, second) && b[second.indices[0]] in {LeftToRight, RightToLeft}
    ensures MeetStrong(Live(a, levels, first.indices), Live(b, levels, second.indices))
  {
    hide Live;
    LiveList(a, levels, first.indices);
    LiveList(b, levels, second.indices);
  }

  lemma ClassesJoin(a: seq<BidiClass>, b: seq<BidiClass>, t: seq<BidiClass>, orig: seq<BidiClass>, levels: seq<Level>,
                    whole: IsoRun, first: IsoRun, second: IsoRun)
    requires CutRun(orig, levels, whole, first, second) && |a| == |b| == |t| == |levels| && whole.eos == second.eos
    requires AgreeOn(a, t, first.indices) && AgreeOn(b, t, second.indices)
    requires StrongCut(a, first, second) && b[second.indices[0]] in {LeftToRight, RightToLeft}
    ensures Neutralized(Live(t, levels, whole.indices), whole) ==
            Neutralized(Live(a, levels, first.indices), first) + Neutralized(Live(b, levels, second.indices), second)
  {
    hide Live, Neutralized, CutRun, AgreeOn, MeetStrong;
    PartsLive(orig, levels, whole, first, second);
    LiveMeet(a, b, levels, first, second);
    hide StrongCut;
    LiveConcat(t, levels, first.indices, second.indices);
    LiveAgrees(a, t, levels, first.indices);
    LiveAgrees(b, t, levels, second.indices);
    NeutralizedParts(Live(a, levels, first.indices), Live(b, levels, second.indices), whole, first, second);
  }

  lemma SecondStays(start: seq<BidiClass>, b: seq<BidiClass>, orig: seq<BidiClass>, levels: seq<Level>, second: IsoRun,
                    paragraph: seq<char>, lookup: BracketTable)
    requires |start| == |orig| == |levels| == |paragraph| && Bounded(levels, second.indices) && second.indices != []
    requires OneStep(start, b, orig, levels, second, paragraph, lookup) && start[second.indices[0]] in {LeftToRight, RightToLeft}
    ensures |b| == |start| && b[second.indices[0]] in {LeftToRight, RightToLeft}
  {
    hide OneStep, Resolvable;
    OneEffect(start, b, orig, levels, second, paragraph, lookup);
  }

  lemma LiveAgrees(a: seq<BidiClass>, t: seq<BidiClass>, levels: seq<Level>, indices: seq<nat>)
    requires |a| == |t| == |levels| && Bounded(levels, indices) && AgreeOn(a, t, indices)
    ensures Live(a, levels, indices) == Live(t, levels, indices)
  {
    forall i | i in indices ensures a[i] == t[i] {
      var k :| 0 <= k < |indices| && indices[k] == i;
    }
    LiveSame(a, t, levels, indices);
  }

  lemma NeutralizedParts(x: seq<BidiClass>, y: seq<BidiClass>, whole: IsoRun, first: IsoRun, second: IsoRun)
    requires MeetStrong(x, y) && PartsOf(whole, first, second)
    ensures Neutralized(x + y, whole) == Neutralized(x, first) + Neutralized(y, second)
  {
    hide Apply;
    RuleOnParts(RuleN1, x, y, whole, first, second);
    RuleOnParts(RuleN2, Apply(RuleN1, x, first), Apply(RuleN1, y, second), whole, first, second);
  }
}
