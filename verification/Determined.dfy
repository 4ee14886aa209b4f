/** What resolving a paragraph comes to depends on the paragraph and the base level
    alone: every stage has one outcome. */
module Determined {
  import opened Wrappers
  import opened BidiTypes
  import opened Explicit
  import opened Runs
  import opened Linking
  import opened Matching
  import opened TextChains
  import opened Rules
  import opened Brackets
  import opened Resolution

  // ----- Level runs -----

  lemma SpanLevel(classes: seq<BidiClass>, levels: seq<Level>, start: nat, end: nat, level: Level) returns (m: nat)
    requires IsSpan(classes, levels, start, end, level) && level != NO_LEVEL
    ensures start <= m < end && FirstLive(levels, start, |levels|) == Some(m) && levels[m] == level
  {
    var i :| start <= i < end && levels[i] == level;
    m := FirstLive(levels, start, |levels|).value;
    assert m <= i;
  }

  /** From one start there is one span. */
  lemma SpanUnique(classes: seq<BidiClass>, levels: seq<Level>, start: nat, e1: nat, l1: Level, e2: nat, l2: Level)
    requires IsSpan(classes, levels, start, e1, l1) && l1 != NO_LEVEL
    requires IsSpan(classes, levels, start, e2, l2) && l2 != NO_LEVEL
    ensures e1 == e2 && l1 == l2
  {
    var m1 := SpanLevel(classes, levels, start, e1, l1);
    var m2 := SpanLevel(classes, levels, start, e2, l2);
    if e1 < e2 { SpanNoShorter(classes, levels, start, e1, e2, l1); }
    if e2 < e1 { SpanNoShorter(classes, levels, start, e2, e1, l1); }
  }

  lemma SpanNoShorter(classes: seq<BidiClass>, levels: seq<Level>, start: nat, e1: nat, e2: nat, level: Level)
    requires IsSpan(classes, levels, start, e2, level) && level != NO_LEVEL && start < e1 < e2
    ensures !IsSpan(classes, levels, start, e1, level)
  {
    assert levels[e1] == NO_LEVEL || levels[e1] == level;
    assert classes[e1 - 1].IsIsoInit() ==> levels[e1 - 1] == NO_LEVEL;
  }

  lemma {:induction false} SpansAgree(classes: seq<BidiClass>, levels: seq<Level>, a: seq<Run>, b: seq<Run>, r: nat)
    requires Tiling(classes, levels, a) && Tiling(classes, levels, b) && r < |a| && r < |b|
    ensures a[r].start == b[r].start && a[r].end == b[r].end && a[r].level == b[r].level && a[r].len == b[r].len
  {
    hide IsSpan;
    assert a[r].start == RunsEnd(a[..r]) && b[r].start == RunsEnd(b[..r]);
    if r > 0 { SpansAgree(classes, levels, a, b, r - 1); }
    SpanUnique(classes, levels, a[r].start, a[r].end, a[r].level, b[r].end, b[r].level);
  }

  lemma NoMoreRuns(classes: seq<BidiClass>, levels: seq<Level>, a: seq<Run>, b: seq<Run>)
    requires Tiling(classes, levels, a) && Tiling(classes, levels, b) && |a| < |b|
    ensures !TailRemoved(levels, a)
  {
    hide IsSpan;
    var r := b[|a|];
    var m := SpanLevel(classes, levels, r.start, r.end, r.level);
    assert r.start == RunsEnd(b[..|a|]);
    if |a| > 0 { SpansAgree(classes, levels, a, b, |a| - 1); }
    assert r.start == RunsEnd(a);
  }

  /** There is one way to cut the paragraph into runs. */
  lemma RunsUnique(classes: seq<BidiClass>, levels: seq<Level>, base: Level, a: seq<Run>, b: seq<Run>)
    requires Tiling(classes, levels, a) && TailRemoved(levels, a) && RunsEnded(a, base)
    requires Tiling(classes, levels, b) && TailRemoved(levels, b) && RunsEnded(b, base)
    ensures SameRuns(a, b)
  {
    if |a| < |b| { NoMoreRuns(classes, levels, a, b); }
    if |b| < |a| { NoMoreRuns(classes, levels, b, a); }
    forall r | 0 <= r < |a| ensures b[r].start == a[r].start && b[r].end == a[r].end && b[r].level == a[r].level && b[r].len == a[r].len {
      SpansAgree(classes, levels, a, b, r);
    }
    hide Tiling, TailRemoved, ClassOf;
    forall r | 0 <= r < |a| ensures b[r] == a[r].(seqId := b[r].seqId) {
      assert a[r] == WithEnds(a, base, r) && b[r] == WithEnds(b, base, r);
    }
  }

  // ----- Isolating run sequences -----

  ghost predicate Linked(classes: seq<BidiClass>, levels: seq<Level>, runs: seq<Run>, isoRuns: seq<IsoRun>) {
    Partition(classes, levels, runs, isoRuns) && Greedy(classes, levels, runs, isoRuns)
  }

  lemma LinkedRange(classes: seq<BidiClass>, levels: seq<Level>, runs: seq<Run>, isoRuns: seq<IsoRun>)
    requires Linked(classes, levels, runs, isoRuns)
    ensures InRange(classes, levels, runs)
  {
    hide Greedy;
  }

  /** Between two consecutive members there is no other one. */
  lemma NoneBetween(classes: seq<BidiClass>, levels: seq<Level>, runs: seq<Run>, isoRuns: seq<IsoRun>, t: nat, i: nat, x: nat)
    requires Linked(classes, levels, runs, isoRuns) && t < |isoRuns| && 0 < i < |isoRuns[t].runs|
    requires isoRuns[t].runs[i - 1] < x < isoRuns[t].runs[i] && x < |runs|
    ensures runs[x].seqId != t + 1
  {
    hide Greedy, Links, TotalLen;
    assert IsSequence(classes, levels, runs, isoRuns[t]);
    var u, k := Home(classes, levels, runs, isoRuns, x);
  }

  /** A run that member `i` could go on with, and that no member comes before, is taken
      by that sequence or by an earlier one. */
  lemma TakenByNow(classes: seq<BidiClass>, levels: seq<Level>, runs: seq<Run>, isoRuns: seq<IsoRun>, t: nat, i: nat, r: nat)
    requires Linked(classes, levels, runs, isoRuns) && t < |isoRuns| && i < |isoRuns[t].runs|
    requires isoRuns[t].runs[i] < r < |runs| && InRange(classes, levels, runs)
    requires Links(classes, levels, runs[isoRuns[t].runs[i]], runs[r])
    requires forall x :: isoRuns[t].runs[i] < x < r ==> runs[x].seqId != t + 1
    ensures 0 < runs[r].seqId <= t + 1
  {
    hide Partition, Greedy, Links;
    MembersOf(classes, levels, runs, isoRuns, t, i);
    if i + 1 < |isoRuns[t].runs| { MembersOf(classes, levels, runs, isoRuns, t, i + 1); }
    if r < Until(isoRuns[t].runs, i, |runs|) { PassedOver(classes, levels, runs, isoRuns, t, i, r); }
  }

  /** A run that is not the first of its sequence follows the same run in both. */
  lemma SameAfter(classes: seq<BidiClass>, levels: seq<Level>, a: seq<Run>, isoA: seq<IsoRun>, b: seq<Run>, isoB: seq<IsoRun>, r: nat, t: nat, i: nat)
    requires Linked(classes, levels, a, isoA) && Linked(classes, levels, b, isoB) && SameRuns(a, b) && r < |a|
    requires forall x :: 0 <= x < r ==> a[x].seqId == b[x].seqId
    requires t < |isoA| && 0 < i < |isoA[t].runs| && isoA[t].runs[i] == r
    ensures 0 < b[r].seqId <= t + 1
  {
    hide Linked, Links, InRange;
    LinkedRange(classes, levels, a, isoA);
    LinkedRange(classes, levels, b, isoB);
    LinkedMembers(classes, levels, a, isoA, t, i - 1);
    var p := isoA[t].runs[i - 1];
    forall x | p < x < r ensures b[x].seqId != t + 1 { NoneBetween(classes, levels, a, isoA, t, i, x); }
    SameLinks(classes, levels, a, b, p, r);
    var t', i' := LinkedHome(classes, levels, b, isoB, p);
    TakenByNow(classes, levels, b, isoB, t, i', r);
  }

  lemma LinkedMembers(classes: seq<BidiClass>, levels: seq<Level>, runs: seq<Run>, isoRuns: seq<IsoRun>, s: nat, k: nat)
    requires Linked(classes, levels, runs, isoRuns) && s < |isoRuns| && k < |isoRuns[s].runs|
    ensures InRange(classes, levels, runs)
    ensures forall i :: 0 <= i < |isoRuns[s].runs| ==> isoRuns[s].runs[i] < |runs|
    ensures runs[isoRuns[s].runs[k]].seqId == s + 1 && isoRuns[s].runs[0] <= isoRuns[s].runs[k]
    ensures k + 1 < |isoRuns[s].runs| ==> isoRuns[s].runs[k] < isoRuns[s].runs[k + 1]
    ensures k + 1 < |isoRuns[s].runs| ==> Links(classes, levels, runs[isoRuns[s].runs[k]], runs[isoRuns[s].runs[k + 1]])
  {
    hide Partition, Greedy, Links;
    MembersOf(classes, levels, runs, isoRuns, s, k);
  }

  lemma LinkedHome(classes: seq<BidiClass>, levels: seq<Level>, runs: seq<Run>, isoRuns: seq<IsoRun>, q: nat) returns (t: nat, i: nat)
    requires Linked(classes, levels, runs, isoRuns) && q < |runs|
    ensures t + 1 == runs[q].seqId && t < |isoRuns| && i < |isoRuns[t].runs| && isoRuns[t].runs[i] == q
  {
    hide Partition, Greedy;
    t, i := Home(classes, levels, runs, isoRuns, q);
  }

  lemma LinkedFirsts(classes: seq<BidiClass>, levels: seq<Level>, runs: seq<Run>, isoRuns: seq<IsoRun>, t: nat, s: nat)
    requires Linked(classes, levels, runs, isoRuns) && t < s < |isoRuns|
    ensures isoRuns[t].runs != [] && isoRuns[s].runs != [] && isoRuns[t].runs[0] < isoRuns[s].runs[0]
  {
    hide Partition, Greedy;
    FirstBefore(classes, levels, runs, isoRuns, t, s);
  }

  /** The sequence of a run is not an earlier one in one gathering than in the other. */
  lemma NotEarlier(classes: seq<BidiClass>, levels: seq<Level>, a: seq<Run>, isoA: seq<IsoRun>, b: seq<Run>, isoB: seq<IsoRun>, r: nat)
    requires Linked(classes, levels, a, isoA) && Linked(classes, levels, b, isoB) && SameRuns(a, b) && r < |a|
    requires forall x :: 0 <= x < r ==> a[x].seqId == b[x].seqId
    ensures b[r].seqId >= a[r].seqId
  {
    hide Linked, Links, InRange;
    var t, i := LinkedHome(classes, levels, a, isoA, r);
    var u, h := LinkedHome(classes, levels, b, isoB, r);
    if u < t {
      if h > 0 {
        SameAfter(classes, levels, b, isoB, a, isoA, r, u, h);
      } else {
        // r is the first of an earlier sequence in b: then a has that sequence begin
        // before r as well, at a run that is in it in b too
        LinkedFirsts(classes, levels, a, isoA, u, t);
        LinkedMembers(classes, levels, a, isoA, t, i);
        var f := isoA[u].runs[0];
        LinkedMembers(classes, levels, a, isoA, u, 0);
        var u', h' := LinkedHome(classes, levels, b, isoB, f);
        LinkedMembers(classes, levels, b, isoB, u, h');
      }
    }
  }

  lemma {:induction false} IdsUnique(classes: seq<BidiClass>, levels: seq<Level>, a: seq<Run>, isoA: seq<IsoRun>, b: seq<Run>, isoB: seq<IsoRun>, n: nat)
    requires Linked(classes, levels, a, isoA) && Linked(classes, levels, b, isoB) && SameRuns(a, b) && n <= |a|
    ensures forall r :: 0 <= r < n ==> a[r].seqId == b[r].seqId
  {
    hide Linked;
    if n > 0 {
      IdsUnique(classes, levels, a, isoA, b, isoB, n - 1);
      NotEarlier(classes, levels, a, isoA, b, isoB, n - 1);
      NotEarlier(classes, levels, b, isoB, a, isoA, n - 1);
    }
  }

  lemma HasFirst(a: seq<nat>)
    ensures a != [] ==> a[0] in a
  {
  }

  lemma {:induction false} IncreasingUnique(a: seq<nat>, b: seq<nat>)
    requires Increasing(a) && Increasing(b)
    requires forall x :: x in a <==> x in b
    ensures a == b
  {
    HasFirst(a);
    HasFirst(b);
    if a != [] && b != [] {
      assert a[0] == b[0];
      forall x ensures x in a[1..] <==> x in b[1..] {
        assert x in a[1..] <==> x in a && x != a[0];
        assert x in b[1..] <==> x in b && x != b[0];
      }
      IncreasingUnique(a[1..], b[1..]);
    }
  }

  lemma MemberIffId(classes: seq<BidiClass>, levels: seq<Level>, runs: seq<Run>, isoRuns: seq<IsoRun>, s: nat, x: nat)
    requires Linked(classes, levels, runs, isoRuns) && s < |isoRuns|
    ensures x in isoRuns[s].runs <==> x < |runs| && runs[x].seqId == s + 1
    ensures Increasing(isoRuns[s].runs) && isoRuns[s].runs != []
  {
    hide Links, TotalLen, Greedy;
    assert IsSequence(classes, levels, runs, isoRuns[s]);
  }

  lemma NotMoreSequences(classes: seq<BidiClass>, levels: seq<Level>, runs: seq<Run>, isoA: seq<IsoRun>, isoB: seq<IsoRun>)
    requires Linked(classes, levels, runs, isoA) && Linked(classes, levels, runs, isoB)
    ensures |isoA| <= |isoB|
  {
    hide Linked;
    if |isoA| > 0 {
      var s := |isoA| - 1;
      MemberIffId(classes, levels, runs, isoA, s, 0);
      var x := isoA[s].runs[0];
      MemberIffId(classes, levels, runs, isoA, s, x);
      var t, i := LinkedHome(classes, levels, runs, isoB, x);
    }
  }

  /** There is one way to gather the runs into sequences. */
  lemma SequencesUnique(classes: seq<BidiClass>, levels: seq<Level>, base: Level, a: seq<Run>, isoA: seq<IsoRun>, b: seq<Run>, isoB: seq<IsoRun>)
    requires Sequences(classes, levels, base, a, isoA) && Sequences(classes, levels, base, b, isoB)
    ensures a == b && isoA == isoB
  {
    hide Tiling, TailRemoved, RunsEnded, Partition, Greedy, SequencesEnded, Finished;
    RunsUnique(classes, levels, base, a, b);
    IdsUnique(classes, levels, a, isoA, b, isoB, |a|);
    assert a == b;
    hide Linked;
    NotMoreSequences(classes, levels, a, isoA, isoB);
    NotMoreSequences(classes, levels, a, isoB, isoA);
    forall s | 0 <= s < |isoA| ensures isoA[s] == isoB[s] {
      SequenceUnique(classes, levels, base, a, isoA, isoB, s);
    }
  }

  /** A sequence as its members make it. */
  function Built(classes: seq<BidiClass>, base: Level, runs: seq<Run>, members: seq<nat>): IsoRun
    requires members != [] && Members(runs, members)
    requires 0 < runs[members[|members| - 1]].end <= |classes|
  {
    var first, last := runs[members[0]], runs[members[|members| - 1]];
    IsoRun(members, TotalLen(runs, members), first.level, first.sor,
           if classes[last.end - 1].IsIsoInit() then ClassOf(Max(base, first.level)) else last.eor,
           TextChain(runs, members))
  }

  lemma AsBuilt(classes: seq<BidiClass>, levels: seq<Level>, base: Level, runs: seq<Run>, isoRuns: seq<IsoRun>, s: nat)
    requires Partition(classes, levels, runs, isoRuns) && SequencesEnded(classes, base, runs, isoRuns) && Finished(runs, isoRuns)
    requires s < |isoRuns|
    ensures Built.requires(classes, base, runs, isoRuns[s].runs) && isoRuns[s] == Built(classes, base, runs, isoRuns[s].runs)
  {
    hide Links, TextChain, TotalLen, Assigned;
    assert IsSequence(classes, levels, runs, isoRuns[s]);
    assert Ended(classes, base, runs, isoRuns[s]);
    assert runs[isoRuns[s].runs[0]].level == isoRuns[s].level;
  }

  lemma SequenceUnique(classes: seq<BidiClass>, levels: seq<Level>, base: Level, runs: seq<Run>, isoA: seq<IsoRun>, isoB: seq<IsoRun>, s: nat)
    requires Sequences(classes, levels, base, runs, isoA) && Sequences(classes, levels, base, runs, isoB)
    requires s < |isoA| && s < |isoB|
    ensures isoA[s] == isoB[s]
  {
    hide Tiling, TailRemoved, RunsEnded, Greedy, Partition, SequencesEnded, Finished, Built, BoundedRuns;
    assert Linked(classes, levels, runs, isoA) && Linked(classes, levels, runs, isoB);
    hide Linked;
    forall x ensures x in isoA[s].runs <==> x in isoB[s].runs {
      MemberIffId(classes, levels, runs, isoA, s, x);
      MemberIffId(classes, levels, runs, isoB, s, x);
    }
    MemberIffId(classes, levels, runs, isoA, s, 0);
    MemberIffId(classes, levels, runs, isoB, s, 0);
    IncreasingUnique(isoA[s].runs, isoB[s].runs);
    AsBuilt(classes, levels, base, runs, isoA, s);
    AsBuilt(classes, levels, base, runs, isoB, s);
  }

  // ----- Classes -----

  lemma {:induction false} LiveDetermines(a: seq<BidiClass>, b: seq<BidiClass>, levels: seq<Level>, indices: seq<nat>, i: nat)
    requires |a| == |b| == |levels| && Bounded(levels, indices) && i in indices && levels[i] != NO_LEVEL
    requires Live(a, levels, indices) == Live(b, levels, indices)
    ensures a[i] == b[i]
  {
    var n := |indices| - 1;
    var x, y := Live(a, levels, indices[..n]), Live(b, levels, indices[..n]);
    LiveLength(a, b, levels, indices[..n]);
    if levels[indices[n]] != NO_LEVEL {
      assert Live(a, levels, indices)[..|x|] == x && Live(b, levels, indices)[..|x|] == y;
      assert Live(a, levels, indices)[|x|] == a[indices[n]] && Live(b, levels, indices)[|x|] == b[indices[n]];
      assert x == y;
    } else {
      assert Live(a, levels, indices) == x && Live(b, levels, indices) == y;
    }
    if i != indices[n] { LiveDetermines(a, b, levels, indices[..n], i); }
  }

  /** Classes that agree along every sequence, and where characters were removed, are
      the same. */
  lemma ClassesUnique(start: seq<BidiClass>, a: seq<BidiClass>, b: seq<BidiClass>, levels: seq<Level>, isoRuns: seq<IsoRun>)
    requires |start| == |a| == |b| == |levels| && BoundedRuns(levels, isoRuns) && Covering(levels, isoRuns)
    requires RemovedKept(start, a, levels) && RemovedKept(start, b, levels)
    requires forall s :: 0 <= s < |isoRuns| ==> Live(a, levels, isoRuns[s].indices) == Live(b, levels, isoRuns[s].indices)
    ensures a == b
  {
    hide Live;
    forall i | 0 <= i < |levels| ensures a[i] == b[i] {
      if levels[i] != NO_LEVEL {
        var s :| 0 <= s < |isoRuns| && i in isoRuns[s].indices;
        LiveDetermines(a, b, levels, isoRuns[s].indices, i);
      }
    }
  }

  // ----- Brackets -----

  lemma PairSetUnique(types: seq<BidiClass>, a: seq<BidiClass>, b: seq<BidiClass>, orig: seq<BidiClass>, levels: seq<Level>, indices: seq<nat>, p: Pair, bc: BidiClass)
    requires |types| == |orig| == |levels| && Bounded(levels, indices)
    requires PairSet(types, a, orig, levels, indices, p, bc) && PairSet(types, b, orig, levels, indices, p, bc)
    ensures a == b
  {
    hide Follows;
    forall i | 0 <= i < |a| ensures a[i] == b[i] {
      if i in indices {
        var k :| 0 <= k < |indices| && indices[k] == i;
      }
    }
  }

  lemma {:induction false} PairsUnique(start: seq<BidiClass>, a: seq<BidiClass>, b: seq<BidiClass>, orig: seq<BidiClass>, levels: seq<Level>, run: IsoRun, pairs: seq<Pair>)
    requires |start| == |orig| == |levels| && Bounded(levels, run.indices)
    requires forall k :: 0 <= k < |pairs| ==> pairs[k].openingPos < pairs[k].closingPos < |run.indices|
    requires PairsResolved(start, a, orig, levels, run, pairs) && PairsResolved(start, b, orig, levels, run, pairs)
    ensures a == b
    decreases |pairs|
  {
    hide PairSet, PairSide;
    if pairs != [] {
      var n := |pairs| - 1;
      var a' :| PairsResolved(start, a', orig, levels, run, pairs[..n])
        && match PairSide(a', levels, run, pairs[n])
           case None => a == a'
           case Some(side) => PairSet(a', a, orig, levels, run.indices, pairs[n], side.AsBidiClass());
      var b' :| PairsResolved(start, b', orig, levels, run, pairs[..n])
        && match PairSide(b', levels, run, pairs[n])
           case None => b == b'
           case Some(side) => PairSet(b', b, orig, levels, run.indices, pairs[n], side.AsBidiClass());
      PairsUnique(start, a', b', orig, levels, run, pairs[..n]);
      if PairSide(a', levels, run, pairs[n]).Some? {
        PairSetUnique(a', a, b, orig, levels, run.indices, pairs[n], PairSide(a', levels, run, pairs[n]).value.AsBidiClass());
      }
    }
  }

  /** The pairs of a sequence have one order to be resolved in. */
  lemma PairOrderUnique(types: seq<BidiClass>, paragraph: seq<char>, lookup: BracketTable, run: IsoRun, a: seq<Pair>, b: seq<Pair>)
    requires |types| == |paragraph| && forall k :: 0 <= k < |run.indices| ==> run.indices[k] < |types|
    requires PairsOf(types, paragraph, lookup, run, a) && PairsOf(types, paragraph, lookup, run, b)
    ensures a == b
  {
    hide Collect, ByOpening;
    SortUnique(a, b);
  }

  /** One sequence's brackets resolved, from `before` to `types`. */
  ghost predicate OneResolved(before: seq<BidiClass>, types: seq<BidiClass>, orig: seq<BidiClass>, levels: seq<Level>,
                              run: IsoRun, paragraph: seq<char>, lookup: BracketTable)
    requires |before| == |orig| == |levels| == |paragraph| && Bounded(levels, run.indices)
  {
    exists pairs: seq<Pair> ::
      && PairsOf(before, paragraph, lookup, run, pairs)
      && (forall k :: 0 <= k < |pairs| ==> pairs[k].openingPos < pairs[k].closingPos < |run.indices|)
      && PairsResolved(before, types, orig, levels, run, pairs)
  }

  lemma OneUnique(before: seq<BidiClass>, a: seq<BidiClass>, b: seq<BidiClass>, orig: seq<BidiClass>, levels: seq<Level>,
                  run: IsoRun, paragraph: seq<char>, lookup: BracketTable)
    requires |before| == |orig| == |levels| == |paragraph| && Bounded(levels, run.indices)
    requires OneResolved(before, a, orig, levels, run, paragraph, lookup) && OneResolved(before, b, orig, levels, run, paragraph, lookup)
    ensures a == b
  {
    hide PairsOf, PairsResolved;
    var p: seq<Pair> :| PairsOf(before, paragraph, lookup, run, p)
      && (forall k :: 0 <= k < |p| ==> p[k].openingPos < p[k].closingPos < |run.indices|)
      && PairsResolved(before, a, orig, levels, run, p);
    var q: seq<Pair> :| PairsOf(before, paragraph, lookup, run, q)
      && (forall k :: 0 <= k < |q| ==> q[k].openingPos < q[k].closingPos < |run.indices|)
      && PairsResolved(before, b, orig, levels, run, q);
    PairOrderUnique(before, paragraph, lookup, run, p, q);
    PairsUnique(before, a, b, orig, levels, run, p);
  }

  /** The step before, of the first n sequences resolved. */
  lemma LastResolved(start: seq<BidiClass>, types: seq<BidiClass>, orig: seq<BidiClass>, levels: seq<Level>,
                     isoRuns: seq<IsoRun>, paragraph: seq<char>, lookup: BracketTable, n: nat) returns (before: seq<BidiClass>)
    requires |start| == |orig| == |levels| == |paragraph| && 0 < n <= |isoRuns| && BoundedRuns(levels, isoRuns)
    requires BracketsResolved(start, types, orig, levels, isoRuns, paragraph, lookup, n)
    ensures |before| == |start| && BracketsResolved(start, before, orig, levels, isoRuns, paragraph, lookup, n - 1)
    ensures OneResolved(before, types, orig, levels, isoRuns[n - 1], paragraph, lookup)
    ensures Collect(Marks(before, paragraph, lookup, isoRuns[n - 1].indices), |isoRuns[n - 1].indices|).Some?
  {
    hide PairsResolved, Collect;
    var run := isoRuns[n - 1];
    var pairs: seq<Pair>;
    before, pairs :| BracketsResolved(start, before, orig, levels, isoRuns, paragraph, lookup, n - 1)
      && PairsOf(before, paragraph, lookup, run, pairs)
      && (forall k :: 0 <= k < |pairs| ==> pairs[k].openingPos < pairs[k].closingPos < |run.indices|)
      && PairsResolved(before, types, orig, levels, run, pairs);
  }

  lemma NoneResolved(start: seq<BidiClass>, types: seq<BidiClass>, orig: seq<BidiClass>, levels: seq<Level>,
                     isoRuns: seq<IsoRun>, paragraph: seq<char>, lookup: BracketTable)
    requires |start| == |orig| == |levels| == |paragraph| && BoundedRuns(levels, isoRuns)
    requires BracketsResolved(start, types, orig, levels, isoRuns, paragraph, lookup, 0)
    ensures types == start
  {
  }

  lemma {:induction false} BracketsUnique(start: seq<BidiClass>, a: seq<BidiClass>, b: seq<BidiClass>, orig: seq<BidiClass>, levels: seq<Level>,
                                          isoRuns: seq<IsoRun>, paragraph: seq<char>, lookup: BracketTable, n: nat)
    requires |start| == |orig| == |levels| == |paragraph| && n <= |isoRuns| && BoundedRuns(levels, isoRuns)
    requires BracketsResolved(start, a, orig, levels, isoRuns, paragraph, lookup, n)
    requires BracketsResolved(start, b, orig, levels, isoRuns, paragraph, lookup, n)
    ensures a == b
    decreases n
  {
    hide BracketsResolved, OneResolved, Collect;
    if n == 0 {
      NoneResolved(start, a, orig, levels, isoRuns, paragraph, lookup);
      NoneResolved(start, b, orig, levels, isoRuns, paragraph, lookup);
    } else {
      var a' := LastResolved(start, a, orig, levels, isoRuns, paragraph, lookup, n);
      var b' := LastResolved(start, b, orig, levels, isoRuns, paragraph, lookup, n);
      BracketsUnique(start, a', b', orig, levels, isoRuns, paragraph, lookup, n - 1);
      OneUnique(a', a, b, orig, levels, isoRuns[n - 1], paragraph, lookup);
    }
  }

  /** N0 does not stop before a sequence it has got past. */
  lemma {:induction false} GotPast(start: seq<BidiClass>, a: seq<BidiClass>, b: seq<BidiClass>, orig: seq<BidiClass>, levels: seq<Level>,
                                   isoRuns: seq<IsoRun>, paragraph: seq<char>, lookup: BracketTable, m: nat, n: nat)
    requires |start| == |orig| == |levels| == |paragraph| && m < n <= |isoRuns| && BoundedRuns(levels, isoRuns)
    requires |a| == |start|
    requires BracketsResolved(start, a, orig, levels, isoRuns, paragraph, lookup, m)
    requires BracketsResolved(start, b, orig, levels, isoRuns, paragraph, lookup, n)
    ensures Collect(Marks(a, paragraph, lookup, isoRuns[m].indices), |isoRuns[m].indices|).Some?
    decreases n
  {
    hide BracketsResolved, OneResolved, Collect;
    var b' := LastResolved(start, b, orig, levels, isoRuns, paragraph, lookup, n);
    if m == n - 1 { BracketsUnique(start, a, b', orig, levels, isoRuns, paragraph, lookup, m); }
    else { GotPast(start, a, b', orig, levels, isoRuns, paragraph, lookup, m, n - 1); }
  }

  /** N0 has one outcome. */
  lemma BracketRuleUnique(start: seq<BidiClass>, a: seq<BidiClass>, b: seq<BidiClass>, orig: seq<BidiClass>, levels: seq<Level>,
                          isoRuns: seq<IsoRun>, paragraph: seq<char>, lookup: BracketTable)
    requires |start| == |orig| == |levels| == |paragraph| && BoundedRuns(levels, isoRuns)
    requires N0(start, a, orig, levels, isoRuns, paragraph, lookup) && N0(start, b, orig, levels, isoRuns, paragraph, lookup)
    ensures a == b
  {
    hide BracketsResolved, Collect, Marks;
    var m: nat :| m <= |isoRuns| && BracketsResolved(start, a, orig, levels, isoRuns, paragraph, lookup, m)
      && (m < |isoRuns| ==> Collect(Marks(a, paragraph, lookup, isoRuns[m].indices), |isoRuns[m].indices|).None?);
    var n: nat :| n <= |isoRuns| && BracketsResolved(start, b, orig, levels, isoRuns, paragraph, lookup, n)
      && (n < |isoRuns| ==> Collect(Marks(b, paragraph, lookup, isoRuns[n].indices), |isoRuns[n].indices|).None?);
    if m < n { GotPast(start, a, b, orig, levels, isoRuns, paragraph, lookup, m, n); }
    if n < m { GotPast(start, b, a, orig, levels, isoRuns, paragraph, lookup, n, m); }
    BracketsUnique(start, a, b, orig, levels, isoRuns, paragraph, lookup, m);
  }

  // ----- The whole paragraph -----

  lemma Covered(classes: seq<BidiClass>, levels: seq<Level>, base: Level, runs: seq<Run>, isoRuns: seq<IsoRun>)
    requires Sequences(classes, levels, base, runs, isoRuns)
    ensures Covering(levels, isoRuns) && BoundedRuns(levels, isoRuns)
  {
    hide Tiling, TailRemoved, Partition, Finished;
    SequencesAreChains(classes, levels, runs, isoRuns);
  }

  /** One paragraph, base level and bracket table: one result. In particular a context
      that has resolved other paragraphs before gives what a new one gives. */
  lemma ResolvedUnique(types: seq<BidiClass>, base: Level, paragraph: seq<char>, lookup: BracketTable,
                       s1: Stages, c1: seq<BidiClass>, l1: seq<Level>, s2: Stages, c2: seq<BidiClass>, l2: seq<Level>)
    requires Resolved(types, base, paragraph, lookup, s1, c1, l1) && Resolved(types, base, paragraph, lookup, s2, c2, l2)
    ensures s1 == s2 && c1 == c2 && l1 == l2
  {
    hide Explained, Sequences, Live, Weakened, Neutralized, N0, LiveClasses, Covering, BoundedRuns, RemovedKept, ImplicitLevel;
    ExplainedUnique(types, base, s1.explicitClasses, s1.explicitLevels, s2.explicitClasses, s2.explicitLevels);
    var c, l := s1.explicitClasses, s1.explicitLevels;
    SequencesUnique(c, l, base, s1.runs, s1.isoRuns, s2.runs, s2.isoRuns);
    Covered(c, l, base, s1.runs, s1.isoRuns);
    ClassesUnique(c, s1.weak, s2.weak, l, s1.isoRuns);
    if paragraph != [] { BracketRuleUnique(s1.weak, s1.paired, s2.paired, types, l, s1.isoRuns, paragraph, lookup); }
    ClassesUnique(s1.paired, c1, c2, l, s1.isoRuns);
    assert l1 == l2;
  }
}
