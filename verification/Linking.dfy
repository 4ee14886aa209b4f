/** BD13: how the runs are gathered into isolating run sequences, exactly. */
module Linking {
  import opened Wrappers
  import opened BidiTypes
  import opened Runs

  /** Where the search for the run after the k-th member ends. */
  function Until(members: seq<nat>, k: nat, upTo: nat): nat {
    if k + 1 < |members| then members[k + 1] else upTo
  }

  /** Wherever a sequence passes over a run that could continue it, an earlier sequence
      had taken that run. */
  ghost predicate SkipsTaken(types: seq<BidiClass>, levels: seq<Level>, runs: seq<Run>, members: seq<nat>, s: nat, upTo: nat)
    requires InRange(types, levels, runs)
  {
    && upTo <= |runs|
    && (forall k :: 0 <= k < |members| ==> members[k] < |runs|)
    && (forall k, j :: 0 <= k < |members| && members[k] < j < Until(members, k, upTo) ==>
          Links(types, levels, runs[members[k]], runs[j]) ==> 0 < runs[j].seqId <= s)
  }

  /** The sequences are in the order of their first runs. */
  ghost predicate FirstsIncrease(isoRuns: seq<IsoRun>) {
    && (forall s :: 0 <= s < |isoRuns| ==> isoRuns[s].runs != [])
    && forall s, t :: 0 <= s < t < |isoRuns| ==> isoRuns[s].runs[0] < isoRuns[t].runs[0]
  }

  /** Every sequence goes on with the first run that can continue it and is free. */
  ghost predicate Greedy(types: seq<BidiClass>, levels: seq<Level>, runs: seq<Run>, isoRuns: seq<IsoRun>) {
    && InRange(types, levels, runs)
    && FirstsIncrease(isoRuns)
    && forall s :: 0 <= s < |isoRuns| ==> SkipsTaken(types, levels, runs, isoRuns[s].runs, s, |runs|)
  }

  /** Ids once given stay. */
  predicate KeepsIds(before: seq<Run>, after: seq<Run>) {
    && SameRuns(before, after)
    && forall r :: 0 <= r < |before| && before[r].seqId != 0 ==> after[r].seqId == before[r].seqId
  }

  lemma SkipsKept(types: seq<BidiClass>, levels: seq<Level>, before: seq<Run>, after: seq<Run>, members: seq<nat>, s: nat, upTo: nat)
    requires InRange(types, levels, before) && InRange(types, levels, after) && KeepsIds(before, after)
    requires SkipsTaken(types, levels, before, members, s, upTo)
    ensures SkipsTaken(types, levels, after, members, s, upTo)
  {
    hide FirstSignificant;
  }

  /** One more run passed over. */
  lemma SkipsOne(types: seq<BidiClass>, levels: seq<Level>, runs: seq<Run>, members: seq<nat>, s: nat, idx: nat)
    requires InRange(types, levels, runs) && idx < |runs| && members != []
    requires SkipsTaken(types, levels, runs, members, s, idx)
    requires Links(types, levels, runs[members[|members| - 1]], runs[idx]) ==> 0 < runs[idx].seqId <= s
    ensures SkipsTaken(types, levels, runs, members, s, idx + 1)
  {
    hide Links;
  }

  /** One more run taken. */
  lemma SkipsTake(types: seq<BidiClass>, levels: seq<Level>, runs: seq<Run>, members: seq<nat>, s: nat, idx: nat)
    requires InRange(types, levels, runs) && idx < |runs|
    requires SkipsTaken(types, levels, runs, members, s, idx)
    ensures SkipsTaken(types, levels, runs, members + [idx], s, idx + 1)
  {
    hide Links;
    var next := members + [idx];
    forall k | 0 <= k < |members| ensures Until(next, k, idx + 1) == Until(members, k, idx) {
    }
  }

  /** A run that does not end in an initiator is not continued. */
  lemma SkipsRest(types: seq<BidiClass>, levels: seq<Level>, runs: seq<Run>, members: seq<nat>, s: nat, idx: nat)
    requires InRange(types, levels, runs) && idx <= |runs| && members != []
    requires SkipsTaken(types, levels, runs, members, s, idx)
    requires !types[runs[members[|members| - 1]].end - 1].IsIsoInit()
    ensures SkipsTaken(types, levels, runs, members, s, |runs|)
  {
    hide FirstSignificant;
    forall k, j | 0 <= k < |members| && members[k] < j < Until(members, k, |runs|)
        && Links(types, levels, runs[members[k]], runs[j])
      ensures 0 < runs[j].seqId <= s
    {
      if k < |members| - 1 { assert Until(members, k, idx) == Until(members, k, |runs|); }
    }
  }

  lemma SkipsStart(types: seq<BidiClass>, levels: seq<Level>, runs: seq<Run>, r: nat, s: nat)
    requires InRange(types, levels, runs) && r < |runs|
    ensures SkipsTaken(types, levels, runs, [r], s, r + 1)
  {
  }

  /** A run that has an id before the last sequence gets one is in an earlier one. */
  lemma TakenEarlier(types: seq<BidiClass>, levels: seq<Level>, runs: seq<Run>, isoRuns: seq<IsoRun>, idx: nat)
    requires InRange(types, levels, runs) && Sequenced(types, levels, runs, isoRuns) && isoRuns != []
    requires idx < |runs| && runs[idx].seqId != 0
    requires var s := isoRuns[|isoRuns| - 1]; s.runs != [] && s.runs[|s.runs| - 1] < idx
    ensures 0 < runs[idx].seqId <= |isoRuns| - 1
  {
    hide FirstSignificant, Links;
    var s := isoRuns[|isoRuns| - 1];
    assert IsSequence(types, levels, runs, s);
    assert idx !in s.runs;
  }

  /** One more sequence. */
  lemma GreedyNext(types: seq<BidiClass>, levels: seq<Level>, before: seq<Run>, after: seq<Run>, seqs: seq<IsoRun>, isoRuns: seq<IsoRun>)
    requires Greedy(types, levels, before, seqs) && InRange(types, levels, after) && KeepsIds(before, after)
    requires |isoRuns| == |seqs| + 1 && isoRuns[..|seqs|] == seqs
    requires isoRuns[|seqs|].runs != []
    requires forall s :: 0 <= s < |seqs| ==> seqs[s].runs != [] && seqs[s].runs[0] < isoRuns[|seqs|].runs[0]
    requires SkipsTaken(types, levels, after, isoRuns[|seqs|].runs, |seqs|, |after|)
    ensures Greedy(types, levels, after, isoRuns)
  {
    hide SkipsTaken;
    assert forall s :: 0 <= s < |seqs| ==> isoRuns[s] == isoRuns[..|seqs|][s];
    forall s | 0 <= s < |isoRuns| ensures SkipsTaken(types, levels, after, isoRuns[s].runs, s, |after|) {
      if s < |seqs| { SkipsKept(types, levels, before, after, isoRuns[s].runs, s, |before|); }
    }
  }

  /** Only the members matter. */
  lemma GreedyKept(types: seq<BidiClass>, levels: seq<Level>, runs: seq<Run>, before: seq<IsoRun>, after: seq<IsoRun>)
    requires Greedy(types, levels, runs, before) && |before| == |after|
    requires forall s :: 0 <= s < |after| ==> after[s].runs == before[s].runs
    ensures Greedy(types, levels, runs, after)
  {
    hide SkipsTaken;
  }

  lemma GreedyStart(types: seq<BidiClass>, levels: seq<Level>, runs: seq<Run>)
    requires InRange(types, levels, runs)
    ensures Greedy(types, levels, runs, [])
  {
  }

  // ----- What a gathering is like -----

  /** The position of the first character of a run that was not removed. */
  function FirstLive(levels: seq<Level>, start: nat, end: nat): (m: Option<nat>)
    requires start <= end <= |levels|
    ensures m.Some? ==> start <= m.value < end && levels[m.value] != NO_LEVEL
    ensures m.Some? ==> forall i :: start <= i < m.value ==> levels[i] == NO_LEVEL
    ensures m.None? ==> forall i :: start <= i < end ==> levels[i] == NO_LEVEL
    decreases end - start
  {
    if start == end then None
    else if levels[start] != NO_LEVEL then Some(start)
    else FirstLive(levels, start + 1, end)
  }

  lemma {:induction false} SignificantIsLive(classes: seq<BidiClass>, levels: seq<Level>, start: nat, end: nat)
    requires start <= end <= |classes| == |levels|
    ensures var m := FirstLive(levels, start, end);
      FirstSignificant(classes, levels, start, end) == if m.Some? then Some(classes[m.value]) else None
    decreases end - start
  {
    if start < end && levels[start] == NO_LEVEL { SignificantIsLive(classes, levels, start + 1, end); }
  }

  /** The members of a sequence, in order, each linked to the next. */
  lemma MembersOf(classes: seq<BidiClass>, levels: seq<Level>, runs: seq<Run>, isoRuns: seq<IsoRun>, s: nat, k: nat)
    requires Partition(classes, levels, runs, isoRuns) && s < |isoRuns| && k < |isoRuns[s].runs|
    ensures InRange(classes, levels, runs)
    ensures forall i :: 0 <= i < |isoRuns[s].runs| ==> isoRuns[s].runs[i] < |runs|
    ensures runs[isoRuns[s].runs[k]].seqId == s + 1 && isoRuns[s].runs[0] <= isoRuns[s].runs[k]
    ensures k + 1 < |isoRuns[s].runs| ==> isoRuns[s].runs[k] < isoRuns[s].runs[k + 1]
    ensures k + 1 < |isoRuns[s].runs| ==> Links(classes, levels, runs[isoRuns[s].runs[k]], runs[isoRuns[s].runs[k + 1]])
  {
    hide FirstSignificant;
    assert IsSequence(classes, levels, runs, isoRuns[s]);
    hide Links;
  }

  lemma Home(classes: seq<BidiClass>, levels: seq<Level>, runs: seq<Run>, isoRuns: seq<IsoRun>, q: nat) returns (t: nat, i: nat)
    requires Partition(classes, levels, runs, isoRuns) && q < |runs|
    ensures t + 1 == runs[q].seqId && t < |isoRuns| && i < |isoRuns[t].runs| && isoRuns[t].runs[i] == q
  {
    hide IsSequence, InRange;
    t := runs[q].seqId - 1;
    i :| 0 <= i < |isoRuns[t].runs| && isoRuns[t].runs[i] == q;
  }

  lemma PassedOver(classes: seq<BidiClass>, levels: seq<Level>, runs: seq<Run>, isoRuns: seq<IsoRun>, s: nat, k: nat, q: nat)
    requires Greedy(classes, levels, runs, isoRuns)
    requires s < |isoRuns| && k < |isoRuns[s].runs| && isoRuns[s].runs[k] < q < Until(isoRuns[s].runs, k, |runs|)
    requires q < |runs| && Links(classes, levels, runs[isoRuns[s].runs[k]], runs[q])
    ensures 0 < runs[q].seqId <= s
  {
    hide Links, FirstsIncrease;
    assert SkipsTaken(classes, levels, runs, isoRuns[s].runs, s, |runs|);
  }

  lemma FirstBefore(classes: seq<BidiClass>, levels: seq<Level>, runs: seq<Run>, isoRuns: seq<IsoRun>, t: nat, s: nat)
    requires Greedy(classes, levels, runs, isoRuns) && t < s < |isoRuns|
    ensures isoRuns[t].runs != [] && isoRuns[s].runs != [] && isoRuns[t].runs[0] < isoRuns[s].runs[0]
  {
    hide SkipsTaken;
  }

  /** A run passed over follows another run in an earlier sequence. */
  lemma TakenBy(classes: seq<BidiClass>, levels: seq<Level>, runs: seq<Run>, isoRuns: seq<IsoRun>, s: nat, k: nat, q: nat) returns (t: nat, i: nat)
    requires Partition(classes, levels, runs, isoRuns) && Greedy(classes, levels, runs, isoRuns)
    requires s < |isoRuns| && k < |isoRuns[s].runs| && isoRuns[s].runs[k] < q < |runs|
    requires InRange(classes, levels, runs) && Links(classes, levels, runs[isoRuns[s].runs[k]], runs[q])
    requires q < Until(isoRuns[s].runs, k, |runs|)
    ensures t < s && 0 < i < |isoRuns[t].runs| && isoRuns[t].runs[i] == q
    ensures isoRuns[t].runs[i - 1] < q && Links(classes, levels, runs[isoRuns[t].runs[i - 1]], runs[q])
    ensures isoRuns[t].runs[i - 1] != isoRuns[s].runs[k]
  {
    hide Partition, Greedy, Links;
    PassedOver(classes, levels, runs, isoRuns, s, k, q);
    t, i := Home(classes, levels, runs, isoRuns, q);
    FirstBefore(classes, levels, runs, isoRuns, t, s);
    MembersOf(classes, levels, runs, isoRuns, s, k);
    MembersOf(classes, levels, runs, isoRuns, t, i - 1);
  }
}
