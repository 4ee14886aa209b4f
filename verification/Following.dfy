/** BD13: whether the gathering of runs follows it. It does exactly unless an isolate that
    overflows is astray. */
module Following {
  import opened Wrappers
  import opened BidiTypes
  import opened LevelStack
  import opened Explicit
  import opened Runs
  import opened Linking
  import opened Matching

  /** What the gathering of the runs starts from and comes to. */
  ghost predicate Gathered(types: seq<BidiClass>, base: Level, classes: seq<BidiClass>, levels: seq<Level>, runs: seq<Run>, isoRuns: seq<IsoRun>) {
    && Cut(types, base, classes, levels, runs)
    && Partition(classes, levels, runs, isoRuns) && Greedy(classes, levels, runs, isoRuns)
  }

  /** A paragraph in which no push is ignored, cut into level runs. */
  ghost predicate Cut(types: seq<BidiClass>, base: Level, classes: seq<BidiClass>, levels: seq<Level>, runs: seq<Run>) {
    && |types| == |classes| == |levels|
    && Unhindered(types, base) && Explained(types, base, classes, levels)
    && Tiling(classes, levels, runs) && TailRemoved(levels, runs) && InRange(classes, levels, runs)
  }

  /** What BD13 asks for the k-th run of a sequence: if that ends in an initiator with a
      matching PDI, the next run starts with the PDI; otherwise it is the last. */
  ghost predicate NextIsRight(types: seq<BidiClass>, classes: seq<BidiClass>, levels: seq<Level>, runs: seq<Run>, members: seq<nat>, k: nat)
    requires |types| == |classes| && InRange(classes, levels, runs)
  {
    && k < |members| && (forall i :: 0 <= i < |members| ==> members[i] < |runs|)
    && var e := runs[members[k]].end - 1;
       if classes[e].IsIsoInit() && MatchOf(types, e).Some? then
         && k + 1 < |members|
         && FirstLive(levels, runs[members[k + 1]].start, runs[members[k + 1]].end) == MatchOf(types, e)
       else k + 1 == |members|
  }

  ghost predicate FollowsBd13(types: seq<BidiClass>, classes: seq<BidiClass>, levels: seq<Level>, runs: seq<Run>, isoRuns: seq<IsoRun>)
    requires |types| == |classes| && InRange(classes, levels, runs)
  {
    forall s, k :: 0 <= s < |isoRuns| && 0 <= k < |isoRuns[s].runs| ==>
      NextIsRight(types, classes, levels, runs, isoRuns[s].runs, k)
  }

  /** An isolate that overflows, is not overridden, and either has a character left
      between itself and its matching PDI, or has no matching PDI although a later
      initiator is directly followed by its own. */
  ghost predicate Astray(types: seq<BidiClass>, base: Level, e: nat)
    requires e < |types| && 0 <= base <= 1
  {
    && Overflowed(types, base, e)
    && StateAt(types, base, e).Some? && Top(StateAt(types, base, e).value).overriding == Neutral
    && match MatchOf(types, e)
       case Some(j) => !Adjacent(types, e, j)
       case None => exists x :: e < x < |types| && ClosedAtOnce(types, x)
  }

  /** An initiator directly followed, removed characters aside, by its PDI. */
  predicate ClosedAtOnce(types: seq<BidiClass>, x: nat)
    requires x < |types|
  {
    types[x].IsIsoInit() && MatchOf(types, x).Some? && Adjacent(types, x, MatchOf(types, x).value)
  }

  ghost predicate NoneAstray(types: seq<BidiClass>, base: Level)
    requires 0 <= base <= 1
  {
    forall e :: 0 <= e < |types| ==> !Astray(types, base, e)
  }

  // ----- Characters and runs -----

  /** A character that is left has a level, the others none; an initiator or PDI that is
      not overridden came as one. */
  lemma CharacterOf(types: seq<BidiClass>, base: Level, classes: seq<BidiClass>, levels: seq<Level>, e: nat)
    requires Explained(types, base, classes, levels) && e < |classes|
    ensures |types| == |classes| == |levels| && 0 <= base <= 1
    ensures levels[e] == NO_LEVEL <==> types[e].IsFormat()
    ensures classes[e].IsIsoInit() || classes[e] == PopDirectionalIsolate ==> types[e] == classes[e] && levels[e] != NO_LEVEL
  {
    hide RunTo, ClassAt, LevelAt;
    assert ExplainedAt(types, base, e, classes[e], levels[e]);
    ClassFrom(types, base, e);
  }

  lemma ClassFrom(types: seq<BidiClass>, base: Level, i: nat)
    requires i < |types| && 0 <= base <= 1 && RunTo(types, base, SOURCE_CAPACITY, i + 1).Some?
    ensures ClassAt(types, base, i) == types[i] || ClassAt(types, base, i) in {LeftToRight, RightToLeft}
    ensures LevelAt(types, base, i) == NO_LEVEL <==> types[i].IsFormat()
  {
    hide RunTo;
  }

  /** An initiator keeps its class exactly if nothing overrides it. */
  lemma NotOverridden(types: seq<BidiClass>, base: Level, classes: seq<BidiClass>, levels: seq<Level>, e: nat)
    requires Explained(types, base, classes, levels) && e < |types| && types[e].IsIsoInit()
    ensures StateAt(types, base, e).Some?
    ensures classes[e].IsIsoInit() <==> Top(StateAt(types, base, e).value).overriding == Neutral
  {
    hide RunTo, Explained, StateAt;
    LevelInStates(types, base, classes, levels, e);
  }

  lemma OnlyLastSeparates(types: seq<BidiClass>, base: Level, m: nat)
    requires Unhindered(types, base) && m < |types| - 1
    ensures types[m] != ParagraphSeparator
  {
  }

  /** The last character that is left before a position. */
  lemma LastLive(levels: seq<Level>, e: nat, m: nat) returns (c: nat)
    requires e < m <= |levels| && levels[e] != NO_LEVEL
    ensures e <= c < m && levels[c] != NO_LEVEL && forall i :: c < i < m ==> levels[i] == NO_LEVEL
  {
    c := m - 1;
    while levels[c] == NO_LEVEL
      invariant e <= c < m && forall i :: c < i < m ==> levels[i] == NO_LEVEL
      decreases c
    {
      c := c - 1;
    }
  }

  lemma CutFacts(types: seq<BidiClass>, base: Level, classes: seq<BidiClass>, levels: seq<Level>, runs: seq<Run>, r: nat)
    requires Cut(types, base, classes, levels, runs) && r < |runs|
    ensures 0 <= base <= 1 && |types| == |classes| == |levels| && InRange(classes, levels, runs)
    ensures IsSpan(classes, levels, runs[r].start, runs[r].end, runs[r].level) && runs[r].level != NO_LEVEL
    ensures Unhindered(types, base) && Explained(types, base, classes, levels) && NoneIgnored(types, base)
    ensures forall i :: 0 <= i < |levels| ==> (levels[i] == NO_LEVEL <==> types[i].IsFormat())
  {
    hide Explained, IsSpan, TailRemoved, NoFullPush;
    forall i | 0 <= i < |levels| ensures levels[i] == NO_LEVEL <==> types[i].IsFormat() {
      CharacterOf(types, base, classes, levels, i);
    }
  }

  /** The run of a character, and nothing of another run, lies around it. */
  lemma RunOf(types: seq<BidiClass>, base: Level, classes: seq<BidiClass>, levels: seq<Level>, runs: seq<Run>, i: nat) returns (r: nat)
    requires Cut(types, base, classes, levels, runs) && i < |levels| && levels[i] != NO_LEVEL
    ensures r < |runs| && runs[r].start <= i < runs[r].end <= |levels| && runs[r].level == levels[i]
  {
    hide Unhindered, Explained, IsSpan;
    BeforeRunsEnd(levels, runs, i);
    r := RunHolding(classes, levels, runs, i);
    CutFacts(types, base, classes, levels, runs, r);
    SpanLevelAt(classes, levels, runs[r].start, runs[r].end, runs[r].level, i);
  }

  lemma BeforeRunsEnd(levels: seq<Level>, runs: seq<Run>, j: nat)
    requires TailRemoved(levels, runs) && j < |levels| && levels[j] != NO_LEVEL
    ensures j < RunsEnd(runs)
  {
  }

  lemma SpanLevelAt(classes: seq<BidiClass>, levels: seq<Level>, start: nat, end: nat, level: Level, i: nat)
    requires IsSpan(classes, levels, start, end, level) && start <= i < end
    ensures end <= |classes| == |levels| && (levels[i] == NO_LEVEL || levels[i] == level)
    ensures i < end - 1 && classes[i].IsIsoInit() ==> levels[i] == NO_LEVEL
  {
  }

  /** Runs keep the order of their characters. */
  lemma RunsInOrder(types: seq<BidiClass>, base: Level, classes: seq<BidiClass>, levels: seq<Level>, runs: seq<Run>, a: nat, i: nat, b: nat, j: nat)
    requires Cut(types, base, classes, levels, runs) && a < |runs| && b < |runs|
    requires runs[a].start <= i < runs[a].end && runs[b].start <= j < runs[b].end
    ensures a < b ==> i < j && runs[a].end <= runs[b].start
    ensures i < j ==> a <= b
  {
    hide Unhindered, Explained, Tiling, TailRemoved;
    if a < b { TilingOrder(classes, levels, runs, a, b); }
    if b < a { TilingOrder(classes, levels, runs, b, a); }
  }

  /** A run that ends in an initiator. */
  lemma RunInitiator(types: seq<BidiClass>, base: Level, classes: seq<BidiClass>, levels: seq<Level>, runs: seq<Run>, r: nat)
    requires Cut(types, base, classes, levels, runs) && r < |runs| && classes[runs[r].end - 1].IsIsoInit()
    ensures var e := runs[r].end - 1;
      && runs[r].start <= e < |types| == |classes| == |levels| && types[e] == classes[e] && levels[e] == runs[r].level != NO_LEVEL
  {
    hide Cut, InRange, Explained, Unhindered, NoneIgnored, IsSpan;
    RunFits(types, base, classes, levels, runs, r);
    CutFacts(types, base, classes, levels, runs, r);
    CharacterOf(types, base, classes, levels, runs[r].end - 1);
    SpanLevelAt(classes, levels, runs[r].start, runs[r].end, runs[r].level, runs[r].end - 1);
  }

  lemma RunFits(types: seq<BidiClass>, base: Level, classes: seq<BidiClass>, levels: seq<Level>, runs: seq<Run>, r: nat)
    requires Cut(types, base, classes, levels, runs) && r < |runs|
    ensures runs[r].start < runs[r].end <= |types| == |classes| == |levels|
  {
    hide Explained, Unhindered, Tiling, TailRemoved;
  }

  /** An initiator ends its run. */
  lemma InitiatorEnds(types: seq<BidiClass>, base: Level, classes: seq<BidiClass>, levels: seq<Level>, runs: seq<Run>, e: nat) returns (r: nat)
    requires Cut(types, base, classes, levels, runs) && e < |classes| && classes[e].IsIsoInit()
    ensures r < |runs| && runs[r].start <= e == runs[r].end - 1 && runs[r].level == levels[e] != NO_LEVEL
  {
    hide Unhindered, Explained, Tiling, TailRemoved, IsSpan;
    CutExplained(types, base, classes, levels, runs);
    CharacterOf(types, base, classes, levels, e);
    r := RunOf(types, base, classes, levels, runs, e);
    CutFacts(types, base, classes, levels, runs, r);
    SpanLevelAt(classes, levels, runs[r].start, runs[r].end, runs[r].level, e);
  }

  lemma CutExplained(types: seq<BidiClass>, base: Level, classes: seq<BidiClass>, levels: seq<Level>, runs: seq<Run>)
    requires Cut(types, base, classes, levels, runs)
    ensures |types| == |classes| == |levels| && Explained(types, base, classes, levels) && Unhindered(types, base)
    ensures Tiling(classes, levels, runs) && TailRemoved(levels, runs) && InRange(classes, levels, runs)
    ensures 0 <= base <= 1 && NoneIgnored(types, base)
  {
    hide Explained, Tiling, TailRemoved, InRange, NoFullPush;
  }

  lemma FirstLiveIs(levels: seq<Level>, start: nat, end: nat, m: nat)
    requires start <= m < end <= |levels| && levels[m] != NO_LEVEL && forall i :: start <= i < m ==> levels[i] == NO_LEVEL
    ensures FirstLive(levels, start, end) == Some(m)
  {
    var f := FirstLive(levels, start, end);
  }

  /** Two neighbours at one level are only parted by an initiator. */
  lemma PartedByInitiator(types: seq<BidiClass>, base: Level, classes: seq<BidiClass>, levels: seq<Level>, runs: seq<Run>, c: nat, y: nat, m: nat)
    requires Cut(types, base, classes, levels, runs) && y < |runs| && runs[y].start <= c < runs[y].end <= m < |levels|
    requires levels[c] == levels[m] != NO_LEVEL && forall i :: c < i < m ==> levels[i] == NO_LEVEL
    ensures runs[y].end == c + 1 && classes[c].IsIsoInit()
  {
    hide Unhindered, Explained, Tiling, TailRemoved;
    CutFacts(types, base, classes, levels, runs, y);
    assert IsSpan(classes, levels, runs[y].start, runs[y].end, runs[y].level);
    assert levels[c] == runs[y].level;
  }

  // ----- Where nothing is astray -----

  /** The first characters of linked runs: the second run begins with a PDI of the level of
      the initiator that the first one ends in. */
  lemma LinkedCharacters(types: seq<BidiClass>, base: Level, classes: seq<BidiClass>, levels: seq<Level>, runs: seq<Run>, r: nat, x: nat) returns (m: nat)
    requires Cut(types, base, classes, levels, runs) && r < x < |runs| && Links(classes, levels, runs[r], runs[x])
    ensures FirstLive(levels, runs[x].start, runs[x].end) == Some(m)
    ensures runs[r].end <= runs[x].start <= m < runs[x].end <= |types| == |classes| == |levels|
    ensures types[m] == classes[m] == PopDirectionalIsolate && levels[m] == levels[runs[r].end - 1] != NO_LEVEL
    ensures types[runs[r].end - 1] == classes[runs[r].end - 1]
  {
    hide Unhindered, Explained, Tiling, TailRemoved, FirstSignificant, IsSpan;
    RunInitiator(types, base, classes, levels, runs, r);
    CutExplained(types, base, classes, levels, runs);
    TilingOrder(classes, levels, runs, r, x);
    SignificantIsLive(classes, levels, runs[x].start, runs[x].end);
    m := FirstLive(levels, runs[x].start, runs[x].end).value;
    CutFacts(types, base, classes, levels, runs, x);
    SpanLevelAt(classes, levels, runs[x].start, runs[x].end, runs[x].level, m);
    CharacterOf(types, base, classes, levels, m);
  }

  /** A PDI that begins a run inside an isolate that overflows, or at its end, directly
      follows its initiator. */
  lemma BeginsAtOnce(types: seq<BidiClass>, base: Level, classes: seq<BidiClass>, levels: seq<Level>, runs: seq<Run>, e: nat, x: nat, m: nat) returns (c: nat)
    requires Cut(types, base, classes, levels, runs) && x < |runs| && e < m < |types| && types[e].IsIsoInit() && classes[e].IsIsoInit()
    requires FirstLive(levels, runs[x].start, runs[x].end) == Some(m) && types[m] == PopDirectionalIsolate && levels[m] == levels[e]
    requires Overflowed(types, base, e) && (MatchOf(types, e).Some? ==> m <= MatchOf(types, e).value)
    ensures e <= c < m && types[c].IsIsoInit() && MatchOf(types, c) == Some(m) && Adjacent(types, c, m)
    ensures ClosedAtOnce(types, c)
  {
    hide Unhindered, Explained, Tiling, TailRemoved, IsSpan, Overflowed, MatchOf, NoneIgnored, FirstLive;
    CutExplained(types, base, classes, levels, runs);
    CharacterOf(types, base, classes, levels, e);
    CharacterOf(types, base, classes, levels, m);
    c := LastLive(levels, e, m);
    CutFacts(types, base, classes, levels, runs, x);
    if c > e {
      OnlyLastSeparates(types, base, c);
      AsDeep(types, base, classes, levels, e, c);
    }
    var y := RunOf(types, base, classes, levels, runs, c);
    RunsInOrder(types, base, classes, levels, runs, y, c, x, m);
    NotFirst(levels, runs[x].start, runs[x].end, m, c);
    PartedByInitiator(types, base, classes, levels, runs, c, y, m);
    CharacterOf(types, base, classes, levels, c);
    AdjacentMatches(types, c, m);
  }

  lemma NotFirst(levels: seq<Level>, start: nat, end: nat, m: nat, c: nat)
    requires start <= end <= |levels| && FirstLive(levels, start, end) == Some(m) && c < m && levels[c] != NO_LEVEL
    ensures c < start <= m < end
  {
  }

  /** A run that could continue run `r` starts no earlier than the matching PDI. */
  lemma LinksNoEarlier(types: seq<BidiClass>, base: Level, classes: seq<BidiClass>, levels: seq<Level>, runs: seq<Run>, r: nat, x: nat)
    requires Cut(types, base, classes, levels, runs) && NoneAstray(types, base)
    requires r < x < |runs| && Links(classes, levels, runs[r], runs[x])
    ensures 0 < runs[r].end <= |types|
    ensures var j := MatchOf(types, runs[r].end - 1); j.Some? && j.value < runs[x].end
  {
    hide Unhindered, Explained, Tiling, TailRemoved, IsSpan, Overflowed, MatchOf, NoneIgnored, FirstLive, Links, StateAt;
    CutExplained(types, base, classes, levels, runs);
    var m := LinkedCharacters(types, base, classes, levels, runs, r, x);
    var e := runs[r].end - 1;
    LinkEnds(classes, levels, runs, r, x);
    NotOverridden(types, base, classes, levels, e);
    assert !Astray(types, base, e);
    if MatchOf(types, e).None? || m < MatchOf(types, e).value {
      if !Overflowed(types, base, e) {
        Deeper(types, base, classes, levels, e, m);
      } else {
        var c := BeginsAtOnce(types, base, classes, levels, runs, e, x, m);
      }
    }
  }

  lemma LinkEnds(classes: seq<BidiClass>, levels: seq<Level>, runs: seq<Run>, r: nat, x: nat)
    requires InRange(classes, levels, runs) && r < |runs| && x < |runs| && Links(classes, levels, runs[r], runs[x])
    ensures classes[runs[r].end - 1].IsIsoInit()
  {
  }

  /** The run of the matching PDI starts with it. */
  lemma MatchIsFirst(types: seq<BidiClass>, base: Level, classes: seq<BidiClass>, levels: seq<Level>, runs: seq<Run>, e: nat, q: nat)
    requires Cut(types, base, classes, levels, runs) && NoneAstray(types, base)
    requires e < |types| && types[e].IsIsoInit() && classes[e].IsIsoInit() && MatchOf(types, e).Some?
    requires q < |runs| && e < runs[q].start <= MatchOf(types, e).value < runs[q].end
    ensures FirstLive(levels, runs[q].start, runs[q].end) == MatchOf(types, e)
  {
    hide Unhindered, Explained, Tiling, TailRemoved, IsSpan, Overflowed, MatchOf, NoneIgnored, FirstLive, StateAt;
    CutExplained(types, base, classes, levels, runs);
    CutFacts(types, base, classes, levels, runs, q);
    MatchLevel(types, base, classes, levels, e);
    NotOverridden(types, base, classes, levels, e);
    assert !Astray(types, base, e);
    var j := MatchOf(types, e).value;
    SpanLevelAt(classes, levels, runs[q].start, runs[q].end, runs[q].level, j);
    forall i | runs[q].start <= i < j ensures levels[i] == NO_LEVEL {
      SpanLevelAt(classes, levels, runs[q].start, runs[q].end, runs[q].level, i);
      if !Overflowed(types, base, e) {
        OnlyLastSeparates(types, base, i);
        Deeper(types, base, classes, levels, e, i);
      } else {
        assert types[i].IsFormat();
      }
    }
    FirstLiveIs(levels, runs[q].start, runs[q].end, j);
  }

  /** The run of the matching PDI could continue run `r`. */
  lemma MatchLinks(types: seq<BidiClass>, base: Level, classes: seq<BidiClass>, levels: seq<Level>, runs: seq<Run>, r: nat) returns (q: nat)
    requires Cut(types, base, classes, levels, runs) && NoneAstray(types, base)
    requires r < |runs| && 0 < runs[r].end <= |types| == |classes|
    requires classes[runs[r].end - 1].IsIsoInit() && MatchOf(types, runs[r].end - 1).Some?
    ensures InRange(classes, levels, runs) && r < q < |runs| && Links(classes, levels, runs[r], runs[q])
    ensures FirstLive(levels, runs[q].start, runs[q].end) == MatchOf(types, runs[r].end - 1)
  {
    hide Unhindered, Explained, Tiling, TailRemoved, IsSpan, MatchOf, NoneIgnored, FirstLive, FirstSignificant, NoneAstray;
    CutExplained(types, base, classes, levels, runs);
    RunInitiator(types, base, classes, levels, runs, r);
    var e, j := runs[r].end - 1, MatchOf(types, runs[r].end - 1).value;
    MatchLevel(types, base, classes, levels, e);
    q := RunOf(types, base, classes, levels, runs, j);
    RunsInOrder(types, base, classes, levels, runs, r, e, q, j);
    MatchIsFirst(types, base, classes, levels, runs, e, q);
    SignificantIsLive(classes, levels, runs[q].start, runs[q].end);
  }

  /** In the s-th sequence the k-th run is followed as BD13 asks. */
  lemma {:induction false} NextIsMatch(types: seq<BidiClass>, base: Level, classes: seq<BidiClass>, levels: seq<Level>,
                                       runs: seq<Run>, isoRuns: seq<IsoRun>, s: nat, k: nat)
    requires Gathered(types, base, classes, levels, runs, isoRuns) && NoneAstray(types, base)
    requires s < |isoRuns| && k < |isoRuns[s].runs|
    ensures InRange(classes, levels, runs) && |types| == |classes|
    ensures NextIsRight(types, classes, levels, runs, isoRuns[s].runs, k)
    decreases s, 1
  {
    hide Cut, Partition, Greedy, NoneAstray, MatchOf, FirstLive, Links;
    CutSizes(types, base, classes, levels, runs);
    MembersOf(classes, levels, runs, isoRuns, s, k);
    var members := isoRuns[s].runs;
    var r := members[k];
    var e := runs[r].end - 1;
    if k + 1 < |members| {
      LinksNoEarlier(types, base, classes, levels, runs, r, members[k + 1]);
      LinkEnds(classes, levels, runs, r, members[k + 1]);
    }
    if classes[e].IsIsoInit() && MatchOf(types, e).Some? {
      var q := MatchLinks(types, base, classes, levels, runs, r);
      NextIsFree(types, base, classes, levels, runs, isoRuns, s, k, q);
    }
  }

  lemma CutSizes(types: seq<BidiClass>, base: Level, classes: seq<BidiClass>, levels: seq<Level>, runs: seq<Run>)
    requires Cut(types, base, classes, levels, runs)
    ensures 0 <= base <= 1 && |types| == |classes| == |levels| && InRange(classes, levels, runs)
  {
    hide NoFullPush, Explained;
  }

  /** No earlier sequence had taken the run of the matching PDI. */
  lemma {:induction false} NextIsFree(types: seq<BidiClass>, base: Level, classes: seq<BidiClass>, levels: seq<Level>,
                                      runs: seq<Run>, isoRuns: seq<IsoRun>, s: nat, k: nat, q: nat)
    requires Gathered(types, base, classes, levels, runs, isoRuns) && NoneAstray(types, base)
    requires s < |isoRuns| && k < |isoRuns[s].runs| && isoRuns[s].runs[k] < q < |runs|
    requires InRange(classes, levels, runs) && |types| == |classes|
    requires Links(classes, levels, runs[isoRuns[s].runs[k]], runs[q])
    requires MatchOf(types, runs[isoRuns[s].runs[k]].end - 1).Some?
    requires FirstLive(levels, runs[q].start, runs[q].end) == MatchOf(types, runs[isoRuns[s].runs[k]].end - 1)
    ensures k + 1 < |isoRuns[s].runs| && isoRuns[s].runs[k + 1] == q
    decreases s, 0
  {
    hide Cut, Partition, Greedy, NoneAstray, MatchOf, FirstLive, Links;
    CutSizes(types, base, classes, levels, runs);
    MembersOf(classes, levels, runs, isoRuns, s, k);
    var members := isoRuns[s].runs;
    var r := members[k];
    if k + 1 < |members| && members[k + 1] < q {
      LinksNoEarlier(types, base, classes, levels, runs, r, members[k + 1]);
      FirstLiveInside(types, base, classes, levels, runs, members[k + 1], q);
    }
    if q < Until(members, k, |runs|) {
      var t, i := TakenBy(classes, levels, runs, isoRuns, s, k, q);
      NextIsMatch(types, base, classes, levels, runs, isoRuns, t, i - 1);
      LinkEnds(classes, levels, runs, r, q);
      OnePredecessor(types, base, classes, levels, runs, isoRuns[t].runs[i - 1], r, q);
    }
  }

  lemma FirstLiveInside(types: seq<BidiClass>, base: Level, classes: seq<BidiClass>, levels: seq<Level>, runs: seq<Run>, x: nat, q: nat)
    requires Cut(types, base, classes, levels, runs) && x < q < |runs|
    ensures InRange(classes, levels, runs)
    ensures var m := FirstLive(levels, runs[q].start, runs[q].end); m.Some? ==> runs[x].end <= m.value
  {
    hide Unhindered, Explained, Tiling, TailRemoved, FirstLive;
    TilingOrder(classes, levels, runs, x, q);
  }

  /** A run begins with the match of one initiator. */
  lemma OnePredecessor(types: seq<BidiClass>, base: Level, classes: seq<BidiClass>, levels: seq<Level>, runs: seq<Run>, p: nat, r: nat, q: nat)
    requires Cut(types, base, classes, levels, runs) && p < |runs| && r < |runs|
    requires InRange(classes, levels, runs) && |types| == |classes|
    requires classes[runs[p].end - 1].IsIsoInit() && classes[runs[r].end - 1].IsIsoInit()
    requires MatchOf(types, runs[p].end - 1) == MatchOf(types, runs[r].end - 1) && MatchOf(types, runs[p].end - 1).Some?
    ensures p == r
  {
    hide Unhindered, Explained, Tiling, TailRemoved, MatchOf;
    RunInitiator(types, base, classes, levels, runs, p);
    RunInitiator(types, base, classes, levels, runs, r);
    MatchInjective(types, runs[p].end - 1, runs[r].end - 1);
    if p < r { TilingOrder(classes, levels, runs, p, r); }
    if r < p { TilingOrder(classes, levels, runs, r, p); }
  }

  // ----- Where something is astray -----

  /** Then the gathering does not follow BD13: a matching PDI that does not directly follow
      begins no run. */
  lemma MatchedAstray(types: seq<BidiClass>, base: Level, classes: seq<BidiClass>, levels: seq<Level>, runs: seq<Run>, e: nat, q: nat)
    requires Cut(types, base, classes, levels, runs) && q < |runs|
    requires e < |types| == |classes| && classes[e].IsIsoInit() && types[e].IsIsoInit() && Overflowed(types, base, e)
    requires MatchOf(types, e).Some? && !Adjacent(types, e, MatchOf(types, e).value)
    ensures InRange(classes, levels, runs)
    ensures FirstLive(levels, runs[q].start, runs[q].end) != MatchOf(types, e)
  {
    hide Unhindered, Explained, Tiling, TailRemoved, Overflowed, MatchOf, NoneIgnored, FirstLive;
    CutExplained(types, base, classes, levels, runs);
    if FirstLive(levels, runs[q].start, runs[q].end) == MatchOf(types, e) {
      MatchLevel(types, base, classes, levels, e);
      var c := BeginsAtOnce(types, base, classes, levels, runs, e, q, MatchOf(types, e).value);
      MatchInjective(types, e, c);
    }
  }

  /** And an initiator without a match is followed by a run although it should be last. */
  lemma UnmatchedAstray(types: seq<BidiClass>, base: Level, classes: seq<BidiClass>, levels: seq<Level>, runs: seq<Run>, r: nat, x: nat) returns (q: nat)
    requires Cut(types, base, classes, levels, runs) && r < |runs|
    requires |types| == |classes| && 0 < runs[r].end <= |types| && classes[runs[r].end - 1].IsIsoInit()
    requires Overflowed(types, base, runs[r].end - 1) && MatchOf(types, runs[r].end - 1).None?
    requires runs[r].end <= x < |types| && ClosedAtOnce(types, x)
    ensures InRange(classes, levels, runs) && r < q < |runs| && Links(classes, levels, runs[r], runs[q])
  {
    hide Unhindered, Explained, Tiling, TailRemoved, Overflowed, MatchOf, NoneIgnored, FirstLive, IsSpan, FirstSignificant;
    CutExplained(types, base, classes, levels, runs);
    RunInitiator(types, base, classes, levels, runs, r);
    var e, j := runs[r].end - 1, MatchOf(types, x).value;
    CutFacts(types, base, classes, levels, runs, r);
    AsDeep(types, base, classes, levels, e, x);
    AsDeep(types, base, classes, levels, e, j);
    var y := InitiatorEnds(types, base, classes, levels, runs, x);
    q := RunOf(types, base, classes, levels, runs, j);
    RunsInOrder(types, base, classes, levels, runs, y, x, q, j);
    RunsInOrder(types, base, classes, levels, runs, r, e, q, j);
    FirstLiveIs(levels, runs[q].start, runs[q].end, j);
    SignificantIsLive(classes, levels, runs[q].start, runs[q].end);
  }

  /** Two members of an increasing list around a number that is not in it. */
  lemma Straddle(members: seq<nat>, i: nat, r: nat) returns (k: nat)
    requires Increasing(members) && i < |members| && members[0] < r < members[i] && r !in members
    ensures k + 1 < |members| && members[k] < r < members[k + 1]
  {
    k := i - 1;
    while members[k] > r
      invariant k + 1 < |members| && r < members[k + 1]
      decreases k
    {
      k := k - 1;
    }
  }

  /** A sequence that passes over the run of an initiator without a match does not follow
      BD13 either: it goes on from an initiator before to a PDI behind. */
  lemma PassedUnmatched(types: seq<BidiClass>, base: Level, classes: seq<BidiClass>, levels: seq<Level>,
                        runs: seq<Run>, isoRuns: seq<IsoRun>, t: nat, k: nat, r: nat)
    requires Gathered(types, base, classes, levels, runs, isoRuns) && t < |isoRuns| && k + 1 < |isoRuns[t].runs|
    requires |types| == |classes| && InRange(classes, levels, runs)
    requires r < |runs| && isoRuns[t].runs[k] < r < isoRuns[t].runs[k + 1] < |runs|
    requires classes[runs[r].end - 1].IsIsoInit() && MatchOf(types, runs[r].end - 1).None?
    ensures !NextIsRight(types, classes, levels, runs, isoRuns[t].runs, k)
  {
    hide Cut, Partition, Greedy, MatchOf, FirstLive, Links;
    MembersOf(classes, levels, runs, isoRuns, t, k);
    var p, q := isoRuns[t].runs[k], isoRuns[t].runs[k + 1];
    if NextIsRight(types, classes, levels, runs, isoRuns[t].runs, k) {
      RunInitiator(types, base, classes, levels, runs, p);
      RunInitiator(types, base, classes, levels, runs, r);
      FirstLiveInside(types, base, classes, levels, runs, r, q);
      EndsInOrder(types, base, classes, levels, runs, p, r);
      ClosedInside(types, runs[p].end - 1, runs[r].end - 1);
    }
  }

  lemma EndsInOrder(types: seq<BidiClass>, base: Level, classes: seq<BidiClass>, levels: seq<Level>, runs: seq<Run>, p: nat, r: nat)
    requires Cut(types, base, classes, levels, runs) && p < r < |runs|
    ensures runs[p].end < runs[r].end
  {
    hide Unhindered, Explained, TailRemoved;
    TilingOrder(classes, levels, runs, p, r);
  }

  lemma MembersIncrease(classes: seq<BidiClass>, levels: seq<Level>, runs: seq<Run>, isoRuns: seq<IsoRun>, t: nat, r: nat)
    requires Partition(classes, levels, runs, isoRuns) && t < |isoRuns| && r < |runs| && runs[r].seqId != t + 1
    ensures Increasing(isoRuns[t].runs) && r !in isoRuns[t].runs
  {
    hide Links, TotalLen;
    assert IsSequence(classes, levels, runs, isoRuns[t]);
  }

  lemma AstrayKinds(types: seq<BidiClass>, base: Level, e: nat)
    requires 0 <= base <= 1 && e < |types| && Astray(types, base, e)
    ensures types[e].IsIsoInit() && Overflowed(types, base, e)
    ensures StateAt(types, base, e).Some? && Top(StateAt(types, base, e).value).overriding == Neutral
    ensures MatchOf(types, e).Some? ==> !Adjacent(types, e, MatchOf(types, e).value)
    ensures MatchOf(types, e).None? ==> exists x :: e < x < |types| && ClosedAtOnce(types, x)
  {
    hide MatchOf, StateAt, Adjacent, ClosedAtOnce, Sound;
  }

  lemma AstrayIsInitiator(types: seq<BidiClass>, base: Level, classes: seq<BidiClass>, levels: seq<Level>, runs: seq<Run>, e: nat)
    requires Cut(types, base, classes, levels, runs) && 0 <= base <= 1 && e < |types| && Astray(types, base, e)
    ensures |types| == |classes| == |levels| && InRange(classes, levels, runs) && classes[e].IsIsoInit()
  {
    hide Unhindered, Explained, Tiling, TailRemoved, InRange, Astray, StateAt;
    CutExplained(types, base, classes, levels, runs);
    AstrayKinds(types, base, e);
    NotOverridden(types, base, classes, levels, e);
  }

  /** The run of an initiator that is astray without a match has a next one, or is passed
      over. */
  lemma UnmatchedBreaks(types: seq<BidiClass>, base: Level, classes: seq<BidiClass>, levels: seq<Level>,
                        runs: seq<Run>, isoRuns: seq<IsoRun>, s: nat, k: nat, q: nat) returns (t: nat, l: nat)
    requires Gathered(types, base, classes, levels, runs, isoRuns)
    requires |types| == |classes| && InRange(classes, levels, runs)
    requires s < |isoRuns| && k + 1 == |isoRuns[s].runs| && isoRuns[s].runs[k] < q < |runs|
    requires Links(classes, levels, runs[isoRuns[s].runs[k]], runs[q]) && MatchOf(types, runs[isoRuns[s].runs[k]].end - 1).None?
    ensures t < |isoRuns| && l < |isoRuns[t].runs|
    ensures !NextIsRight(types, classes, levels, runs, isoRuns[t].runs, l)
  {
    hide Cut, InRange, Partition, Greedy, MatchOf, FirstLive, Links, NextIsRight;
    var r := isoRuns[s].runs[k];
    MembersOf(classes, levels, runs, isoRuns, s, k);
    LinkEnds(classes, levels, runs, r, q);
    PassedOver(classes, levels, runs, isoRuns, s, k, q);
    var i: nat;
    t, i := Home(classes, levels, runs, isoRuns, q);
    FirstBefore(classes, levels, runs, isoRuns, t, s);
    MembersIncrease(classes, levels, runs, isoRuns, t, r);
    l := Straddle(isoRuns[t].runs, i, r);
    MembersOf(classes, levels, runs, isoRuns, t, l);
    PassedUnmatched(types, base, classes, levels, runs, isoRuns, t, l, r);
  }

  /** Whatever is astray, some run of some sequence is not followed as BD13 asks. */
  lemma AstrayBreaks(types: seq<BidiClass>, base: Level, classes: seq<BidiClass>, levels: seq<Level>,
                     runs: seq<Run>, isoRuns: seq<IsoRun>, e: nat) returns (s: nat, k: nat)
    requires Gathered(types, base, classes, levels, runs, isoRuns)
    requires 0 <= base <= 1 && e < |types| && Astray(types, base, e)
    ensures |types| == |classes| && InRange(classes, levels, runs)
    ensures s < |isoRuns| && k < |isoRuns[s].runs|
    ensures !NextIsRight(types, classes, levels, runs, isoRuns[s].runs, k)
  {
    hide Cut, Astray, Overflowed, InRange, Partition, Greedy, MatchOf, FirstLive, Links, StateAt, ClosedAtOnce, Adjacent;
    AstrayKinds(types, base, e);
    AstrayIsInitiator(types, base, classes, levels, runs, e);
    var r := InitiatorEnds(types, base, classes, levels, runs, e);
    s, k := Home(classes, levels, runs, isoRuns, r);
    MembersOf(classes, levels, runs, isoRuns, s, k);
    var members := isoRuns[s].runs;
    if MatchOf(types, e).Some? {
      if k + 1 < |members| { MatchedAstray(types, base, classes, levels, runs, e, members[k + 1]); }
    } else if k + 1 == |members| {
      var x :| e < x < |types| && ClosedAtOnce(types, x);
      var q := UnmatchedAstray(types, base, classes, levels, runs, r, x);
      s, k := UnmatchedBreaks(types, base, classes, levels, runs, isoRuns, s, k, q);
    }
  }

  /** The gathering of runs follows BD13 if and only if no isolate is astray. */
  lemma FollowsExactly(types: seq<BidiClass>, base: Level, classes: seq<BidiClass>, levels: seq<Level>, runs: seq<Run>, isoRuns: seq<IsoRun>)
    requires Gathered(types, base, classes, levels, runs, isoRuns)
    ensures 0 <= base <= 1 && |types| == |classes| && InRange(classes, levels, runs)
    ensures FollowsBd13(types, classes, levels, runs, isoRuns) <==> NoneAstray(types, base)
  {
    hide Cut, Partition, Greedy, NextIsRight, Astray;
    CutSizes(types, base, classes, levels, runs);
    if NoneAstray(types, base) {
      forall s, k | 0 <= s < |isoRuns| && 0 <= k < |isoRuns[s].runs|
        ensures NextIsRight(types, classes, levels, runs, isoRuns[s].runs, k)
      {
        NextIsMatch(types, base, classes, levels, runs, isoRuns, s, k);
      }
    } else {
      var e :| 0 <= e < |types| && Astray(types, base, e);
      var s, k := AstrayBreaks(types, base, classes, levels, runs, isoRuns, e);
    }
  }
}
