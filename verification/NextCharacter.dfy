/** Isolating run sequences character by character: what follows a character in its
    sequence, by the definitions BD7 and BD13 of UAX #9 and in the source, which cuts
    level runs at isolate initiators and joins them again. */
module NextCharacter {
  import opened Wrappers
  import opened BidiTypes
  import opened Explicit
  import opened Runs
  import opened Linking
  import opened Matching
  import opened Following

  /** BD7 and BD13: the next character that is left, if it has the same level; otherwise,
      after an initiator, overridden or not, its matching PDI. */
  function UaxNext(types: seq<BidiClass>, levels: seq<Level>, i: nat): Option<nat>
    requires i < |types| == |levels|
  {
    var n := FirstLive(levels, i + 1, |levels|);
    if n.Some? && levels[n.value] == levels[i] then n
    else if types[i].IsIsoInit() then MatchOf(types, i)
    else None
  }

  /** The next character that is left in the chain of a sequence. */
  ghost predicate NextInChain(levels: seq<Level>, indices: seq<nat>, i: nat, next: Option<nat>) {
    match next
    case Some(n) =>
      && i < n < |levels| && n in indices && levels[n] != NO_LEVEL
      && forall m :: i < m < n && m in indices ==> levels[m] == NO_LEVEL
    case None => forall m :: i < m < |levels| && m in indices ==> levels[m] == NO_LEVEL
  }

  /** An initiator that is not overridden, before a character of its level that is not its
      matching PDI: the source parts the two. */
  predicate PartedFrom(types: seq<BidiClass>, classes: seq<BidiClass>, levels: seq<Level>, e: nat)
    requires e < |types| == |classes| == |levels|
  {
    var n := FirstLive(levels, e + 1, |levels|);
    classes[e].IsIsoInit() && n.Some? && levels[n.value] == levels[e] && MatchOf(types, e) != n
  }

  /** What follows is the separator at the end of the paragraph. */
  predicate BeforeSeparator(types: seq<BidiClass>, levels: seq<Level>, e: nat)
    requires e < |types| == |levels|
  {
    var n := FirstLive(levels, e + 1, |levels|);
    n.Some? && types[n.value] == ParagraphSeparator
  }

  /** An initiator that is overridden and has a matching PDI, before a character of another
      level: the source does not see that it is one, and does not go on from it. */
  predicate Unlinked(types: seq<BidiClass>, classes: seq<BidiClass>, levels: seq<Level>, e: nat)
    requires e < |types| == |classes| == |levels|
  {
    var n := FirstLive(levels, e + 1, |levels|);
    types[e].IsIsoInit() && !classes[e].IsIsoInit() && MatchOf(types, e).Some? && !(n.Some? && levels[n.value] == levels[e])
  }

  /** What follows position `i` of the k-th run of a sequence: the next character of the
      run, or the first one of the next run. */
  function RunNext(classes: seq<BidiClass>, levels: seq<Level>, runs: seq<Run>, members: seq<nat>, k: nat, i: nat): Option<nat>
    requires InRange(classes, levels, runs) && k < |members| && members[k] < |runs|
    requires runs[members[k]].start <= i < runs[members[k]].end
  {
    var here := FirstLive(levels, i + 1, runs[members[k]].end);
    if here.Some? || !(k + 1 < |members| && members[k + 1] < |runs|) then here
    else FirstLive(levels, runs[members[k + 1]].start, runs[members[k + 1]].end)
  }

  lemma FirstLivePrefix(levels: seq<Level>, start: nat, end: nat)
    requires start <= end <= |levels|
    ensures FirstLive(levels, start, end).Some? ==> FirstLive(levels, start, |levels|) == FirstLive(levels, start, end)
    ensures FirstLive(levels, start, end).None? && FirstLive(levels, start, |levels|).Some? ==> FirstLive(levels, start, |levels|).value >= end
  {
    hide FirstLive;
    var a := FirstLive(levels, start, end);
    if a.Some? { FirstLiveIs(levels, start, |levels|, a.value); }
  }

  /** Two live characters of one level, next to each other, in two runs. */
  lemma LastOfRun(types: seq<BidiClass>, base: Level, classes: seq<BidiClass>, levels: seq<Level>, runs: seq<Run>, r: nat, i: nat)
    requires Cut(types, base, classes, levels, runs) && r < |runs|
    requires runs[r].start <= i < runs[r].end <= |levels| == |types| == |classes| && levels[i] != NO_LEVEL
    requires FirstLive(levels, i + 1, runs[r].end).None?
    ensures var n := FirstLive(levels, i + 1, |levels|);
      n.Some? && levels[n.value] == levels[i] ==> runs[r].end == i + 1 && classes[i].IsIsoInit()
    ensures classes[i].IsIsoInit() ==> runs[r].end == i + 1
    ensures classes[runs[r].end - 1].IsIsoInit() ==> runs[r].end == i + 1
  {
    hide Unhindered, Explained, Tiling, TailRemoved, IsSpan, FirstLive;
    FirstLivePrefix(levels, i + 1, runs[r].end);
    var n := FirstLive(levels, i + 1, |levels|);
    if n.Some? && levels[n.value] == levels[i] {
      PartedByInitiator(types, base, classes, levels, runs, i, r, n.value);
    }
    CutFacts(types, base, classes, levels, runs, r);
    SpanLevelAt(classes, levels, runs[r].start, runs[r].end, runs[r].level, i);
    if classes[runs[r].end - 1].IsIsoInit() { RunInitiator(types, base, classes, levels, runs, r); }
  }

  /** After an initiator that is not parted the matching PDI is what follows. */
  lemma NextOfInitiator(types: seq<BidiClass>, classes: seq<BidiClass>, levels: seq<Level>, e: nat)
    requires e < |types| == |classes| == |levels| && classes[e].IsIsoInit() && types[e] == classes[e]
    requires !PartedFrom(types, classes, levels, e)
    ensures UaxNext(types, levels, e) == MatchOf(types, e)
  {
  }

  /** An initiator that is parted from nothing, or only from the separator at the end, is
      not astray. */
  lemma UnpartedNotAstray(types: seq<BidiClass>, base: Level, classes: seq<BidiClass>, levels: seq<Level>, runs: seq<Run>, e: nat)
    requires Cut(types, base, classes, levels, runs) && e < |types| == |classes| == |levels| && 0 <= base <= 1
    requires PartedFrom(types, classes, levels, e) ==> BeforeSeparator(types, levels, e)
    ensures !Astray(types, base, e)
  {
    hide Unhindered, Tiling, TailRemoved, MatchOf, FirstLive, StateAt, Explained;
    if Astray(types, base, e) {
      CutExplained(types, base, classes, levels, runs);
      NotOverridden(types, base, classes, levels, e);
      var x: nat;
      if MatchOf(types, e).Some? {
        x :| e < x < MatchOf(types, e).value && !types[x].IsFormat();
      } else {
        x :| e < x < |types| && ClosedAtOnce(types, x);
      }
      CharacterOf(types, base, classes, levels, x);
      var n := FirstLive(levels, e + 1, |levels|);
      NotLaterThan(levels, e + 1, x);
      CharacterOf(types, base, classes, levels, n.value);
      if n.value < |types| - 1 {
        OnlyLastSeparates(types, base, n.value);
        AsDeep(types, base, classes, levels, e, n.value);
      }
    }
  }

  lemma NotLaterThan(levels: seq<Level>, start: nat, x: nat)
    requires start <= x < |levels| && levels[x] != NO_LEVEL
    ensures FirstLive(levels, start, |levels|).Some? && FirstLive(levels, start, |levels|).value <= x
  {
  }

  /** Where no initiator is parted from anything but the separator at the end, a run goes on
      as the definitions have it, but after those that are, and overridden ones. */
  lemma RunNextIsRight(types: seq<BidiClass>, base: Level, classes: seq<BidiClass>, levels: seq<Level>,
                       runs: seq<Run>, isoRuns: seq<IsoRun>, s: nat, k: nat, r: nat, i: nat)
    requires Gathered(types, base, classes, levels, runs, isoRuns) && s < |isoRuns| && k < |isoRuns[s].runs|
    requires |types| == |classes| == |levels| && InRange(classes, levels, runs)
    requires forall e :: 0 <= e < |types| && PartedFrom(types, classes, levels, e) ==> BeforeSeparator(types, levels, e)
    requires isoRuns[s].runs[k] == r < |runs| && runs[r].start <= i < runs[r].end && levels[i] != NO_LEVEL
    ensures RunNext(classes, levels, runs, isoRuns[s].runs, k, i) ==
            if PartedFrom(types, classes, levels, i) || Unlinked(types, classes, levels, i) then None else UaxNext(types, levels, i)
  {
    hide Cut, Partition, Greedy, MatchOf, FirstLive, PartedFrom, Astray, BeforeSeparator;
    CutSizes(types, base, classes, levels, runs);
    forall e | 0 <= e < |types| ensures !Astray(types, base, e) {
      UnpartedNotAstray(types, base, classes, levels, runs, e);
    }
    NextIsMatch(types, base, classes, levels, runs, isoRuns, s, k);
    hide NoneAstray;
    FirstLivePrefix(levels, i + 1, runs[r].end);
    if FirstLive(levels, i + 1, runs[r].end).Some? {
      SameRunSameLevel(types, base, classes, levels, runs, r, i, FirstLive(levels, i + 1, runs[r].end).value);
      RunNotParted(types, base, classes, levels, runs, r, i);
    } else {
      LastOfRun(types, base, classes, levels, runs, r, i);
      if PartedFrom(types, classes, levels, i) {
        PartedUnmatched(types, base, classes, levels, runs, i);
      } else if classes[i].IsIsoInit() {
        InitiatorCame(types, base, classes, levels, runs, i);
        NextOfInitiator(types, classes, levels, i);
      }
    }
  }

  lemma InitiatorCame(types: seq<BidiClass>, base: Level, classes: seq<BidiClass>, levels: seq<Level>, runs: seq<Run>, e: nat)
    requires Cut(types, base, classes, levels, runs) && e < |types| == |classes| && classes[e].IsIsoInit()
    ensures types[e] == classes[e]
  {
    hide Unhindered, Tiling, TailRemoved, InRange, Explained;
    CharacterOf(types, base, classes, levels, e);
  }

  /** A character that another one of its run follows is not parted from it. */
  lemma RunNotParted(types: seq<BidiClass>, base: Level, classes: seq<BidiClass>, levels: seq<Level>, runs: seq<Run>, r: nat, i: nat)
    requires Cut(types, base, classes, levels, runs) && r < |runs|
    requires runs[r].start <= i < runs[r].end <= |levels| == |types| == |classes| && levels[i] != NO_LEVEL
    requires FirstLive(levels, i + 1, runs[r].end).Some?
    ensures !PartedFrom(types, classes, levels, i)
  {
    hide Unhindered, Explained, Tiling, TailRemoved, IsSpan;
    CutFacts(types, base, classes, levels, runs, r);
    SpanLevelAt(classes, levels, runs[r].start, runs[r].end, runs[r].level, i);
  }

  /** Nothing after a separator at the end can match. */
  lemma PartedUnmatched(types: seq<BidiClass>, base: Level, classes: seq<BidiClass>, levels: seq<Level>, runs: seq<Run>, e: nat)
    requires Cut(types, base, classes, levels, runs) && e < |types| == |classes| == |levels|
    requires BeforeSeparator(types, levels, e)
    ensures MatchOf(types, e).None?
  {
    hide Unhindered, Tiling, TailRemoved, InRange, MatchOf, FirstLive, Explained;
    CutExplained(types, base, classes, levels, runs);
    if MatchOf(types, e).Some? {
      var n, j := FirstLive(levels, e + 1, |levels|).value, MatchOf(types, e).value;
      CharacterOf(types, base, classes, levels, j);
      NotLaterThan(levels, e + 1, j);
      if n < |types| - 1 { OnlyLastSeparates(types, base, n); }
    }
  }

  lemma SameRunSameLevel(types: seq<BidiClass>, base: Level, classes: seq<BidiClass>, levels: seq<Level>, runs: seq<Run>, r: nat, i: nat, n: nat)
    requires Cut(types, base, classes, levels, runs) && r < |runs|
    requires runs[r].start <= i < runs[r].end <= |levels| && runs[r].start <= n < runs[r].end
    requires levels[i] != NO_LEVEL && levels[n] != NO_LEVEL
    ensures levels[i] == levels[n]
  {
    hide Unhindered, Explained, Tiling, TailRemoved, IsSpan;
    CutFacts(types, base, classes, levels, runs, r);
    SpanLevelAt(classes, levels, runs[r].start, runs[r].end, runs[r].level, i);
    SpanLevelAt(classes, levels, runs[r].start, runs[r].end, runs[r].level, n);
  }

  /** After an initiator that is parted the source does not go on as the definitions have
      it. */
  lemma PartedBreaks(types: seq<BidiClass>, base: Level, classes: seq<BidiClass>, levels: seq<Level>,
                     runs: seq<Run>, isoRuns: seq<IsoRun>, e: nat) returns (s: nat, k: nat, r: nat)
    requires Gathered(types, base, classes, levels, runs, isoRuns)
    requires e < |types| == |classes| == |levels| && PartedFrom(types, classes, levels, e)
    ensures InRange(classes, levels, runs)
    ensures s < |isoRuns| && k < |isoRuns[s].runs| && isoRuns[s].runs[k] == r < |runs|
    ensures runs[r].start <= e < runs[r].end && levels[e] != NO_LEVEL
    ensures RunNext(classes, levels, runs, isoRuns[s].runs, k, e) != UaxNext(types, levels, e)
  {
    hide Cut, Partition, Greedy, MatchOf, FirstLive, Links;
    CutSizes(types, base, classes, levels, runs);
    r := InitiatorEnds(types, base, classes, levels, runs, e);
    s, k := Home(classes, levels, runs, isoRuns, r);
    MembersOf(classes, levels, runs, isoRuns, s, k);
    var members := isoRuns[s].runs;
    NothingIn(levels, e + 1);
    if k + 1 < |members| {
      var m := LinkedCharacters(types, base, classes, levels, runs, r, members[k + 1]);
      if FirstLive(levels, e + 1, |levels|) == Some(m) {
        NextIsAdjacent(types, base, classes, levels, runs, e, m);
        AdjacentMatches(types, e, m);
      }
    }
  }

  /** Nor does it after an overridden one. */
  lemma UnlinkedBreaks(types: seq<BidiClass>, base: Level, classes: seq<BidiClass>, levels: seq<Level>,
                       runs: seq<Run>, isoRuns: seq<IsoRun>, e: nat) returns (s: nat, k: nat, r: nat)
    requires Gathered(types, base, classes, levels, runs, isoRuns)
    requires e < |types| == |classes| == |levels| && Unlinked(types, classes, levels, e)
    ensures InRange(classes, levels, runs)
    ensures s < |isoRuns| && k < |isoRuns[s].runs| && isoRuns[s].runs[k] == r < |runs|
    ensures runs[r].start <= e < runs[r].end && levels[e] != NO_LEVEL
    ensures RunNext(classes, levels, runs, isoRuns[s].runs, k, e) != UaxNext(types, levels, e)
  {
    hide Cut, Partition, Greedy, MatchOf, FirstLive, Links;
    CutSizes(types, base, classes, levels, runs);
    InitiatorIsLeft(types, base, classes, levels, runs, e);
    r := RunOf(types, base, classes, levels, runs, e);
    s, k := Home(classes, levels, runs, isoRuns, r);
    MembersOf(classes, levels, runs, isoRuns, s, k);
    var here := FirstLive(levels, e + 1, runs[r].end);
    FirstLivePrefix(levels, e + 1, runs[r].end);
    if here.Some? {
      SameRunSameLevel(types, base, classes, levels, runs, r, e, here.value);
    } else {
      LastOfRun(types, base, classes, levels, runs, r, e);
      if k + 1 < |isoRuns[s].runs| { LinkEnds(classes, levels, runs, r, isoRuns[s].runs[k + 1]); }
    }
  }

  lemma InitiatorIsLeft(types: seq<BidiClass>, base: Level, classes: seq<BidiClass>, levels: seq<Level>, runs: seq<Run>, e: nat)
    requires Cut(types, base, classes, levels, runs) && e < |types| == |levels| && types[e].IsIsoInit()
    ensures levels[e] != NO_LEVEL
  {
    hide Unhindered, Tiling, TailRemoved, InRange, Explained;
    CharacterOf(types, base, classes, levels, e);
  }

  lemma NothingIn(levels: seq<Level>, i: nat)
    requires i <= |levels|
    ensures FirstLive(levels, i, i).None?
  {
  }

  lemma NextIsAdjacent(types: seq<BidiClass>, base: Level, classes: seq<BidiClass>, levels: seq<Level>, runs: seq<Run>, e: nat, m: nat)
    requires Cut(types, base, classes, levels, runs) && e < |types| == |levels| && FirstLive(levels, e + 1, |levels|) == Some(m)
    ensures Adjacent(types, e, m)
  {
    hide Unhindered, Tiling, TailRemoved, FirstLive, Explained;
    CutExplained(types, base, classes, levels, runs);
    forall i | e < i < m ensures types[i].IsFormat() { CharacterOf(types, base, classes, levels, i); }
  }

  /** An initiator is only parted from a character in an isolate that overflows, or from
      the separator at the end of the paragraph. */
  lemma PartedOnlyBy(types: seq<BidiClass>, base: Level, classes: seq<BidiClass>, levels: seq<Level>, runs: seq<Run>, e: nat)
    requires Cut(types, base, classes, levels, runs) && e < |types| == |classes| == |levels| && 0 <= base <= 1
    requires PartedFrom(types, classes, levels, e)
    ensures Overflowed(types, base, e) || types[FirstLive(levels, e + 1, |levels|).value] == ParagraphSeparator
  {
    hide Cut, Unhindered, NoneIgnored, Tiling, TailRemoved, InRange, MatchOf, FirstLive, Overflowed, Explained;
    CutExplained(types, base, classes, levels, runs);
    CharacterOf(types, base, classes, levels, e);
    var n := FirstLive(levels, e + 1, |levels|).value;
    if !Overflowed(types, base, e) && types[n] != ParagraphSeparator {
      if MatchOf(types, e).Some? {
        MatchLevel(types, base, classes, levels, e);
        NotLaterThan(levels, e + 1, MatchOf(types, e).value);
      }
      Deeper(types, base, classes, levels, e, n);
    }
  }

  // ----- Chains -----

  lemma MembersInRange(classes: seq<BidiClass>, levels: seq<Level>, runs: seq<Run>, isoRuns: seq<IsoRun>, s: nat)
    requires Partition(classes, levels, runs, isoRuns) && s < |isoRuns|
    ensures InRange(classes, levels, runs) && Members(runs, isoRuns[s].runs) && Increasing(isoRuns[s].runs)
    ensures forall k :: 0 <= k < |isoRuns[s].runs| ==> isoRuns[s].runs[k] < |runs|
  {
    hide Links, TotalLen;
    assert IsSequence(classes, levels, runs, isoRuns[s]);
  }

  /** Where a position of a chain lies against a run of its sequence. */
  lemma HolderOrder(types: seq<BidiClass>, base: Level, classes: seq<BidiClass>, levels: seq<Level>,
                    runs: seq<Run>, isoRuns: seq<IsoRun>, s: nat, k: nat, i: nat, m: nat) returns (l: nat)
    requires Gathered(types, base, classes, levels, runs, isoRuns) && s < |isoRuns| && k < |isoRuns[s].runs|
    requires Members(runs, isoRuns[s].runs) && m in TextChain(runs, isoRuns[s].runs)
    requires Holds(runs[isoRuns[s].runs[k]], i) && i < m
    ensures k <= l < |isoRuns[s].runs| && Holds(runs[isoRuns[s].runs[l]], m)
    ensures forall j :: k <= j < l ==> runs[isoRuns[s].runs[j]].end <= runs[isoRuns[s].runs[l]].start
  {
    hide Cut, Partition, Greedy, TextChain;
    var members := isoRuns[s].runs;
    l := ChainHolder(runs, members, m);
    MembersInRange(classes, levels, runs, isoRuns, s);
    RunsInOrder(types, base, classes, levels, runs, members[k], i, members[l], m);
    forall j | k <= j < l ensures runs[members[j]].end <= runs[members[l]].start {
      RunsApart(types, base, classes, levels, runs, members[j], members[l]);
    }
  }

  lemma RunsApart(types: seq<BidiClass>, base: Level, classes: seq<BidiClass>, levels: seq<Level>, runs: seq<Run>, a: nat, b: nat)
    requires Cut(types, base, classes, levels, runs) && a < b < |runs|
    ensures runs[a].end <= runs[b].start
  {
    hide Unhindered, Explained, Tiling, TailRemoved;
    TilingOrder(classes, levels, runs, a, b);
  }

  /** The next character of the run, or the first one of the next run, is the next one of
      the chain. */
  lemma RunNextInChain(types: seq<BidiClass>, base: Level, classes: seq<BidiClass>, levels: seq<Level>,
                       runs: seq<Run>, isoRuns: seq<IsoRun>, s: nat, k: nat, r: nat, i: nat)
    requires Gathered(types, base, classes, levels, runs, isoRuns) && s < |isoRuns| && k < |isoRuns[s].runs|
    requires |types| == |classes| == |levels| && InRange(classes, levels, runs) && Members(runs, isoRuns[s].runs)
    requires isoRuns[s].runs[k] == r < |runs| && runs[r].start <= i < runs[r].end
    ensures NextInChain(levels, TextChain(runs, isoRuns[s].runs), i, RunNext(classes, levels, runs, isoRuns[s].runs, k, i))
  {
    hide Cut, Partition, Greedy, TextChain, FirstLive, Links;
    var members := isoRuns[s].runs;
    var chain, next := TextChain(runs, members), RunNext(classes, levels, runs, members, k, i);
    MembersOf(classes, levels, runs, isoRuns, s, k);
    if k + 1 < |members| {
      RunsApart(types, base, classes, levels, runs, r, members[k + 1]);
      var first := LinkedCharacters(types, base, classes, levels, runs, r, members[k + 1]);
      InChain(runs, members, k + 1, first);
    }
    var here := FirstLive(levels, i + 1, runs[r].end);
    if here.Some? { InChain(runs, members, k, here.value); }
    forall m | i < m < |levels| && m in chain && (next.Some? ==> m < next.value) ensures levels[m] == NO_LEVEL {
      var l := HolderOrder(types, base, classes, levels, runs, isoRuns, s, k, i, m);
      if l > k {
        assert runs[members[k + 1]].end <= runs[members[l]].start || l == k + 1;
      }
    }
  }

  /** There is one next character. */
  lemma NextUnique(levels: seq<Level>, indices: seq<nat>, i: nat, a: Option<nat>, b: Option<nat>)
    requires NextInChain(levels, indices, i, a) && NextInChain(levels, indices, i, b)
    ensures a == b
  {
  }

  /** Every chain goes on, from every character that is left, as BD7 and BD13 have it. */
  ghost predicate ByDefinition(types: seq<BidiClass>, levels: seq<Level>, isoRuns: seq<IsoRun>)
    requires |types| == |levels|
  {
    forall s, i :: 0 <= s < |isoRuns| && i in isoRuns[s].indices && i < |levels| && levels[i] != NO_LEVEL ==>
      NextInChain(levels, isoRuns[s].indices, i, UaxNext(types, levels, i))
  }

  /** The chain of a character goes on with what follows it in its run. */
  lemma ChainNext(types: seq<BidiClass>, base: Level, classes: seq<BidiClass>, levels: seq<Level>,
                  runs: seq<Run>, isoRuns: seq<IsoRun>, s: nat, i: nat) returns (k: nat, r: nat)
    requires Gathered(types, base, classes, levels, runs, isoRuns) && Finished(runs, isoRuns)
    requires s < |isoRuns| && i in isoRuns[s].indices
    ensures |types| == |classes| == |levels| && InRange(classes, levels, runs)
    ensures k < |isoRuns[s].runs| && isoRuns[s].runs[k] == r < |runs| && runs[r].start <= i < runs[r].end
    ensures NextInChain(levels, isoRuns[s].indices, i, RunNext(classes, levels, runs, isoRuns[s].runs, k, i))
  {
    hide Cut, Partition, Greedy, TextChain, NextInChain, RunNext, Finished;
    CutSizes(types, base, classes, levels, runs);
    FinishedChain(runs, isoRuns, s);
    MembersInRange(classes, levels, runs, isoRuns, s);
    k := ChainHolder(runs, isoRuns[s].runs, i);
    r := isoRuns[s].runs[k];
    RunNextInChain(types, base, classes, levels, runs, isoRuns, s, k, r, i);
  }

  /** They do if and only if no initiator that is not overridden stands before a character
      of its own level other than its matching PDI, and no overridden one with a matching
      PDI before a character of another level. */
  lemma ByDefinitionExactly(types: seq<BidiClass>, base: Level, classes: seq<BidiClass>, levels: seq<Level>,
                            runs: seq<Run>, isoRuns: seq<IsoRun>)
    requires Gathered(types, base, classes, levels, runs, isoRuns) && Finished(runs, isoRuns)
    ensures |types| == |classes| == |levels|
    ensures ByDefinition(types, levels, isoRuns) <==>
            forall e :: 0 <= e < |types| ==> !PartedFrom(types, classes, levels, e) && !Unlinked(types, classes, levels, e)
  {
    hide Cut, Partition, Greedy, TextChain, PartedFrom, Unlinked, NextInChain, UaxNext, RunNext, Finished;
    CutSizes(types, base, classes, levels, runs);
    if forall e :: 0 <= e < |types| ==> !PartedFrom(types, classes, levels, e) && !Unlinked(types, classes, levels, e) {
      forall s, i | 0 <= s < |isoRuns| && i in isoRuns[s].indices && i < |levels| && levels[i] != NO_LEVEL
        ensures NextInChain(levels, isoRuns[s].indices, i, UaxNext(types, levels, i))
      {
        var k, r := ChainNext(types, base, classes, levels, runs, isoRuns, s, i);
        RunNextIsRight(types, base, classes, levels, runs, isoRuns, s, k, r, i);
      }
    }
    if e :| 0 <= e < |types| && (PartedFrom(types, classes, levels, e) || Unlinked(types, classes, levels, e)) {
      var s: nat, k: nat, r: nat;
      if PartedFrom(types, classes, levels, e) {
        s, k, r := PartedBreaks(types, base, classes, levels, runs, isoRuns, e);
      } else {
        s, k, r := UnlinkedBreaks(types, base, classes, levels, runs, isoRuns, e);
      }
      FinishedChain(runs, isoRuns, s);
      InChain(runs, isoRuns[s].runs, k, e);
      RunNextInChain(types, base, classes, levels, runs, isoRuns, s, k, r, e);
      if ByDefinition(types, levels, isoRuns) {
        NextUnique(levels, isoRuns[s].indices, e, RunNext(classes, levels, runs, isoRuns[s].runs, k, e), UaxNext(types, levels, e));
      }
    }
  }

  lemma FinishedChain(runs: seq<Run>, isoRuns: seq<IsoRun>, s: nat)
    requires Finished(runs, isoRuns) && s < |isoRuns|
    ensures Members(runs, isoRuns[s].runs) && isoRuns[s].indices == TextChain(runs, isoRuns[s].runs)
  {
    hide TextChain, Members;
  }
}
