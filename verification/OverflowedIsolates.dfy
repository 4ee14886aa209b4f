/** A paragraph on which the gathering of runs departs from BD13: it joins an isolate
    that overflowed to a PDI that does not match it. */
module OverflowedIsolates {
  import opened Wrappers
  import opened BidiTypes
  import opened LevelStack
  import opened ParagraphLevels
  import opened Explicit
  import opened Runs
  import opened Linking
  import opened Matching
  import opened Following
  import opened Determined

  /** How many embeddings come first: they lead to level 124. */
  const DEEP: nat := 62

  /** 62 left-to-right embeddings, then an isolate that asks for level 126 and its PDI,
      then one that asks for 125 and its PDI. */
  function Clash(): (types: seq<BidiClass>)
    ensures |types| == DEEP + 6
    ensures forall i :: 0 <= i < DEEP ==> types[i] == LeftToRightEmbedding
  {
    seq(DEEP + 6, i requires 0 <= i < DEEP + 6 => if i < DEEP then LeftToRightEmbedding else TopClass(i - DEEP))
  }

  function TopClass(k: nat): BidiClass
    requires k < 6
  {
    match k
    case 0 => LeftToRightIsolate
    case 1 => LeftToRight
    case 2 => PopDirectionalIsolate
    case 3 => RightToLeftIsolate
    case 4 => LeftToRight
    case _ => PopDirectionalIsolate
  }

  function TopLevel(k: nat): Level {
    if k == 4 then 125 else 124
  }

  function Evens(n: nat): (stack: seq<Status>)
    ensures |stack| == n
  {
    seq(n, i => Status(2 * i, Neutral, false))
  }

  lemma EvenStep(n: nat, rtlIsolate: bool)
    requires 0 < n <= DEEP
    ensures Step(XState(Evens(n), 0, 0, 0), LeftToRightEmbedding, rtlIsolate, SOURCE_CAPACITY) == Some(XState(Evens(n + 1), 0, 0, 0))
  {
    assert Requested(LeftToRightEmbedding, rtlIsolate, 2 * (n - 1)) == Some(2 * n);
    assert Evens(n + 1) == Evens(n) + [Status(2 * n, Neutral, false)];
  }

  lemma {:induction false} Climb(n: nat)
    requires n <= DEEP
    ensures RunTo(Clash(), 0, SOURCE_CAPACITY, n) == Some(XState(Evens(n + 1), 0, 0, 0))
  {
    hide Step, FsiIsRtl;
    if n == 0 {
      assert Evens(1) == [Status(0, Neutral, false)];
    } else {
      Climb(n - 1);
      EvenStep(n, FsiIsRtl(Clash(), n - 1));
      RunNext(Clash(), 0, SOURCE_CAPACITY, n - 1);
    }
  }

  lemma ClashAt(k: nat)
    requires k < 6
    ensures Clash()[DEEP + k] == TopClass(k)
  {
  }

  /** The state before the k-th character at the top. */
  function TopState(k: nat): XState
    requires k <= 6
  {
    var deep := XState(Evens(DEEP + 1), 0, 0, 0);
    if k == 1 || k == 2 then deep.(overflowIsolate := 1)
    else if k == 4 || k == 5 then XState(Evens(DEEP + 1) + [Status(125, Neutral, true)], 0, 0, 1)
    else deep
  }

  lemma TopStep(k: nat, bc: BidiClass, rtlIsolate: bool)
    requires k < 6
    requires bc == TopClass(k)
    ensures Step(TopState(k), bc, rtlIsolate, SOURCE_CAPACITY) == Some(TopState(k + 1))
  {
    assert Requested(LeftToRightIsolate, rtlIsolate, 124) == None;
    assert Requested(RightToLeftIsolate, rtlIsolate, 124) == Some(125);
    var inside := Evens(DEEP + 1) + [Status(125, Neutral, true)];
    assert inside[..DEEP + 1] == Evens(DEEP + 1);
  }

  lemma {:induction false} TopStates(k: nat)
    requires k <= 6
    ensures RunTo(Clash(), 0, SOURCE_CAPACITY, DEEP + k) == Some(TopState(k))
  {
    hide RunTo, FsiIsRtl, Step, Clash;
    if k == 0 {
      Climb(DEEP);
    } else {
      TopStates(k - 1);
      ClashAt(k - 1);
      TopStep(k - 1, Clash()[DEEP + k - 1], FsiIsRtl(Clash(), DEEP + k - 1));
      RunNext(Clash(), 0, SOURCE_CAPACITY, DEEP + k - 1);
    }
  }

  /** What X1-X9 give the k-th character at the top. */
  predicate TopAt(classes: seq<BidiClass>, levels: seq<Level>, k: nat)
    requires |classes| == |levels| == DEEP + 6 && k < 6
  {
    classes[DEEP + k] == TopClass(k) && levels[DEEP + k] == TopLevel(k)
  }

  ghost predicate ClashResult(classes: seq<BidiClass>, levels: seq<Level>) {
    && |classes| == |levels| == DEEP + 6
    && (forall i :: 0 <= i < DEEP ==> levels[i] == NO_LEVEL && !classes[i].IsIsoInit())
    && TopAt(classes, levels, 0) && TopAt(classes, levels, 1) && TopAt(classes, levels, 2)
    && TopAt(classes, levels, 3) && TopAt(classes, levels, 4) && TopAt(classes, levels, 5)
  }

  lemma ClashLevels(classes: seq<BidiClass>, levels: seq<Level>)
    requires Explained(Clash(), 0, classes, levels)
    ensures ClashResult(classes, levels)
  {
    hide Explained, Clash, TopAt;
    ClashBelow(classes, levels);
    ClashLevel(classes, levels, 0);
    ClashLevel(classes, levels, 1);
    ClashLevel(classes, levels, 2);
    ClashLevel(classes, levels, 3);
    ClashLevel(classes, levels, 4);
    ClashLevel(classes, levels, 5);
  }

  lemma ClashBelow(classes: seq<BidiClass>, levels: seq<Level>)
    requires Explained(Clash(), 0, classes, levels)
    ensures |classes| == |levels| == DEEP + 6
    ensures forall i :: 0 <= i < DEEP ==> levels[i] == NO_LEVEL && !classes[i].IsIsoInit()
  {
    hide RunTo;
    forall i | 0 <= i < DEEP ensures levels[i] == NO_LEVEL && !classes[i].IsIsoInit() {
      assert ExplainedAt(Clash(), 0, i, classes[i], levels[i]);
    }
  }

  lemma ClashLevel(classes: seq<BidiClass>, levels: seq<Level>, k: nat)
    requires Explained(Clash(), 0, classes, levels) && k < 6
    ensures |classes| == |levels| == DEEP + 6 && TopAt(classes, levels, k)
  {
    hide Clash, Explained, StateAt, TopState, Sound, RunTo, TopClass;
    ClashBelow(classes, levels);
    ClashAt(k);
    TopStateAt(k);
    TopStateAt(k + 1);
    TopEntry(k);
    TopEntry(k + 1);
    TopKind(k);
    LevelInStates(Clash(), 0, classes, levels, DEEP + k);
  }

  lemma TopKind(k: nat)
    requires k < 6
    ensures !TopClass(k).IsFormat() && TopClass(k) != ParagraphSeparator
    ensures TopClass(k) == PopDirectionalIsolate <==> k == 2 || k == 5
  {
  }

  lemma TopStateAt(k: nat)
    requires k <= 6
    ensures StateAt(Clash(), 0, DEEP + k) == Some(TopState(k))
  {
    hide RunTo, Clash, TopState;
    TopStates(k);
  }

  lemma TopEntry(k: nat)
    requires k <= 6
    ensures TopState(k).stack != []
    ensures Top(TopState(k)) == if k == 4 || k == 5 then Status(125, Neutral, true) else Status(124, Neutral, false)
  {
  }

  /** The four spans: up to the first initiator, up to the second, what it isolates, and
      its PDI. */
  lemma ClashSpans(classes: seq<BidiClass>, levels: seq<Level>)
    requires ClashResult(classes, levels)
    ensures IsSpan(classes, levels, 0, DEEP + 1, 124)
    ensures IsSpan(classes, levels, DEEP + 1, DEEP + 4, 124)
    ensures IsSpan(classes, levels, DEEP + 4, DEEP + 5, 125)
    ensures IsSpan(classes, levels, DEEP + 5, DEEP + 6, 124)
  {
  }

  lemma ClashBefore(classes: seq<BidiClass>, levels: seq<Level>)
    requires ClashResult(classes, levels)
    ensures |classes| == |levels| == DEEP + 6
    ensures forall i :: 0 <= i < DEEP ==> levels[i] == NO_LEVEL && !classes[i].IsIsoInit()
  {
  }

  /** The run from a position on where characters are left. */
  lemma RunFrom(classes: seq<BidiClass>, levels: seq<Level>, runs: seq<Run>, r: nat, start: nat, end: nat, level: Level)
    requires Tiling(classes, levels, runs) && TailRemoved(levels, runs) && r <= |runs| && RunsEnd(runs[..r]) == start
    requires IsSpan(classes, levels, start, end, level) && level != NO_LEVEL
    ensures r < |runs| && runs[r].start == start && runs[r].end == end && runs[r].level == level
    ensures RunsEnd(runs[..r + 1]) == end
  {
    hide IsSpan;
    var m := SpanLevel(classes, levels, start, end, level);
    assert runs[..|runs|] == runs;
    SpanUnique(classes, levels, start, runs[r].end, runs[r].level, end, level);
  }

  lemma ClashRuns(classes: seq<BidiClass>, levels: seq<Level>, runs: seq<Run>)
    requires ClashResult(classes, levels) && Tiling(classes, levels, runs) && TailRemoved(levels, runs)
    ensures |runs| == 4
    ensures runs[0].start == 0 && runs[0].end == runs[1].start == DEEP + 1
    ensures runs[1].end == runs[2].start == DEEP + 4 && runs[2].end == runs[3].start == DEEP + 5 && runs[3].end == DEEP + 6
    ensures runs[0].level == runs[1].level == runs[3].level == 124 && runs[2].level == 125
  {
    hide IsSpan, TailRemoved, ClashResult;
    ClashSpans(classes, levels);
    RunFrom(classes, levels, runs, 0, 0, DEEP + 1, 124);
    RunFrom(classes, levels, runs, 1, DEEP + 1, DEEP + 4, 124);
    RunFrom(classes, levels, runs, 2, DEEP + 4, DEEP + 5, 125);
    RunFrom(classes, levels, runs, 3, DEEP + 5, DEEP + 6, 124);
    ClashBefore(classes, levels);
    if |runs| > 4 {
      TilingOrder(classes, levels, runs, 3, 4);
      RunInside(classes, levels, runs, 4);
    }
  }

  lemma RunInside(classes: seq<BidiClass>, levels: seq<Level>, runs: seq<Run>, r: nat)
    requires Tiling(classes, levels, runs) && r < |runs|
    ensures runs[r].start < |levels|
  {
  }

  /** The first sequence joins the first initiator to the last PDI, which matches the
      second initiator; the PDI that matches the first is in between. */
  lemma OverflowJoinsWrongly(classes: seq<BidiClass>, levels: seq<Level>, runs: seq<Run>, isoRuns: seq<IsoRun>)
    requires Explained(Clash(), 0, classes, levels)
    requires Tiling(classes, levels, runs) && TailRemoved(levels, runs)
    requires Partition(classes, levels, runs, isoRuns) && Greedy(classes, levels, runs, isoRuns)
    ensures MatchOf(Clash(), DEEP) == Some(DEEP + 2) && MatchOf(Clash(), DEEP + 3) == Some(DEEP + 5)
    ensures |runs| == 4 && runs[0].end - 1 == DEEP && runs[3].start == DEEP + 5
    ensures |isoRuns| > 0 && |isoRuns[0].runs| > 1 && isoRuns[0].runs[0] == 0 && isoRuns[0].runs[1] == 3
  {
    hide Explained, RunTo, ClashResult, Partition, Greedy, IsSpan;
    ClashMatches();
    ClashLevels(classes, levels);
    ClashRuns(classes, levels, runs);
    hide Tiling, TailRemoved;
    var t, i := Home(classes, levels, runs, isoRuns, 0);
    MembersOf(classes, levels, runs, isoRuns, t, i);
    if t > 0 { FirstBefore(classes, levels, runs, isoRuns, 0, t); }
    MembersOf(classes, levels, runs, isoRuns, 0, 0);
    ClashLinks(classes, levels, runs);
    if |isoRuns[0].runs| == 1 || isoRuns[0].runs[1] > 3 { PassedOver(classes, levels, runs, isoRuns, 0, 0, 3); }
  }

  lemma ClashMatches()
    ensures MatchOf(Clash(), DEEP) == Some(DEEP + 2) && MatchOf(Clash(), DEEP + 3) == Some(DEEP + 5)
  {
    ClashAt(1);
    ClashAt(2);
    ClashAt(4);
    ClashAt(5);
    assert MatchingPdi(Clash(), DEEP + 2, 1) == Some(DEEP + 2);
    assert MatchingPdi(Clash(), DEEP + 5, 1) == Some(DEEP + 5);
  }

  lemma ClashLinks(classes: seq<BidiClass>, levels: seq<Level>, runs: seq<Run>)
    requires ClashResult(classes, levels) && InRange(classes, levels, runs) && |runs| == 4
    requires runs[0].end == runs[1].start == DEEP + 1 && runs[1].end == DEEP + 4 && runs[3].start == DEEP + 5 && runs[3].end == DEEP + 6
    requires runs[0].level == runs[1].level == runs[3].level == 124 && runs[2].level == 125
    ensures !Links(classes, levels, runs[0], runs[1]) && !Links(classes, levels, runs[0], runs[2]) && Links(classes, levels, runs[0], runs[3])
  {
  }

  /** The first isolate overflows and is astray. */
  lemma ClashAstray()
    ensures Astray(Clash(), 0, DEEP)
  {
    hide Clash, StateAt, Evens, MatchOf, Sound;
    ClashMatches();
    ClashAt(0);
    ClashAt(1);
    TopStateAt(0);
    TopStateAt(1);
    TopEntry(0);
    assert !Clash()[DEEP + 1].IsFormat();
  }
}
