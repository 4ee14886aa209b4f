/** A whole paragraph: where nothing departs from UAX #9 on the way, the classes and levels
    that come of it are those of UAX #9. */
module Conformance {
  import opened Wrappers
  import opened BidiTypes
  import opened Explicit
  import opened Runs
  import opened Linking
  import opened Matching
  import opened Following
  import opened NextCharacter
  import opened SequenceEnds
  import opened TextChains
  import opened Rules
  import opened Brackets
  import opened BracketOverflow
  import opened Determined
  import opened Resolution
  import opened MarksAfterControls
  import opened ChainCores
  import Neutral
  import Weak

  // ----- UAX #9 -----

  /** X1-X9 with the stack that section 3.3.2 of UAX #9 asks for. */
  ghost predicate UaxExplained(types: seq<BidiClass>, base: Level, classes: seq<BidiClass>, levels: seq<Level>) {
    && 0 <= base <= 1
    && |types| == |classes| == |levels|
    && forall i :: 0 <= i < |types| ==> UaxExplainedAt(types, base, i, classes[i], levels[i])
  }

  ghost predicate UaxExplainedAt(types: seq<BidiClass>, base: Level, i: nat, bc: BidiClass, level: Level)
    requires i < |types| && 0 <= base <= 1
  {
    var before, after := RunTo(types, base, UAX_CAPACITY, i), RunTo(types, base, UAX_CAPACITY, i + 1);
    && before.Some? && after.Some?
    && bc == ClassBetween(before.value, after.value, types[i])
    && level == LevelBetween(before.value, after.value, types[i], base)
  }

  /** BD7 and BD13: the k-th character is followed by the next one, the last by none. */
  ghost predicate UaxLink(types: seq<BidiClass>, levels: seq<Level>, indices: seq<nat>, k: nat)
    requires |types| == |levels| && k < |indices|
  {
    indices[k] < |types| && UaxNext(types, levels, indices[k]) == if k + 1 < |indices| then Some(indices[k + 1]) else None
  }

  /** BD13 and X10: an isolating run sequence, by its characters, without those that X9
      removed. */
  ghost predicate UaxSequence(types: seq<BidiClass>, levels: seq<Level>, base: Level, u: IsoRun)
    requires |types| == |levels|
  {
    && u.indices != [] && Increasing(u.indices)
    && (forall k :: 0 <= k < |u.indices| ==> u.indices[k] < |levels| && levels[u.indices[k]] == u.level != NO_LEVEL)
    && (forall k :: 0 <= k < |u.indices| ==> UaxLink(types, levels, u.indices, k))
    && u.sos == SosOf(levels, base, u.indices[0])
    && u.eos == EosOf(types, levels, base, u.indices[|u.indices| - 1])
  }

  /** Every character that was not removed is in one of them. */
  ghost predicate UaxSequences(types: seq<BidiClass>, levels: seq<Level>, base: Level, uax: seq<IsoRun>)
    requires |types| == |levels|
  {
    && (forall s :: 0 <= s < |uax| ==> UaxSequence(types, levels, base, uax[s]))
    && Disjoint(uax) && Covering(levels, uax) && BoundedRuns(levels, uax)
  }

  /** The rules of UAX #9, one after the other, in every sequence. */
  ghost predicate UaxResolved(types: seq<BidiClass>, base: Level, paragraph: seq<char>, lookup: BracketTable, st: Stages,
                              classes: seq<BidiClass>, levels: seq<Level>)
  {
    && |types| == |st.explicitClasses| == |st.explicitLevels| == |st.weak| == |st.paired| == |classes| == |levels|
    && (paragraph != [] ==> |paragraph| == |types|)
    && UaxExplained(types, base, st.explicitClasses, st.explicitLevels)
    && UaxSequences(types, st.explicitLevels, base, st.isoRuns)
    && AllUaxWeakened(st.explicitClasses, st.weak, st.explicitLevels, st.isoRuns)
    && (if paragraph == [] then st.paired == st.weak
        else EachOnItsOwn(st.weak, st.paired, types, st.explicitLevels, st.isoRuns, paragraph, lookup, |st.isoRuns|))
    && AllNeutralized(st.paired, classes, st.explicitLevels, st.isoRuns)
    && Levelled(st.explicitLevels, classes, levels)
  }

  // ----- X1-X9 -----

  lemma NoFullPushBefore(types: seq<BidiClass>, base: Level, n: nat)
    requires NoneIgnored(types, base) && n <= |types|
    ensures NoFullPush(types, base, SOURCE_CAPACITY, n)
  {
    hide FullPush, RunTo, FsiIsRtl;
  }

  /** With room on the stack X1-X9 are those of UAX #9. */
  lemma ExplainedAsUax(types: seq<BidiClass>, base: Level, c: seq<BidiClass>, l: seq<Level>, c': seq<BidiClass>, l': seq<Level>)
    requires NoneIgnored(types, base) && Explained(types, base, c, l) && UaxExplained(types, base, c', l')
    ensures c == c' && l == l'
  {
    hide NoFullPush, RunTo, NoneIgnored, ClassBetween, LevelBetween;
    forall i | 0 <= i < |types| ensures c[i] == c'[i] && l[i] == l'[i] {
      NoFullPushBefore(types, base, i);
      NoFullPushBefore(types, base, i + 1);
      AgreesWithUax(types, base, i);
      AgreesWithUax(types, base, i + 1);
      assert ExplainedAt(types, base, i, c[i], l[i]) && UaxExplainedAt(types, base, i, c'[i], l'[i]);
    }
  }

  /** What is known of the characters of an explained paragraph. */
  ghost predicate Characters(types: seq<BidiClass>, base: Level, classes: seq<BidiClass>, levels: seq<Level>) {
    && |types| == |classes| == |levels|
    && (forall i :: 0 <= i < |types| ==> (levels[i] == NO_LEVEL <==> types[i].IsFormat()))
    && (forall i :: 0 <= i < |types| ==> (levels[i] == NO_LEVEL <==> classes[i].IsFormat()))
    && (forall i :: 0 <= i < |types| ==> classes[i] == types[i] || classes[i] in {LeftToRight, RightToLeft})
    && (forall i :: 0 <= i < |types| && types[i] == ParagraphSeparator ==>
          classes[i] == ParagraphSeparator && levels[i] == base != NO_LEVEL && i == |types| - 1)
  }

  lemma ExplainedCharacters(types: seq<BidiClass>, base: Level, classes: seq<BidiClass>, levels: seq<Level>)
    requires Unhindered(types, base) && Explained(types, base, classes, levels)
    ensures Characters(types, base, classes, levels)
  {
    hide NoneIgnored, RunTo;
    ExplainedInert(types, base, classes, levels);
    forall i | 0 <= i < |types|
      ensures classes[i] == types[i] || classes[i] in {LeftToRight, RightToLeft}
      ensures types[i] == ParagraphSeparator ==> classes[i] == ParagraphSeparator && levels[i] == base
    {
      assert ExplainedAt(types, base, i, classes[i], levels[i]);
      LevelInStates(types, base, classes, levels, i);
    }
  }

  // ----- The cores of the chains -----

  /** What follows in the core of a chain. */
  function CoreNext(types: seq<BidiClass>, levels: seq<Level>, i: nat): Option<nat>
    requires i < |types| == |levels|
  {
    var n := UaxNext(types, levels, i);
    if n.Some? && types[n.value] == ParagraphSeparator then None else n
  }

  ghost predicate CoreChain(types: seq<BidiClass>, levels: seq<Level>, core: seq<nat>)
    requires |types| == |levels|
  {
    forall k :: 0 <= k < |core| ==> CoreLink(types, levels, core, k)
  }

  ghost predicate CoreLink(types: seq<BidiClass>, levels: seq<Level>, core: seq<nat>, k: nat)
    requires k < |core| && |types| == |levels|
  {
    core[k] < |types| && CoreNext(types, levels, core[k]) == if k + 1 < |core| then Some(core[k + 1]) else None
  }

  lemma CoreStep(types: seq<BidiClass>, levels: seq<Level>, core: seq<nat>, k: nat)
    requires |types| == |levels| && CoreChain(types, levels, core) && k < |core|
    ensures core[k] < |types| && CoreNext(types, levels, core[k]) == if k + 1 < |core| then Some(core[k + 1]) else None
  {
    assert CoreLink(types, levels, core, k);
  }

  /** The next one of the chain, unless it is the separator, is the next one of the core. */
  lemma CoreSuccessor(types: seq<BidiClass>, levels: seq<Level>, indices: seq<nat>, k: nat, next: Option<nat>)
    requires |types| == |levels| && Bounded(levels, indices) && Increasing(indices)
    requires forall i :: 0 <= i < |types| - 1 ==> types[i] != ParagraphSeparator
    requires var core := Core(types, levels, indices); k < |core| && NextInChain(levels, indices, core[k], next)
    ensures next.Some? ==> next.value < |types|
    ensures var core := Core(types, levels, indices);
      if k + 1 < |core| then next == Some(core[k + 1]) && types[core[k + 1]] != ParagraphSeparator
      else next.None? || types[next.value] == ParagraphSeparator
  {
    hide Core;
    var core := Core(types, levels, indices);
    CoreIncreasing(types, levels, indices);
    InCore(types, levels, indices, core[k]);
    if next.Some? {
      InCore(types, levels, indices, next.value);
      if next.value in core {
        var h :| 0 <= h < |core| && core[h] == next.value;
        IncreasingOrder(core, k, h);
      }
    }
    if k + 1 < |core| {
      InCore(types, levels, indices, core[k + 1]);
    }
  }

  /** Two cores that meet are the same from there on. */
  lemma {:induction false} SameOnward(types: seq<BidiClass>, levels: seq<Level>, a: seq<nat>, b: seq<nat>, j: nat, k: nat)
    requires |types| == |levels| && CoreChain(types, levels, a) && CoreChain(types, levels, b)
    requires j < |a| && k < |b| && a[j] == b[k]
    ensures a[j..] == b[k..]
    decreases |a| - j
  {
    hide CoreNext;
    CoreStep(types, levels, a, j);
    CoreStep(types, levels, b, k);
    if j + 1 < |a| { SameOnward(types, levels, a, b, j + 1, k + 1); }
    assert a[j..] == [a[j]] + a[j + 1..] && b[k..] == [b[k]] + b[k + 1..];
  }

  ghost predicate CoreChains(types: seq<BidiClass>, levels: seq<Level>, isoRuns: seq<IsoRun>) {
    && |types| == |levels| && Disjoint(isoRuns) && Covering(levels, isoRuns) && BoundedRuns(levels, isoRuns)
    && forall s :: 0 <= s < |isoRuns| ==>
         Increasing(isoRuns[s].indices) && CoreChain(types, levels, Core(types, levels, isoRuns[s].indices))
  }

  /** Whatever comes before in one core does in the other. */
  lemma {:induction false} SameBack(types: seq<BidiClass>, levels: seq<Level>, a: seq<nat>, isoRuns: seq<IsoRun>, t: nat, j: nat, k: nat)
    requires CoreChains(types, levels, isoRuns) && CoreChain(types, levels, a) && t < |isoRuns|
    requires forall h :: 0 <= h < |a| ==> a[h] < |levels| && !Idle(types, levels, a[h])
    requires var b := Core(types, levels, isoRuns[t].indices); j < |a| && k < |b| && a[j] == b[k]
    ensures j <= k && Core(types, levels, isoRuns[t].indices)[k - j] == a[0]
    decreases j
  {
    hide CoreNext, Core, CoreChain, Disjoint, Increasing;
    if j > 0 {
      var b, x := Core(types, levels, isoRuns[t].indices), a[j - 1];
      var u :| 0 <= u < |isoRuns| && x in isoRuns[u].indices;
      var d := Core(types, levels, isoRuns[u].indices);
      InCore(types, levels, isoRuns[u].indices, x);
      var h :| 0 <= h < |d| && d[h] == x;
      CoreStep(types, levels, a, j - 1);
      CoreStep(types, levels, d, h);
      InCore(types, levels, isoRuns[u].indices, d[h + 1]);
      InCore(types, levels, isoRuns[t].indices, b[k]);
      OneChain(isoRuns, u, t, b[k]);
      CoreIncreasing(types, levels, isoRuns[t].indices);
      IncreasingOrder(b, h + 1, k);
      SameBack(types, levels, a, isoRuns, t, j - 1, h);
    }
  }

  lemma OneChain(isoRuns: seq<IsoRun>, s: nat, t: nat, i: nat)
    requires Disjoint(isoRuns) && s < |isoRuns| && t < |isoRuns| && i in isoRuns[s].indices && i in isoRuns[t].indices
    ensures s == t
  {
  }

  lemma CoreBusy(types: seq<BidiClass>, levels: seq<Level>, indices: seq<nat>)
    requires |types| == |levels| && Bounded(levels, indices)
    ensures var a := Core(types, levels, indices); forall h :: 0 <= h < |a| ==> a[h] < |levels| && !Idle(types, levels, a[h])
  {
    hide Core, Idle;
    var a := Core(types, levels, indices);
    forall h | 0 <= h < |a| ensures !Idle(types, levels, a[h]) { InCore(types, levels, indices, a[h]); }
  }

  /** Two gatherings that go on alike have the same cores. */
  lemma SameCores(types: seq<BidiClass>, levels: seq<Level>, isoA: seq<IsoRun>, isoB: seq<IsoRun>, s: nat, t: nat, i: nat)
    requires CoreChains(types, levels, isoA) && CoreChains(types, levels, isoB) && s < |isoA| && t < |isoB|
    requires i < |levels| && i in isoA[s].indices && i in isoB[t].indices && !Idle(types, levels, i)
    ensures Core(types, levels, isoA[s].indices) == Core(types, levels, isoB[t].indices)
    ensures i in Core(types, levels, isoA[s].indices)
  {
    hide CoreNext, Core, CoreChain, Disjoint, Idle;
    var a, b := Core(types, levels, isoA[s].indices), Core(types, levels, isoB[t].indices);
    InCore(types, levels, isoA[s].indices, i);
    InCore(types, levels, isoB[t].indices, i);
    var j :| 0 <= j < |a| && a[j] == i;
    var k :| 0 <= k < |b| && b[k] == i;
    CoreBusy(types, levels, isoA[s].indices);
    CoreBusy(types, levels, isoB[t].indices);
    SameBack(types, levels, a, isoB, t, j, k);
    SameBack(types, levels, b, isoA, s, k, j);
    SameOnward(types, levels, a, b, 0, 0);
    assert a[0..] == a && b[0..] == b;
  }

  // ----- The sequences of the source and of UAX #9 -----

  /** A paragraph with room on the stack, in which no initiator is parted from anything but
      the separator at the end, and none is unlinked. */
  ghost predicate Comparable(types: seq<BidiClass>, base: Level, classes: seq<BidiClass>, levels: seq<Level>, runs: seq<Run>, isoRuns: seq<IsoRun>) {
    && Unhindered(types, base) && Explained(types, base, classes, levels)
    && Sequences(classes, levels, base, runs, isoRuns)
    && NoneAstrayFrom(types, classes, levels)
  }

  ghost predicate NoneAstrayFrom(types: seq<BidiClass>, classes: seq<BidiClass>, levels: seq<Level>) {
    && |types| == |classes| == |levels|
    && (forall e :: 0 <= e < |types| && PartedFrom(types, classes, levels, e) ==> BeforeSeparator(types, levels, e))
    && (forall e :: 0 <= e < |types| ==> !Unlinked(types, classes, levels, e))
  }

  lemma ComparableFacts(types: seq<BidiClass>, base: Level, classes: seq<BidiClass>, levels: seq<Level>, runs: seq<Run>, isoRuns: seq<IsoRun>)
    requires Comparable(types, base, classes, levels, runs, isoRuns)
    ensures Gathered(types, base, classes, levels, runs, isoRuns) && Finished(runs, isoRuns)
    ensures Characters(types, base, classes, levels) && NoneAstrayFrom(types, classes, levels) && InRange(classes, levels, runs)
    ensures Chains(levels, isoRuns) && BoundedRuns(levels, isoRuns)
  {
    hide Unhindered, Explained, Tiling, TailRemoved, Partition, Greedy, Finished, Characters, NoneAstrayFrom, RunsEnded, SequencesEnded, Chains;
    ExplainedLengths(types, base, classes, levels);
    ExplainedCharacters(types, base, classes, levels);
    TilingInRange(classes, levels, runs);
    SequencesAreChains(classes, levels, runs, isoRuns);
  }

  /** How a chain of the source goes on. */
  lemma SourceNext(types: seq<BidiClass>, base: Level, classes: seq<BidiClass>, levels: seq<Level>, runs: seq<Run>, isoRuns: seq<IsoRun>, s: nat, i: nat)
    requires Comparable(types, base, classes, levels, runs, isoRuns) && s < |isoRuns|
    requires |types| == |classes| == |levels| && i < |levels| && i in isoRuns[s].indices && levels[i] != NO_LEVEL
    ensures NextInChain(levels, isoRuns[s].indices, i, if PartedFrom(types, classes, levels, i) then None else UaxNext(types, levels, i))
  {
    hide Comparable, Gathered, Finished, Characters, PartedFrom, Unlinked, BeforeSeparator, UaxNext, NextCharacter.RunNext, NextInChain, Chains, InRange;
    ComparableFacts(types, base, classes, levels, runs, isoRuns);
    var k, r := ChainNext(types, base, classes, levels, runs, isoRuns, s, i);
    RunNextIsRight(types, base, classes, levels, runs, isoRuns, s, k, r, i);
  }

  lemma PartedCore(types: seq<BidiClass>, classes: seq<BidiClass>, levels: seq<Level>, e: nat)
    requires e < |types| == |classes| == |levels| && PartedFrom(types, classes, levels, e) && BeforeSeparator(types, levels, e)
    ensures CoreNext(types, levels, e) == None
    ensures var n := FirstLive(levels, e + 1, |levels|); n.Some? && UaxNext(types, levels, e) == n && levels[n.value] == levels[e]
    ensures classes[e].IsIsoInit()
  {
  }

  lemma SourceCores(types: seq<BidiClass>, base: Level, classes: seq<BidiClass>, levels: seq<Level>, runs: seq<Run>, isoRuns: seq<IsoRun>)
    requires Comparable(types, base, classes, levels, runs, isoRuns)
    ensures CoreChains(types, levels, isoRuns)
  {
    hide Comparable, Gathered, Finished, PartedFrom, Unlinked, BeforeSeparator, UaxNext, NextInChain, InRange, Core;
    ComparableFacts(types, base, classes, levels, runs, isoRuns);
    forall s | 0 <= s < |isoRuns|
      ensures Increasing(isoRuns[s].indices) && CoreChain(types, levels, Core(types, levels, isoRuns[s].indices))
    {
      assert Chain(levels, isoRuns[s]);
      SourceCore(types, base, classes, levels, runs, isoRuns, s);
    }
  }

  lemma SourceCore(types: seq<BidiClass>, base: Level, classes: seq<BidiClass>, levels: seq<Level>, runs: seq<Run>, isoRuns: seq<IsoRun>, s: nat)
    requires Comparable(types, base, classes, levels, runs, isoRuns) && s < |isoRuns| && |types| == |levels|
    requires Chain(levels, isoRuns[s])
    ensures CoreChain(types, levels, Core(types, levels, isoRuns[s].indices))
  {
    hide Comparable, Gathered, Finished, PartedFrom, Unlinked, BeforeSeparator, UaxNext, NextInChain, InRange, Core, Chains, Increasing;
    ComparableFacts(types, base, classes, levels, runs, isoRuns);
    var indices := isoRuns[s].indices;
    var core := Core(types, levels, indices);
    forall k | 0 <= k < |core| ensures CoreLink(types, levels, core, k) {
      var i := core[k];
      InCore(types, levels, indices, i);
      SourceNext(types, base, classes, levels, runs, isoRuns, s, i);
      CoreSuccessor(types, levels, indices, k, if PartedFrom(types, classes, levels, i) then None else UaxNext(types, levels, i));
      if PartedFrom(types, classes, levels, i) { PartedCore(types, classes, levels, i); }
    }
  }

  lemma UaxNextInChain(types: seq<BidiClass>, base: Level, levels: seq<Level>, u: IsoRun, i: nat)
    requires |types| == |levels| && UaxSequence(types, levels, base, u) && i in u.indices
    ensures NextInChain(levels, u.indices, i, UaxNext(types, levels, i))
  {
    hide UaxNext, SosOf, EosOf;
    var k :| 0 <= k < |u.indices| && u.indices[k] == i;
    assert UaxLink(types, levels, u.indices, k);
    forall m | i < m < |levels| && m in u.indices ensures k + 1 < |u.indices| && u.indices[k + 1] <= m {
      var h :| 0 <= h < |u.indices| && u.indices[h] == m;
      IncreasingOrder(u.indices, k, h);
      IncreasingOrder(u.indices, h, k + 1);
    }
  }

  lemma UaxCores(types: seq<BidiClass>, base: Level, classes: seq<BidiClass>, levels: seq<Level>, uax: seq<IsoRun>)
    requires Characters(types, base, classes, levels) && UaxSequences(types, levels, base, uax)
    ensures CoreChains(types, levels, uax)
  {
    hide UaxNext, Core, NextInChain, SosOf, EosOf;
    forall s | 0 <= s < |uax|
      ensures Increasing(uax[s].indices) && CoreChain(types, levels, Core(types, levels, uax[s].indices))
    {
      UaxCore(types, base, levels, uax[s]);
    }
  }

  lemma UaxCore(types: seq<BidiClass>, base: Level, levels: seq<Level>, u: IsoRun)
    requires |types| == |levels| && UaxSequence(types, levels, base, u) && Bounded(levels, u.indices)
    requires forall i :: 0 <= i < |types| - 1 ==> types[i] != ParagraphSeparator
    ensures CoreChain(types, levels, Core(types, levels, u.indices))
  {
    hide UaxNext, Core, NextInChain, SosOf, EosOf, UaxSequence;
    var core := Core(types, levels, u.indices);
    forall k | 0 <= k < |core| ensures CoreLink(types, levels, core, k) {
      InCore(types, levels, u.indices, core[k]);
      UaxNextInChain(types, base, levels, u, core[k]);
      UaxIncreasing(types, base, levels, u);
      CoreSuccessor(types, levels, u.indices, k, UaxNext(types, levels, core[k]));
    }
  }

  lemma UaxIncreasing(types: seq<BidiClass>, base: Level, levels: seq<Level>, u: IsoRun)
    requires |types| == |levels| && UaxSequence(types, levels, base, u)
    ensures Increasing(u.indices) && u.indices != []
  {
  }

  // ----- Their ends -----

  lemma CoreFirst(types: seq<BidiClass>, levels: seq<Level>, indices: seq<nat>, first: nat)
    requires |types| == |levels| && Bounded(levels, indices) && Increasing(indices)
    requires forall i :: 0 <= i < |types| - 1 ==> types[i] != ParagraphSeparator
    requires Core(types, levels, indices) != [] && IsFirst(levels, indices, first)
    ensures first == Core(types, levels, indices)[0]
  {
    hide Core;
    var core := Core(types, levels, indices);
    CoreIncreasing(types, levels, indices);
    InCore(types, levels, indices, core[0]);
    InCore(types, levels, indices, first);
    if first in core {
      var h :| 0 <= h < |core| && core[h] == first;
      IncreasingOrder(core, 0, h);
    }
  }

  lemma CoreLast(types: seq<BidiClass>, levels: seq<Level>, indices: seq<nat>, last: nat)
    requires |types| == |levels| && Bounded(levels, indices) && Increasing(indices)
    requires Core(types, levels, indices) != [] && IsLast(levels, indices, last)
    ensures var core := Core(types, levels, indices); last == core[|core| - 1] || types[last] == ParagraphSeparator
  {
    hide Core;
    var core := Core(types, levels, indices);
    CoreIncreasing(types, levels, indices);
    InCore(types, levels, indices, core[|core| - 1]);
    InCore(types, levels, indices, last);
    if last in core {
      var h :| 0 <= h < |core| && core[h] == last;
      IncreasingOrder(core, h, |core| - 1);
    }
  }

  lemma UaxEnds(types: seq<BidiClass>, base: Level, levels: seq<Level>, u: IsoRun) returns (first: nat, last: nat)
    requires |types| == |levels| && UaxSequence(types, levels, base, u)
    ensures IsFirst(levels, u.indices, first) && IsLast(levels, u.indices, last)
    ensures first < |levels| && last < |levels| && levels[first] == u.level
    ensures u.sos == SosOf(levels, base, first) && u.eos == EosOf(types, levels, base, last)
    ensures forall i :: i in u.indices ==> i < |levels| && levels[i] == u.level
  {
    hide UaxLink, SosOf, EosOf;
    first, last := u.indices[0], u.indices[|u.indices| - 1];
  }

  /** A chain of the source holds the separator after its last other character exactly if the
      chain of UAX #9 does and the two are not parted. */
  lemma SeparatorInBoth(types: seq<BidiClass>, base: Level, classes: seq<BidiClass>, levels: seq<Level>, runs: seq<Run>, isoRuns: seq<IsoRun>,
                        s: nat, u: IsoRun, e: nat, a: nat, b: nat)
    requires Comparable(types, base, classes, levels, runs, isoRuns) && s < |isoRuns| && |types| == |levels|
    requires UaxSequence(types, levels, base, u)
    requires e in isoRuns[s].indices && e in u.indices && e < |levels| && levels[e] != NO_LEVEL
    requires types[e] != ParagraphSeparator
    requires IsLast(levels, isoRuns[s].indices, a) && (a == e || types[a] == ParagraphSeparator)
    requires IsLast(levels, u.indices, b) && (b == e || types[b] == ParagraphSeparator)
    ensures |types| == |classes|
    ensures a == b || (a == e && types[b] == ParagraphSeparator && PartedFrom(types, classes, levels, e))
  {
    hide Comparable, Gathered, Finished, PartedFrom, Unlinked, BeforeSeparator, UaxNext, InRange, Chains, UaxSequence;
    ComparableFacts(types, base, classes, levels, runs, isoRuns);
    SourceNext(types, base, classes, levels, runs, isoRuns, s, e);
    UaxNextInChain(types, base, levels, u, e);
  }

  /** The two chains of a character have one level and begin alike, and end alike unless the
      last character is strong. */
  lemma EndsAgree(types: seq<BidiClass>, base: Level, classes: seq<BidiClass>, levels: seq<Level>, runs: seq<Run>, isoRuns: seq<IsoRun>,
                  s: nat, u: IsoRun, core: seq<nat>, e: nat)
    requires |types| == |levels| && s < |isoRuns| && core != [] && e == core[|core| - 1]
    requires Comparable(types, base, classes, levels, runs, isoRuns)
    requires Bounded(levels, isoRuns[s].indices) && Bounded(levels, u.indices) && UaxSequence(types, levels, base, u)
    requires core == Core(types, levels, isoRuns[s].indices) && core == Core(types, levels, u.indices)
    ensures isoRuns[s].level == u.level && isoRuns[s].sos == u.sos
    ensures e < |classes| && (isoRuns[s].eos == u.eos || classes[e] in {LeftToRight, RightToLeft})
  {
    hide Comparable, Gathered, Finished, PartedFrom, Unlinked, BeforeSeparator, InRange, Core, IsFirst, IsLast, NearestBefore,
      NearestFrom, ClassOf, UaxSequence, Increasing, Chain, EosOf, SosOf;
    ComparableFacts(types, base, classes, levels, runs, isoRuns);
    assert Chain(levels, isoRuns[s]);
    ChainParts(levels, isoRuns[s]);
    var a0, a := SourceEnds(types, base, classes, levels, runs, isoRuns, s);
    var b0, b := UaxEnds(types, base, levels, u);
    UaxIncreasing(types, base, levels, u);
    CoreFirst(types, levels, isoRuns[s].indices, a0);
    CoreFirst(types, levels, u.indices, b0);
    CoreLast(types, levels, isoRuns[s].indices, a);
    CoreLast(types, levels, u.indices, b);
    InCore(types, levels, isoRuns[s].indices, e);
    InCore(types, levels, u.indices, e);
    SeparatorInBoth(types, base, classes, levels, runs, isoRuns, s, u, e, a, b);
    LastIn(levels, u.indices, b);
    LastKinds(types, base, classes, levels, e, a, b);
  }

  lemma LastIn(levels: seq<Level>, indices: seq<nat>, last: nat)
    requires IsLast(levels, indices, last)
    ensures last in indices
  {
  }

  lemma ChainParts(levels: seq<Level>, run: IsoRun)
    requires Chain(levels, run)
    ensures Bounded(levels, run.indices) && Increasing(run.indices)
    ensures run.sos in {LeftToRight, RightToLeft} && run.eos in {LeftToRight, RightToLeft}
  {
  }

  lemma SourceEnds(types: seq<BidiClass>, base: Level, classes: seq<BidiClass>, levels: seq<Level>, runs: seq<Run>, isoRuns: seq<IsoRun>, s: nat)
    returns (first: nat, last: nat)
    requires Comparable(types, base, classes, levels, runs, isoRuns) && s < |isoRuns|
    ensures IsFirst(levels, isoRuns[s].indices, first) && IsLast(levels, isoRuns[s].indices, last)
    ensures |classes| == |levels| && first < |levels| && last < |levels| && levels[first] == levels[last] == isoRuns[s].level
    ensures isoRuns[s].sos == SosOf(levels, base, first) && isoRuns[s].eos == EosOf(classes, levels, base, last)
  {
    hide Sequences, Unhindered, Explained, IsFirst, IsLast, SosOf, EosOf;
    ExplainedInert(types, base, classes, levels);
    first, last := EndsByCharacters(classes, levels, base, runs, isoRuns, s);
  }

  lemma LastKinds(types: seq<BidiClass>, base: Level, classes: seq<BidiClass>, levels: seq<Level>, e: nat, a: nat, b: nat)
    requires Characters(types, base, classes, levels) && e < |levels| && a < |levels| && b < |levels|
    requires levels[a] == levels[b] == levels[e] && types[e] != ParagraphSeparator
    requires a == e || types[a] == ParagraphSeparator
    requires a == b || (a == e && types[b] == ParagraphSeparator && PartedFrom(types, classes, levels, e))
    ensures EosOf(classes, levels, base, a) == EosOf(types, levels, base, b) || classes[e] in {LeftToRight, RightToLeft}
  {
    hide ClassOf;
  }

  // ----- The rules along one chain -----

  /** A chain that may hold the separator at its end, where it takes the base direction. */
  ghost predicate Fits(types: seq<BidiClass>, levels: seq<Level>, base: Level, run: IsoRun) {
    && |types| == |levels| && Bounded(levels, run.indices) && Increasing(run.indices)
    && SeparatorLast(types, levels, run.indices)
    && run.sos in {LeftToRight, RightToLeft} && run.eos in {LeftToRight, RightToLeft}
    && (EndsInSeparator(types, levels, run.indices) ==> run.level == base && run.eos == ClassOf(base))
  }

  ghost predicate EndsInSeparator(types: seq<BidiClass>, levels: seq<Level>, indices: seq<nat>)
    requires |types| == |levels| && Bounded(levels, indices)
  {
    indices != [] && levels[indices[|indices| - 1]] != NO_LEVEL && types[indices[|indices| - 1]] == ParagraphSeparator
  }

  lemma OnlyAtTheEnd(types: seq<BidiClass>, levels: seq<Level>, indices: seq<nat>)
    requires |types| == |levels| && Bounded(levels, indices) && Increasing(indices)
    requires forall i :: 0 <= i < |types| - 1 ==> types[i] != ParagraphSeparator
    ensures SeparatorLast(types, levels, indices)
  {
    forall p | 0 <= p < |indices| - 1 ensures types[indices[p]] != ParagraphSeparator {
      assert indices[p] < indices[p + 1];
    }
  }

  lemma LastOfList(levels: seq<Level>, indices: seq<nat>, last: nat)
    requires Bounded(levels, indices) && Increasing(indices) && IsLast(levels, indices, last)
    requires indices != [] && levels[indices[|indices| - 1]] != NO_LEVEL
    ensures last == indices[|indices| - 1]
  {
    var k :| 0 <= k < |indices| && indices[k] == last;
    IncreasingOrder(indices, k, |indices| - 1);
  }

  lemma EndsAtBase(types: seq<BidiClass>, base: Level, classes: seq<BidiClass>, levels: seq<Level>, z: nat)
    requires Characters(types, base, classes, levels) && z < |types| && types[z] == ParagraphSeparator
    ensures levels[z] == base && EosOf(classes, levels, base, z) == EosOf(types, levels, base, z) == ClassOf(base)
  {
  }

  lemma SourceFits(types: seq<BidiClass>, base: Level, classes: seq<BidiClass>, levels: seq<Level>, runs: seq<Run>, isoRuns: seq<IsoRun>, s: nat)
    requires Comparable(types, base, classes, levels, runs, isoRuns) && s < |isoRuns|
    ensures Fits(types, levels, base, isoRuns[s])
  {
    hide Comparable, Gathered, Finished, InRange, IsLast, IsFirst, EosOf, SosOf, ClassOf, Chain, SeparatorLast, NoneAstrayFrom;
    ComparableFacts(types, base, classes, levels, runs, isoRuns);
    assert Chain(levels, isoRuns[s]);
    ChainParts(levels, isoRuns[s]);
    var a0, a := SourceEnds(types, base, classes, levels, runs, isoRuns, s);
    OnlyAtTheEnd(types, levels, isoRuns[s].indices);
    if EndsInSeparator(types, levels, isoRuns[s].indices) {
      LastOfList(levels, isoRuns[s].indices, a);
      EndsAtBase(types, base, classes, levels, a);
    }
  }

  lemma UaxFits(types: seq<BidiClass>, base: Level, classes: seq<BidiClass>, levels: seq<Level>, u: IsoRun)
    requires Characters(types, base, classes, levels) && UaxSequence(types, levels, base, u)
    ensures Fits(types, levels, base, u)
  {
    hide UaxLink;
    OnlyAtTheEnd(types, levels, u.indices);
    if EndsInSeparator(types, levels, u.indices) {
      EndsAtBase(types, base, classes, levels, u.indices[|u.indices| - 1]);
    }
  }

  /** The classes of a chain, and so those of its core and that of the separator. */
  lemma LiveApart(after: seq<BidiClass>, types: seq<BidiClass>, levels: seq<Level>, base: Level, run: IsoRun, x: seq<BidiClass>, z: BidiClass)
    requires Fits(types, levels, base, run) && |after| == |levels|
    requires |x| == |Live(after, levels, Core(types, levels, run.indices))|
    requires Live(after, levels, run.indices) == x + if EndsInSeparator(types, levels, run.indices) then [z] else []
    ensures Live(after, levels, Core(types, levels, run.indices)) == x
    ensures EndsInSeparator(types, levels, run.indices) ==> after[run.indices[|run.indices| - 1]] == z
  {
    hide Live, Core;
    LiveCore(after, types, levels, run.indices);
    var c, w := Live(after, levels, Core(types, levels, run.indices)), SeparatorOf(after, types, levels, run.indices);
    assert (c + w)[..|c|] == c && (c + w)[|c|..] == w;
    var v := if EndsInSeparator(types, levels, run.indices) then [z] else [];
    assert (x + v)[..|x|] == x && (x + v)[|x|..] == v;
  }

  /** The separator has its class. */
  ghost predicate SeparatorKept(a: seq<BidiClass>, types: seq<BidiClass>, levels: seq<Level>) {
    |a| == |types| == |levels| && forall i :: 0 <= i < |a| && levels[i] != NO_LEVEL && types[i] == ParagraphSeparator ==> a[i] == ParagraphSeparator
  }

  /** What W1-W7 do, in the source and in UAX #9, they do to the core. */
  lemma CoreWeakened(start: seq<BidiClass>, after: seq<BidiClass>, types: seq<BidiClass>, levels: seq<Level>, base: Level, run: IsoRun, uax: bool)
    requires Fits(types, levels, base, run) && |start| == |after| == |levels|
    requires SeparatorKept(start, types, levels)
    requires var cs := Live(start, levels, run.indices);
      Live(after, levels, run.indices) == if uax then UaxWeakened(cs, run) else Weakened(cs, run)
    ensures var cs := Live(start, levels, Core(types, levels, run.indices));
      Live(after, levels, Core(types, levels, run.indices)) == if uax then UaxWeakened(cs, run) else Weakened(cs, run)
    ensures EndsInSeparator(types, levels, run.indices) ==> after[run.indices[|run.indices| - 1]] == ParagraphSeparator
  {
    hide Live, Core, Weakened, UaxWeakened;
    LiveCore(start, types, levels, run.indices);
    var cs := Live(start, levels, Core(types, levels, run.indices));
    LiveLength(start, after, levels, Core(types, levels, run.indices));
    WeakenedAppend(cs, run);
    assert cs + [] == cs;
    LiveApart(after, types, levels, base, run, if uax then UaxWeakened(cs, run) else Weakened(cs, run), ParagraphSeparator);
  }

  /** And so do N1 and N2. */
  lemma CoreNeutralized(start: seq<BidiClass>, after: seq<BidiClass>, types: seq<BidiClass>, levels: seq<Level>, base: Level, run: IsoRun)
    requires Fits(types, levels, base, run) && |start| == |after| == |levels|
    requires SeparatorKept(start, types, levels)
    requires Live(after, levels, run.indices) == Neutralized(Live(start, levels, run.indices), run)
    ensures Live(after, levels, Core(types, levels, run.indices)) == Neutralized(Live(start, levels, Core(types, levels, run.indices)), run)
    ensures EndsInSeparator(types, levels, run.indices) ==> after[run.indices[|run.indices| - 1]] == ClassOf(base)
  {
    hide Live, Core, Neutralized, ClassOf;
    LiveCore(start, types, levels, run.indices);
    var cs := Live(start, levels, Core(types, levels, run.indices));
    LiveLength(start, after, levels, Core(types, levels, run.indices));
    assert cs + [] == cs;
    if EndsInSeparator(types, levels, run.indices) { NeutralizedAppend(cs, run); }
    LiveApart(after, types, levels, base, run, Neutralized(cs, run), ClassOf(base));
  }

  // ----- N0 along one chain -----

  /** What N0 reads of the idle characters. */
  ghost predicate IdleKept(start: seq<BidiClass>, types: seq<BidiClass>, levels: seq<Level>)
    requires |start| == |types| == |levels|
  {
    forall i :: 0 <= i < |levels| && Idle(types, levels, i) ==>
      start[i] != OtherNeutral && Neutral.SideOf(start[i]).None? && types[i] != NonspacingMark
  }

  /** N0 on a chain is N0 on its core, and leaves the idle characters alone. */
  lemma CorePaired(start: seq<BidiClass>, paired: seq<BidiClass>, types: seq<BidiClass>, levels: seq<Level>, base: Level,
                   run: IsoRun, paragraph: seq<char>, lookup: BracketTable) returns (t: seq<BidiClass>)
    requires Fits(types, levels, base, run) && |start| == |paired| == |levels| == |paragraph| && IdleKept(start, types, levels)
    requires OnItsOwn(start, paired, types, levels, run, paragraph, lookup)
    ensures OneStep(start, t, types, levels, CoreRun(run, Core(types, levels, run.indices)), paragraph, lookup) && |t| == |start|
    ensures forall i :: i in Core(types, levels, run.indices) ==> i < |start| && paired[i] == t[i]
    ensures forall i :: i in run.indices && Idle(types, levels, i) ==> paired[i] == start[i]
    ensures SetsSides(start, t)
  {
    hide OneStep, Core, Idle, SeparatorLast, Resolvable;
    t :| OneStep(start, t, types, levels, run, paragraph, lookup) && AgreeOn(t, paired, run.indices);
    QuietKept(start, types, levels, run.indices);
    CoreOfStep(start, t, types, levels, run, paragraph, lookup);
    OneEffect(start, t, types, levels, CoreRun(run, Core(types, levels, run.indices)), paragraph, lookup);
    forall i | i in run.indices ensures paired[i] == t[i] {
      var k :| 0 <= k < |run.indices| && run.indices[k] == i;
    }
    forall i | i in Core(types, levels, run.indices) ensures i in run.indices { InCore(types, levels, run.indices, i); }
    forall i | i in run.indices && Idle(types, levels, i) ensures t[i] == start[i] { InCore(types, levels, run.indices, i); }
  }

  lemma QuietKept(start: seq<BidiClass>, types: seq<BidiClass>, levels: seq<Level>, indices: seq<nat>)
    requires |start| == |types| == |levels| && Bounded(levels, indices) && IdleKept(start, types, levels)
    ensures Quiet(start, types, levels, indices)
  {
  }

  // ----- Both gatherings -----

  ghost predicate AllFit(types: seq<BidiClass>, levels: seq<Level>, base: Level, isoRuns: seq<IsoRun>) {
    && |types| == |levels| && BoundedRuns(levels, isoRuns) && Covering(levels, isoRuns)
    && forall s :: 0 <= s < |isoRuns| ==> Fits(types, levels, base, isoRuns[s])
  }

  /** The sequences of the source and those of UAX #9 for one paragraph. */
  ghost predicate Facing(types: seq<BidiClass>, base: Level, classes: seq<BidiClass>, levels: seq<Level>,
                         runs: seq<Run>, isoRuns: seq<IsoRun>, uax: seq<IsoRun>) {
    Comparable(types, base, classes, levels, runs, isoRuns) && |types| == |levels| && UaxSequences(types, levels, base, uax)
  }

  lemma FacingFit(types: seq<BidiClass>, base: Level, classes: seq<BidiClass>, levels: seq<Level>,
                  runs: seq<Run>, isoRuns: seq<IsoRun>, uax: seq<IsoRun>)
    requires Facing(types, base, classes, levels, runs, isoRuns, uax)
    ensures AllFit(types, levels, base, isoRuns) && AllFit(types, levels, base, uax)
    ensures Characters(types, base, classes, levels)
  {
    hide Comparable, Gathered, Finished, InRange, Fits, UaxSequence, NoneAstrayFrom, Chain;
    ComparableFacts(types, base, classes, levels, runs, isoRuns);
    forall s | 0 <= s < |isoRuns| ensures Fits(types, levels, base, isoRuns[s]) {
      SourceFits(types, base, classes, levels, runs, isoRuns, s);
    }
    forall s | 0 <= s < |uax| ensures Fits(types, levels, base, uax[s]) {
      UaxFits(types, base, classes, levels, uax[s]);
    }
  }

  /** What the two chains of a character have in common. */
  ghost predicate Met(types: seq<BidiClass>, classes: seq<BidiClass>, levels: seq<Level>, base: Level, a: IsoRun, u: IsoRun, core: seq<nat>) {
    && Fits(types, levels, base, a) && Fits(types, levels, base, u) && |classes| == |levels|
    && core == Core(types, levels, a.indices) && core == Core(types, levels, u.indices) && core != [] && Bounded(levels, core)
    && a.level == u.level && a.sos == u.sos
    && (a.eos == u.eos || classes[core[|core| - 1]] in {LeftToRight, RightToLeft})
  }

  lemma FacingCores(types: seq<BidiClass>, base: Level, classes: seq<BidiClass>, levels: seq<Level>,
                    runs: seq<Run>, isoRuns: seq<IsoRun>, uax: seq<IsoRun>)
    requires Facing(types, base, classes, levels, runs, isoRuns, uax)
    ensures CoreChains(types, levels, isoRuns) && CoreChains(types, levels, uax)
  {
    hide Comparable, UaxSequences, CoreChains, Characters, AllFit;
    FacingFit(types, base, classes, levels, runs, isoRuns, uax);
    SourceCores(types, base, classes, levels, runs, isoRuns);
    UaxCores(types, base, classes, levels, uax);
  }

  lemma MeetEnds(types: seq<BidiClass>, base: Level, classes: seq<BidiClass>, levels: seq<Level>,
                 runs: seq<Run>, isoRuns: seq<IsoRun>, uax: seq<IsoRun>, s: nat, t: nat, core: seq<nat>)
    requires Facing(types, base, classes, levels, runs, isoRuns, uax) && s < |isoRuns| && t < |uax| && |types| == |levels|
    requires AllFit(types, levels, base, isoRuns) && AllFit(types, levels, base, uax)
    requires core != [] && core == Core(types, levels, isoRuns[s].indices) && core == Core(types, levels, uax[t].indices)
    requires |classes| == |levels|
    ensures Met(types, classes, levels, base, isoRuns[s], uax[t], core)
  {
    hide Comparable, UaxSequence, Core, Fits, Disjoint, Covering;
    assert UaxSequence(types, levels, base, uax[t]);
    EndsAgree(types, base, classes, levels, runs, isoRuns, s, uax[t], core, core[|core| - 1]);
  }

  lemma Meet(types: seq<BidiClass>, base: Level, classes: seq<BidiClass>, levels: seq<Level>,
             runs: seq<Run>, isoRuns: seq<IsoRun>, uax: seq<IsoRun>, i: nat) returns (s: nat, t: nat, core: seq<nat>)
    requires Facing(types, base, classes, levels, runs, isoRuns, uax)
    requires i < |types| == |levels| && !Idle(types, levels, i)
    ensures s < |isoRuns| && t < |uax| && Met(types, classes, levels, base, isoRuns[s], uax[t], core)
    ensures i in core
  {
    hide Facing, Core, CoreChains, Characters, Met, Fits;
    FacingFit(types, base, classes, levels, runs, isoRuns, uax);
    FacingCores(types, base, classes, levels, runs, isoRuns, uax);
    s :| 0 <= s < |isoRuns| && i in isoRuns[s].indices;
    t :| 0 <= t < |uax| && i in uax[t].indices;
    SameCores(types, levels, isoRuns, uax, s, t, i);
    core := Core(types, levels, isoRuns[s].indices);
    CharactersLength(types, base, classes, levels);
    MeetEnds(types, base, classes, levels, runs, isoRuns, uax, s, t, core);
  }

  lemma CharactersLength(types: seq<BidiClass>, base: Level, classes: seq<BidiClass>, levels: seq<Level>)
    requires Characters(types, base, classes, levels)
    ensures |types| == |classes| == |levels|
  {
  }

  // ----- W1-W7 -----

  lemma SeparatorAt(types: seq<BidiClass>, levels: seq<Level>, base: Level, run: IsoRun, i: nat)
    requires Fits(types, levels, base, run) && i in run.indices && levels[i] != NO_LEVEL && types[i] == ParagraphSeparator
    ensures EndsInSeparator(types, levels, run.indices) && i == run.indices[|run.indices| - 1]
  {
    var k :| 0 <= k < |run.indices| && run.indices[k] == i;
  }

  lemma StartsAtSeparator(types: seq<BidiClass>, base: Level, classes: seq<BidiClass>, levels: seq<Level>)
    requires Characters(types, base, classes, levels)
    ensures SeparatorKept(classes, types, levels)
  {
  }

  /** Idle characters keep their classes through W1-W7. */
  lemma WeakIdle(types: seq<BidiClass>, base: Level, classes: seq<BidiClass>, levels: seq<Level>, isoRuns: seq<IsoRun>, weak: seq<BidiClass>, uax: bool)
    requires Characters(types, base, classes, levels) && AllFit(types, levels, base, isoRuns) && |weak| == |levels|
    requires if uax then AllUaxWeakened(classes, weak, levels, isoRuns) else AllWeakened(classes, weak, levels, isoRuns)
    ensures forall i :: 0 <= i < |levels| && Idle(types, levels, i) ==> weak[i] == classes[i]
    ensures IdleKept(weak, types, levels)
  {
    hide Live, Weakened, UaxWeakened, Core, Fits;
    forall i | 0 <= i < |levels| && Idle(types, levels, i) ensures weak[i] == classes[i] {
      if levels[i] != NO_LEVEL {
        var s :| 0 <= s < |isoRuns| && i in isoRuns[s].indices;
        SeparatorAt(types, levels, base, isoRuns[s], i);
        StartsAtSeparator(types, base, classes, levels);
        CoreWeakened(classes, weak, types, levels, base, isoRuns[s], uax);
      }
    }
    IdleClasses(types, base, classes, levels, weak);
  }

  lemma IdleClasses(types: seq<BidiClass>, base: Level, classes: seq<BidiClass>, levels: seq<Level>, weak: seq<BidiClass>)
    requires Characters(types, base, classes, levels) && |weak| == |levels|
    requires forall i :: 0 <= i < |levels| && Idle(types, levels, i) ==> weak[i] == classes[i]
    ensures IdleKept(weak, types, levels)
  {
  }

  /** W1-W7 leave L and R. */
  lemma SidesStay(rule: Rule, cs: seq<BidiClass>, run: IsoRun, k: nat)
    requires k < |cs| && cs[k] in {LeftToRight, RightToLeft} && !rule.RuleN1? && !rule.RuleN2?
    ensures Apply(rule, cs, run)[k] == cs[k]
  {
    hide Weak.StrongBefore, Weak.BaseBefore, Weak.NumberBefore, Weak.NumberAfter;
  }

  lemma WeakenedSides(cs: seq<BidiClass>, run: IsoRun, k: nat)
    requires k < |cs| && cs[k] in {LeftToRight, RightToLeft}
    ensures Weakened(cs, run)[k] == cs[k]
  {
    hide Apply;
    var a1 := Apply(RuleW1, cs, run);
    var a2 := Apply(RuleW2, a1, run);
    var a3 := Apply(RuleW3, a2, run);
    var a4 := Apply(RuleW4, a3, run);
    var a5 := Apply(RuleW5, a4, run);
    var a6 := Apply(RuleW6, a5, run);
    SidesStay(RuleW1, cs, run, k);
    SidesStay(RuleW2, a1, run, k);
    SidesStay(RuleW3, a2, run, k);
    SidesStay(RuleW4, a3, run, k);
    SidesStay(RuleW5, a4, run, k);
    SidesStay(RuleW6, a5, run, k);
    SidesStay(RuleW7, a6, run, k);
  }

  /** The classes of two chains that meet, after W1-W7. */
  lemma WeakMet(types: seq<BidiClass>, base: Level, classes: seq<BidiClass>, levels: seq<Level>, a: IsoRun, u: IsoRun, core: seq<nat>,
                weak: seq<BidiClass>, weak': seq<BidiClass>, i: nat)
    requires Characters(types, base, classes, levels) && Met(types, classes, levels, base, a, u, core)
    requires |weak| == |weak'| == |levels| && i in core
    requires Live(weak, levels, a.indices) == Weakened(Live(classes, levels, a.indices), a)
    requires Live(weak', levels, u.indices) == UaxWeakened(Live(classes, levels, u.indices), u)
    requires !Idle(types, levels, i)
    ensures AlikeAt(weak[i], weak'[i])
    ensures weak[i].IsIsoControl() ==> classes[i].IsIsoControl() || classes[i] == NonspacingMark
    ensures classes[i] in {LeftToRight, RightToLeft} ==> weak[i] == classes[i]
  {
    hide Live, Weakened, UaxWeakened, Core, SeparatorLast, Increasing;
    var cs := Live(classes, levels, core);
    StartsAtSeparator(types, base, classes, levels);
    CoreWeakened(classes, weak, types, levels, base, a, false);
    CoreWeakened(classes, weak', types, levels, base, u, true);
    WeakenedRuns(cs, a, u);
    WeakenedAlike(cs, u);
    var q := LivePlace(classes, weak, weak', levels, core, i);
    assert AlikeAt(Weakened(cs, u)[q], UaxWeakened(cs, u)[q]);
    ControlsLeft(cs, a, q);
    if cs[q] in {LeftToRight, RightToLeft} { WeakenedSides(cs, a, q); }
  }

  // ----- N0 -----

  /** N0 leaves idle characters as they were. */
  lemma PairedIdle(types: seq<BidiClass>, base: Level, levels: seq<Level>, isoRuns: seq<IsoRun>, paragraph: seq<char>, lookup: BracketTable,
                   weak: seq<BidiClass>, paired: seq<BidiClass>)
    requires AllFit(types, levels, base, isoRuns) && |weak| == |levels| == |paragraph| && IdleKept(weak, types, levels)
    requires EachOnItsOwn(weak, paired, types, levels, isoRuns, paragraph, lookup, |isoRuns|)
    ensures |paired| == |weak|
    ensures forall i :: 0 <= i < |levels| && Idle(types, levels, i) ==> paired[i] == weak[i]
  {
    hide OnItsOwn, Fits, IdleKept, OneStep, Core, SetsSides;
    forall i | 0 <= i < |levels| && Idle(types, levels, i) ensures paired[i] == weak[i] {
      if s :| 0 <= s < |isoRuns| && i in isoRuns[s].indices {
        assert OnItsOwn(weak, paired, types, levels, isoRuns[s], paragraph, lookup);
        var t := CorePaired(weak, paired, types, levels, base, isoRuns[s], paragraph, lookup);
      }
    }
  }

  /** The classes of two chains that meet, after N0. */
  lemma PairedMet(types: seq<BidiClass>, base: Level, classes: seq<BidiClass>, levels: seq<Level>, a: IsoRun, u: IsoRun, core: seq<nat>,
                  paragraph: seq<char>, lookup: BracketTable,
                  weak: seq<BidiClass>, paired: seq<BidiClass>, weak': seq<BidiClass>, paired': seq<BidiClass>)
    requires |types| == |weak| == |paired| == |weak'| == |paired'| == |levels| == |paragraph|
    requires Bounded(levels, a.indices) && Bounded(levels, u.indices)
    requires OnItsOwn(weak, paired, types, levels, a, paragraph, lookup) && OnItsOwn(weak', paired', types, levels, u, paragraph, lookup)
    requires Met(types, classes, levels, base, a, u, core) && Alike(weak, weak') && NoControlBrackets(weak, paragraph, lookup)
    requires IdleKept(weak, types, levels) && IdleKept(weak', types, levels)
    ensures forall i :: i in core ==> AlikeAt(paired[i], paired'[i])
    ensures forall i :: i in core && weak[i] in {LeftToRight, RightToLeft} ==> paired[i] in {LeftToRight, RightToLeft}
  {
    hide OnItsOwn, Fits, IdleKept, OneStep, Core, NoControlBrackets;
    FitsBounded(types, levels, base, a);
    FitsBounded(types, levels, base, u);
    var t := CorePaired(weak, paired, types, levels, base, a, paragraph, lookup);
    var t' := CorePaired(weak', paired', types, levels, base, u, paragraph, lookup);
    OneAlike(weak, t, weak', t', types, levels, CoreRun(a, core), paragraph, lookup);
  }

  lemma FitsBounded(types: seq<BidiClass>, levels: seq<Level>, base: Level, run: IsoRun)
    requires Fits(types, levels, base, run)
    ensures |types| == |levels| && Bounded(levels, run.indices)
  {
  }

  // ----- N1 and N2 -----

  lemma LiveLast(types: seq<BidiClass>, levels: seq<Level>, indices: seq<nat>)
    requires |types| == |levels| && Bounded(levels, indices) && indices != [] && levels[indices[|indices| - 1]] != NO_LEVEL
    ensures var cs := Live(types, levels, indices); cs != [] && cs[|cs| - 1] == types[indices[|indices| - 1]]
  {
  }

  lemma AlikeLive(a: seq<BidiClass>, b: seq<BidiClass>, levels: seq<Level>, core: seq<nat>)
    requires |a| == |b| == |levels| && Bounded(levels, core)
    requires forall i :: i in core ==> AlikeAt(a[i], b[i])
    ensures Alike(Live(a, levels, core), Live(b, levels, core))
  {
    hide Live, Alike;
    LiveAlike(a, b, levels, core);
  }

  lemma NeutralizedSame(p: seq<BidiClass>, p': seq<BidiClass>, a: IsoRun, u: IsoRun)
    requires Alike(p, p') && a.level == u.level && a.sos == u.sos
    requires a.eos == u.eos || (p != [] && p[|p| - 1] in {LeftToRight, RightToLeft})
    ensures Neutralized(p, a) == Neutralized(p', u)
  {
    hide Neutralized, Alike;
    EosIrrelevant(p, a, u);
    NeutralizedAlike(p, p', u);
  }

  /** The class of the last character of the core decides whether the ends matter. */
  lemma LastDecides(types: seq<BidiClass>, base: Level, classes: seq<BidiClass>, levels: seq<Level>, a: IsoRun, u: IsoRun, core: seq<nat>,
                    paired: seq<BidiClass>)
    requires Met(types, classes, levels, base, a, u, core) && |paired| == |levels|
    requires forall k :: k in core ==> levels[k] != NO_LEVEL
    requires classes[core[|core| - 1]] in {LeftToRight, RightToLeft} ==> paired[core[|core| - 1]] in {LeftToRight, RightToLeft}
    ensures var p := Live(paired, levels, core);
      && a.level == u.level && a.sos == u.sos
      && (a.eos == u.eos || (p != [] && p[|p| - 1] in {LeftToRight, RightToLeft}))
  {
    hide Live, Fits, Core;
    LiveLast(paired, levels, core);
  }

  lemma MetFits(types: seq<BidiClass>, classes: seq<BidiClass>, levels: seq<Level>, base: Level, a: IsoRun, u: IsoRun, core: seq<nat>)
    requires Met(types, classes, levels, base, a, u, core)
    ensures Fits(types, levels, base, a) && Fits(types, levels, base, u) && Bounded(levels, core) && |types| == |levels|
    ensures Bounded(levels, a.indices) && Bounded(levels, u.indices)
    ensures core == Core(types, levels, a.indices) && core == Core(types, levels, u.indices)
  {
    hide Core;
  }

  /** The classes of two chains that meet, after N2, are the same. */
  lemma NeutralizedMet(types: seq<BidiClass>, base: Level, classes: seq<BidiClass>, levels: seq<Level>, a: IsoRun, u: IsoRun, core: seq<nat>,
                       paired: seq<BidiClass>, after: seq<BidiClass>, paired': seq<BidiClass>, after': seq<BidiClass>, i: nat)
    requires Met(types, classes, levels, base, a, u, core) && |paired| == |after| == |paired'| == |after'| == |levels|
    requires Live(after, levels, a.indices) == Neutralized(Live(paired, levels, a.indices), a)
    requires Live(after', levels, u.indices) == Neutralized(Live(paired', levels, u.indices), u)
    requires SeparatorKept(paired, types, levels) && SeparatorKept(paired', types, levels)
    requires forall k :: k in core ==> AlikeAt(paired[k], paired'[k]) && levels[k] != NO_LEVEL
    requires classes[core[|core| - 1]] in {LeftToRight, RightToLeft} ==> paired[core[|core| - 1]] in {LeftToRight, RightToLeft}
    requires i in core
    ensures after[i] == after'[i]
  {
    hide Live, Neutralized, Core, Fits, Alike, AlikeAt, ClassOf, SeparatorKept;
    MetFits(types, classes, levels, base, a, u, core);
    LastDecides(types, base, classes, levels, a, u, core, paired);
    hide Met;
    CoreNeutralized(paired, after, types, levels, base, a);
    CoreNeutralized(paired', after', types, levels, base, u);
    hide EndsInSeparator;
    AlikeLive(paired, paired', levels, core);
    NeutralizedSame(Live(paired, levels, core), Live(paired', levels, core), a, u);
    LiveDetermines(after, after', levels, core, i);
  }

  /** The separator takes the direction of the base level. */
  lemma NeutralizedSeparator(types: seq<BidiClass>, base: Level, levels: seq<Level>, isoRuns: seq<IsoRun>, paired: seq<BidiClass>, after: seq<BidiClass>, i: nat)
    requires AllFit(types, levels, base, isoRuns) && |paired| == |after| == |levels|
    requires AllNeutralized(paired, after, levels, isoRuns)
    requires i < |levels| && levels[i] != NO_LEVEL && types[i] == ParagraphSeparator && SeparatorKept(paired, types, levels)
    ensures after[i] == ClassOf(base)
  {
    hide Live, Neutralized, Core, Fits, ClassOf, EndsInSeparator;
    var s :| 0 <= s < |isoRuns| && i in isoRuns[s].indices;
    SeparatorAt(types, levels, base, isoRuns[s], i);
    CoreNeutralized(paired, after, types, levels, base, isoRuns[s]);
  }

  // ----- The whole paragraph -----

  /** After W1-W7 the two are alike. */
  lemma WeakAlike(types: seq<BidiClass>, base: Level, classes: seq<BidiClass>, levels: seq<Level>, runs: seq<Run>, isoRuns: seq<IsoRun>, uax: seq<IsoRun>,
                  weak: seq<BidiClass>, weak': seq<BidiClass>)
    requires Facing(types, base, classes, levels, runs, isoRuns, uax) && AllFit(types, levels, base, isoRuns) && AllFit(types, levels, base, uax)
    requires Characters(types, base, classes, levels) && |weak| == |weak'| == |levels|
    requires AllWeakened(classes, weak, levels, isoRuns) && AllUaxWeakened(classes, weak', levels, uax)
    ensures Alike(weak, weak')
    ensures forall i :: 0 <= i < |levels| && weak[i].IsIsoControl() ==> classes[i].IsIsoControl() || classes[i] == NonspacingMark
    ensures forall i :: 0 <= i < |levels| && !Idle(types, levels, i) && classes[i] in {LeftToRight, RightToLeft} ==> weak[i] == classes[i]
  {
    hide Facing, Live, Weakened, UaxWeakened, Fits, Met, Idle;
    WeakIdle(types, base, classes, levels, isoRuns, weak, false);
    WeakIdle(types, base, classes, levels, uax, weak', true);
    forall i | 0 <= i < |levels|
      ensures AlikeAt(weak[i], weak'[i])
      ensures weak[i].IsIsoControl() ==> classes[i].IsIsoControl() || classes[i] == NonspacingMark
      ensures !Idle(types, levels, i) && classes[i] in {LeftToRight, RightToLeft} ==> weak[i] == classes[i]
    {
      if !Idle(types, levels, i) {
        var s, t, core := Meet(types, base, classes, levels, runs, isoRuns, uax, i);
        WeakMet(types, base, classes, levels, isoRuns[s], uax[t], core, weak, weak', i);
      }
    }
  }

  /** What is known after N0. */
  ghost predicate PairedWell(types: seq<BidiClass>, classes: seq<BidiClass>, levels: seq<Level>, weak: seq<BidiClass>,
                             paired: seq<BidiClass>, paired': seq<BidiClass>) {
    && |types| == |classes| == |levels| == |weak| == |paired| == |paired'|
    && (forall i :: 0 <= i < |levels| ==> AlikeAt(paired[i], paired'[i]))
    && (forall i :: 0 <= i < |levels| && Idle(types, levels, i) ==> paired[i] == classes[i] && paired'[i] == classes[i])
    && (forall i :: 0 <= i < |levels| && !Idle(types, levels, i) && classes[i] in {LeftToRight, RightToLeft} ==>
          paired[i] in {LeftToRight, RightToLeft})
  }

  /** N0 keeps the two alike. */
  lemma PairedAlike(types: seq<BidiClass>, base: Level, classes: seq<BidiClass>, levels: seq<Level>, runs: seq<Run>, isoRuns: seq<IsoRun>, uax: seq<IsoRun>,
                    paragraph: seq<char>, lookup: BracketTable,
                    weak: seq<BidiClass>, paired: seq<BidiClass>, weak': seq<BidiClass>, paired': seq<BidiClass>)
    requires Facing(types, base, classes, levels, runs, isoRuns, uax) && AllFit(types, levels, base, isoRuns) && AllFit(types, levels, base, uax)
    requires |classes| == |weak| == |paired| == |weak'| == |paired'| == |levels| == |paragraph|
    requires Alike(weak, weak') && NoControlBrackets(weak, paragraph, lookup)
    requires forall i :: 0 <= i < |levels| && Idle(types, levels, i) ==> weak[i] == classes[i] && weak'[i] == classes[i]
    requires IdleKept(weak, types, levels) && IdleKept(weak', types, levels)
    requires forall i :: 0 <= i < |levels| && !Idle(types, levels, i) && classes[i] in {LeftToRight, RightToLeft} ==> weak[i] == classes[i]
    requires EachOnItsOwn(weak, paired, types, levels, isoRuns, paragraph, lookup, |isoRuns|)
    requires EachOnItsOwn(weak', paired', types, levels, uax, paragraph, lookup, |uax|)
    ensures PairedWell(types, classes, levels, weak, paired, paired')
  {
    hide Facing, OnItsOwn, Fits, Met, Idle, IdleKept, NoControlBrackets;
    PairedIdle(types, base, levels, isoRuns, paragraph, lookup, weak, paired);
    PairedIdle(types, base, levels, uax, paragraph, lookup, weak', paired');
    forall i | 0 <= i < |levels|
      ensures AlikeAt(paired[i], paired'[i])
      ensures !Idle(types, levels, i) && classes[i] in {LeftToRight, RightToLeft} ==> paired[i] in {LeftToRight, RightToLeft}
    {
      if !Idle(types, levels, i) {
        var s, t, core := Meet(types, base, classes, levels, runs, isoRuns, uax, i);
        PairedMet(types, base, classes, levels, isoRuns[s], uax[t], core, paragraph, lookup, weak, paired, weak', paired');
      }
    }
  }

  /** N1 and N2 make them the same. */
  lemma ClassesSame(types: seq<BidiClass>, base: Level, classes: seq<BidiClass>, levels: seq<Level>, runs: seq<Run>, isoRuns: seq<IsoRun>, uax: seq<IsoRun>,
                    weak: seq<BidiClass>, paired: seq<BidiClass>, after: seq<BidiClass>, paired': seq<BidiClass>, after': seq<BidiClass>)
    requires Facing(types, base, classes, levels, runs, isoRuns, uax) && AllFit(types, levels, base, isoRuns) && AllFit(types, levels, base, uax)
    requires Characters(types, base, classes, levels) && PairedWell(types, classes, levels, weak, paired, paired')
    requires |after| == |after'| == |levels|
    requires AllNeutralized(paired, after, levels, isoRuns) && AllNeutralized(paired', after', levels, uax)
    ensures after == after'
  {
    hide Facing, Live, Neutralized, Fits, Met, Core, AlikeAt;
    assert SeparatorKept(paired, types, levels) && SeparatorKept(paired', types, levels);
    forall i | 0 <= i < |levels| ensures after[i] == after'[i] {
      if !Idle(types, levels, i) {
        var s, t, core := Meet(types, base, classes, levels, runs, isoRuns, uax, i);
        MetCore(types, classes, levels, base, isoRuns[s], uax[t], core);
        NeutralizedMet(types, base, classes, levels, isoRuns[s], uax[t], core, paired, after, paired', after', i);
      } else if levels[i] != NO_LEVEL {
        NeutralizedSeparator(types, base, levels, isoRuns, paired, after, i);
        NeutralizedSeparator(types, base, levels, uax, paired', after', i);
      }
    }
  }

  lemma MetCore(types: seq<BidiClass>, classes: seq<BidiClass>, levels: seq<Level>, base: Level, a: IsoRun, u: IsoRun, core: seq<nat>)
    requires Met(types, classes, levels, base, a, u, core)
    ensures core != [] && forall k :: k in core ==> k < |levels| == |types| && !Idle(types, levels, k)
    ensures core[|core| - 1] in core
  {
    hide Core, Idle, Fits;
    MetFits(types, classes, levels, base, a, u, core);
    forall k | k in core ensures k < |levels| && !Idle(types, levels, k) { InCore(types, levels, a.indices, k); }
  }

  /** Without a lost pair N0 is the rule for each sequence. */
  lemma PairsKept(types: seq<BidiClass>, levels: seq<Level>, base: Level, isoRuns: seq<IsoRun>, paragraph: seq<char>, lookup: BracketTable,
                  weak: seq<BidiClass>, paired: seq<BidiClass>)
    requires AllFit(types, levels, base, isoRuns) && |weak| == |levels| == |paragraph| && Disjoint(isoRuns)
    requires N0(weak, paired, types, levels, isoRuns, paragraph, lookup)
    requires !LosesPair(weak, levels, paragraph, lookup, isoRuns)
    ensures EachOnItsOwn(weak, paired, types, levels, isoRuns, paragraph, lookup, |isoRuns|)
  {
    hide N0, LosesPair, EachOnItsOwn, SeparatorLast, EndsInSeparator, Disjoint, Covering, Increasing;
    var b := EachHasOutcome(weak, types, levels, isoRuns, paragraph, lookup, |isoRuns|);
    StopsTooEarlyExactly(weak, paired, b, types, levels, isoRuns, paragraph, lookup);
  }

  /** With room on the stack, no initiator parted from anything but the separator at the end
      or unlinked, and no pair lost, and if no mark and no isolate control is a bracket, as
      none is, a paragraph has the classes and levels of UAX #9. */
  lemma FollowsUax(types: seq<BidiClass>, base: Level, paragraph: seq<char>, lookup: BracketTable,
                   st: Stages, classes: seq<BidiClass>, levels: seq<Level>, ut: Stages, classes': seq<BidiClass>, levels': seq<Level>)
    requires Resolved(types, base, paragraph, lookup, st, classes, levels)
    requires UaxResolved(types, base, paragraph, lookup, ut, classes', levels')
    requires Unhindered(types, base)
    requires NoneAstrayFrom(types, st.explicitClasses, st.explicitLevels)
    requires BoundedRuns(st.explicitLevels, st.isoRuns)
    requires paragraph != [] ==> !LosesPair(st.weak, st.explicitLevels, paragraph, lookup, st.isoRuns)
    requires forall i :: 0 <= i < |paragraph| && (types[i] == NonspacingMark || types[i].IsIsoControl()) ==> lookup(paragraph[i]) == None
    ensures classes == classes' && levels == levels'
  {
    hide Explained, UaxExplained, Sequences, UaxSequences, Unhindered, NoneAstrayFrom, AllWeakened, AllUaxWeakened, N0, EachOnItsOwn,
      AllNeutralized, LiveClasses, Levelled, LosesPair, BoundedRuns, Alike, Fits, Idle, IdleKept, PairedWell, Disjoint, Covering;
    var c, l := st.explicitClasses, st.explicitLevels;
    Room(types, base);
    ExplainedAsUax(types, base, c, l, ut.explicitClasses, ut.explicitLevels);
    assert Comparable(types, base, c, l, st.runs, st.isoRuns);
    hide Comparable;
    assert Facing(types, base, c, l, st.runs, st.isoRuns, ut.isoRuns);
    hide Facing;
    FacingFit(types, base, c, l, st.runs, st.isoRuns, ut.isoRuns);
    WeakIdle(types, base, c, l, st.isoRuns, st.weak, false);
    WeakIdle(types, base, c, l, ut.isoRuns, ut.weak, true);
    WeakAlike(types, base, c, l, st.runs, st.isoRuns, ut.isoRuns, st.weak, ut.weak);
    if paragraph == [] {
      PairedPlain(types, c, l, st.weak, ut.weak);
    } else {
      SourceDisjoint(types, base, c, l, st.runs, st.isoRuns, ut.isoRuns);
      PairsKept(types, l, base, st.isoRuns, paragraph, lookup, st.weak, st.paired);
      PairedAlike(types, base, c, l, st.runs, st.isoRuns, ut.isoRuns, paragraph, lookup, st.weak, st.paired, ut.weak, ut.paired);
    }
    ClassesSame(types, base, c, l, st.runs, st.isoRuns, ut.isoRuns, st.weak, st.paired, classes, ut.paired, classes');
    LevelsSame(l, classes, levels, levels');
  }

  /** An initiator that neither overflows nor is overridden. */
  ghost predicate PlainIsolate(types: seq<BidiClass>, base: Level, e: nat)
    requires e < |types| && 0 <= base <= 1
  {
    types[e].IsIsoInit() ==>
      !Overflowed(types, base, e) && StateAt(types, base, e).Some? && Top(StateAt(types, base, e).value).overriding == LevelStack.Neutral
  }

  /** Where all are plain none is astray. */
  lemma PlainIsolates(types: seq<BidiClass>, base: Level, classes: seq<BidiClass>, levels: seq<Level>, runs: seq<Run>)
    requires Cut(types, base, classes, levels, runs) && 0 <= base <= 1
    requires forall e :: 0 <= e < |types| ==> PlainIsolate(types, base, e)
    ensures NoneAstrayFrom(types, classes, levels)
  {
    hide Unhindered, Explained, Tiling, TailRemoved, InRange, Overflowed, StateAt, MatchOf, FirstLive;
    CutExplained(types, base, classes, levels, runs);
    forall e | 0 <= e < |types|
      ensures PartedFrom(types, classes, levels, e) ==> BeforeSeparator(types, levels, e)
      ensures !Unlinked(types, classes, levels, e)
    {
      assert PlainIsolate(types, base, e);
      if types[e].IsIsoInit() { NotOverridden(types, base, classes, levels, e); }
      CharacterOf(types, base, classes, levels, e);
      if PartedFrom(types, classes, levels, e) { PartedOnlyBy(types, base, classes, levels, runs, e); }
    }
  }

  lemma PairedPlain(types: seq<BidiClass>, classes: seq<BidiClass>, levels: seq<Level>, weak: seq<BidiClass>, weak': seq<BidiClass>)
    requires |types| == |classes| == |levels| && Alike(weak, weak') && |weak| == |levels|
    requires forall i :: 0 <= i < |levels| && Idle(types, levels, i) ==> weak[i] == classes[i] && weak'[i] == classes[i]
    requires forall i :: 0 <= i < |levels| && !Idle(types, levels, i) && classes[i] in {LeftToRight, RightToLeft} ==> weak[i] == classes[i]
    ensures PairedWell(types, classes, levels, weak, weak, weak')
  {
    hide Idle;
  }

  lemma Room(types: seq<BidiClass>, base: Level)
    requires Unhindered(types, base)
    ensures NoneIgnored(types, base)
  {
  }

  lemma SourceDisjoint(types: seq<BidiClass>, base: Level, classes: seq<BidiClass>, levels: seq<Level>,
                       runs: seq<Run>, isoRuns: seq<IsoRun>, uax: seq<IsoRun>)
    requires Facing(types, base, classes, levels, runs, isoRuns, uax)
    ensures Disjoint(isoRuns)
  {
    hide Comparable, Gathered, Finished, Characters, NoneAstrayFrom, InRange;
    ComparableFacts(types, base, classes, levels, runs, isoRuns);
  }

  lemma LevelsSame(explicitLevels: seq<Level>, classes: seq<BidiClass>, a: seq<Level>, b: seq<Level>)
    requires |explicitLevels| == |classes| && Levelled(explicitLevels, classes, a) && Levelled(explicitLevels, classes, b)
    ensures a == b
  {
  }
}
