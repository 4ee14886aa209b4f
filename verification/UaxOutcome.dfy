/** The rules of UAX #9, as `Conformance` puts them, always have an outcome. */
module UaxOutcome {
  import opened Wrappers
  import opened BidiTypes
  import opened Explicit
  import opened Runs
  import opened Linking
  import opened Matching
  import opened Following
  import opened NextCharacter
  import opened SequenceEnds
  import opened TextChains
  import opened Rules
  import opened Brackets
  import opened BracketOverflow
  import opened Resolution
  import opened MarksAfterControls
  import opened Conformance

  // ----- BD7 and BD13 -----

  /** What the sequences are made of. */
  ghost predicate Numbered(types: seq<BidiClass>, base: Level, classes: seq<BidiClass>, levels: seq<Level>) {
    Unhindered(types, base) && Explained(types, base, classes, levels) && |types| == |classes| == |levels|
  }

  lemma NumberedFacts(types: seq<BidiClass>, base: Level, classes: seq<BidiClass>, levels: seq<Level>)
    requires Numbered(types, base, classes, levels)
    ensures NoneIgnored(types, base) && Explained(types, base, classes, levels) && 0 <= base <= 1
    ensures Characters(types, base, classes, levels) && |types| == |classes| == |levels|
  {
    hide Explained, NoFullPush, Characters;
    ExplainedCharacters(types, base, classes, levels);
  }

  /** What follows a character has its level. */
  lemma NextLevel(types: seq<BidiClass>, base: Level, classes: seq<BidiClass>, levels: seq<Level>, i: nat)
    requires Numbered(types, base, classes, levels) && i < |types| && levels[i] != NO_LEVEL
    ensures var n := UaxNext(types, levels, i); n.Some? ==> i < n.value < |types| && levels[n.value] == levels[i]
  {
    hide Numbered, MatchOf, Explained, NoneIgnored;
    NumberedFacts(types, base, classes, levels);
    if types[i].IsIsoInit() && MatchOf(types, i).Some? { MatchLevel(types, base, classes, levels, i); }
  }

  /** An initiator with a character of its level before its matching PDI is directly before
      one of its level. */
  lemma NotOverTheHead(types: seq<BidiClass>, base: Level, classes: seq<BidiClass>, levels: seq<Level>, e: nat, i: nat, j: nat)
    requires Numbered(types, base, classes, levels) && e < i < j < |types| == |levels| && levels[e] != NO_LEVEL
    requires types[e].IsIsoInit() && MatchOf(types, e) == Some(j) && levels[i] == levels[e]
    ensures var n := FirstLive(levels, e + 1, |levels|); n.Some? && levels[n.value] == levels[e]
  {
    hide Numbered, MatchOf, Explained, NoneIgnored, FirstLive, Overflowed;
    NumberedFacts(types, base, classes, levels);
    NotLaterThan(levels, e + 1, i);
    if Overflowed(types, base, e) {
      AsDeep(types, base, classes, levels, e, FirstLive(levels, e + 1, |levels|).value);
    } else {
      Deeper(types, base, classes, levels, e, i);
    }
  }

  /** Nothing follows two characters. */
  lemma NextInjective(types: seq<BidiClass>, base: Level, classes: seq<BidiClass>, levels: seq<Level>, a: nat, b: nat)
    requires Numbered(types, base, classes, levels) && a < b < |types| == |levels| && levels[a] != NO_LEVEL && levels[b] != NO_LEVEL
    requires UaxNext(types, levels, a).Some?
    ensures UaxNext(types, levels, a) != UaxNext(types, levels, b)
  {
    hide Numbered, MatchOf, FirstLive, Explained, NoneIgnored, Characters;
    NumberedFacts(types, base, classes, levels);
    if UaxNext(types, levels, a) == UaxNext(types, levels, b) {
      NextLevel(types, base, classes, levels, a);
      NextLevel(types, base, classes, levels, b);
      var j := UaxNext(types, levels, a).value;
      var n := FirstLive(levels, a + 1, |levels|);
      NotLaterThan(levels, a + 1, b);
      if !(n.Some? && levels[n.value] == levels[a]) {
        NotOverTheHead(types, base, classes, levels, a, b, j);
      }
    }
  }

  // ----- The sequences, built from the end -----

  ghost predicate IsChain(types: seq<BidiClass>, levels: seq<Level>, chain: seq<nat>, i: nat) {
    && |types| == |levels| && chain != [] && Increasing(chain) && i <= chain[0]
    && (forall k :: 0 <= k < |chain| ==> chain[k] < |levels| && levels[chain[k]] == levels[chain[0]] != NO_LEVEL)
    && (forall k :: 0 <= k < |chain| ==> UaxLink(types, levels, chain, k))
  }

  /** The chains of the characters from `i` on. */
  ghost predicate ChainsFrom(types: seq<BidiClass>, levels: seq<Level>, chains: seq<seq<nat>>, i: nat) {
    && |types| == |levels|
    && (forall s :: 0 <= s < |chains| ==> IsChain(types, levels, chains[s], i))
    && (forall s, t, x :: 0 <= s < t < |chains| && x in chains[s] ==> x !in chains[t])
    && (forall x :: i <= x < |levels| && levels[x] != NO_LEVEL ==> exists s :: 0 <= s < |chains| && x in chains[s])
  }

  lemma Prepended(types: seq<BidiClass>, levels: seq<Level>, chain: seq<nat>, i: nat)
    requires IsChain(types, levels, chain, i + 1) && i < |levels| && UaxNext(types, levels, i) == Some(chain[0])
    requires levels[i] == levels[chain[0]]
    ensures IsChain(types, levels, [i] + chain, i)
  {
    hide UaxNext;
    var more := [i] + chain;
    forall j, k | 0 <= j < k < |more| ensures more[j] < more[k] {
      if j > 0 { assert chain[j - 1] < chain[k - 1]; } else { FirstLeast(chain, k - 1); }
    }
    forall k | 0 <= k < |more| ensures UaxLink(types, levels, more, k) {
      if k > 0 { assert UaxLink(types, levels, chain, k - 1); }
    }
  }

  lemma FirstLeast(chain: seq<nat>, k: nat)
    requires Increasing(chain) && k < |chain|
    ensures chain[0] <= chain[k]
  {
  }

  /** One more chain, or one longer by one at its front. */
  lemma OneMoreCharacter(types: seq<BidiClass>, levels: seq<Level>, chains: seq<seq<nat>>, more: seq<seq<nat>>, s: nat, i: nat)
    requires ChainsFrom(types, levels, chains, i + 1) && i < |levels| && s < |more| && IsChain(types, levels, more[s], i)
    requires if s < |chains| then more == chains[s := [i] + chains[s]] else s == |chains| && more == chains + [[i]]
    ensures ChainsFrom(types, levels, more, i)
  {
    hide IsChain;
    forall t | 0 <= t < |chains| ensures IsChain(types, levels, chains[t], i) && i !in chains[t] { NotYet(types, levels, chains[t], i); }
    forall x | i <= x < |levels| && levels[x] != NO_LEVEL ensures exists t :: 0 <= t < |more| && x in more[t] {
      if x == i {
        assert x in more[s];
      } else {
        var t :| 0 <= t < |chains| && x in chains[t];
        assert x in more[t];
      }
    }
  }

  lemma NotYet(types: seq<BidiClass>, levels: seq<Level>, chain: seq<nat>, i: nat)
    requires IsChain(types, levels, chain, i + 1)
    ensures IsChain(types, levels, chain, i) && i !in chain
  {
    hide UaxLink;
    forall k | 0 <= k < |chain| ensures chain[k] != i { FirstLeast(chain, k); }
  }

  /** What follows a character begins a chain. */
  lemma BeginsChain(types: seq<BidiClass>, base: Level, classes: seq<BidiClass>, levels: seq<Level>, chains: seq<seq<nat>>, i: nat, j: nat) returns (s: nat)
    requires Numbered(types, base, classes, levels) && ChainsFrom(types, levels, chains, i + 1)
    requires i < |levels| && levels[i] != NO_LEVEL && UaxNext(types, levels, i) == Some(j)
    ensures s < |chains| && chains[s][0] == j && levels[i] == levels[j]
  {
    hide Numbered, UaxNext;
    NextLevel(types, base, classes, levels, i);
    s :| 0 <= s < |chains| && j in chains[s];
    var k :| 0 <= k < |chains[s]| && chains[s][k] == j;
    if k > 0 {
      assert UaxLink(types, levels, chains[s], k - 1);
      FirstLeast(chains[s], k - 1);
      NextInjective(types, base, classes, levels, i, chains[s][k - 1]);
    }
  }

  lemma {:induction false} BuildChains(types: seq<BidiClass>, base: Level, classes: seq<BidiClass>, levels: seq<Level>, i: nat) returns (chains: seq<seq<nat>>)
    requires Numbered(types, base, classes, levels) && i <= |levels|
    ensures ChainsFrom(types, levels, chains, i)
    decreases |levels| - i
  {
    hide Numbered, UaxNext, ChainsFrom, IsChain, Explained, NoneIgnored, Characters;
    NumberedFacts(types, base, classes, levels);
    if i == |levels| {
      chains := [];
      NoChains(types, base, classes, levels);
    } else {
      chains := BuildChains(types, base, classes, levels, i + 1);
      if levels[i] == NO_LEVEL {
        NoneHere(types, levels, chains, i);
      } else {
        var n := UaxNext(types, levels, i);
        if n.Some? {
          var s := BeginsChain(types, base, classes, levels, chains, i, n.value);
          ChainOf(types, levels, chains, i + 1, s);
          Prepended(types, levels, chains[s], i);
          var more := chains[s := [i] + chains[s]];
          OneMoreCharacter(types, levels, chains, more, s, i);
          chains := more;
        } else {
          var more := chains + [[i]];
          SingleChain(types, base, classes, levels, i);
          OneMoreCharacter(types, levels, chains, more, |chains|, i);
          chains := more;
        }
      }
    }
  }

  lemma NoChains(types: seq<BidiClass>, base: Level, classes: seq<BidiClass>, levels: seq<Level>)
    requires Numbered(types, base, classes, levels)
    ensures ChainsFrom(types, levels, [], |levels|)
  {
    hide Explained, Unhindered;
  }

  lemma NoneHere(types: seq<BidiClass>, levels: seq<Level>, chains: seq<seq<nat>>, i: nat)
    requires ChainsFrom(types, levels, chains, i + 1) && i < |levels| && levels[i] == NO_LEVEL
    ensures ChainsFrom(types, levels, chains, i)
  {
    hide IsChain;
    forall s | 0 <= s < |chains| ensures IsChain(types, levels, chains[s], i) { NotYet(types, levels, chains[s], i); }
  }

  lemma ChainOf(types: seq<BidiClass>, levels: seq<Level>, chains: seq<seq<nat>>, i: nat, s: nat)
    requires ChainsFrom(types, levels, chains, i) && s < |chains|
    ensures IsChain(types, levels, chains[s], i)
  {
    hide IsChain;
  }

  lemma SingleChain(types: seq<BidiClass>, base: Level, classes: seq<BidiClass>, levels: seq<Level>, i: nat)
    requires Numbered(types, base, classes, levels) && i < |levels| && levels[i] != NO_LEVEL && UaxNext(types, levels, i).None?
    ensures IsChain(types, levels, [i], i)
  {
    hide Explained, Unhindered, UaxNext;
  }

  function AsSequence(types: seq<BidiClass>, base: Level, levels: seq<Level>, chain: seq<nat>): IsoRun
    requires |types| == |levels| && chain != [] && chain[0] < |levels| && chain[|chain| - 1] < |levels|
  {
    IsoRun([], 0, levels[chain[0]], SosOf(levels, base, chain[0]), EosOf(types, levels, base, chain[|chain| - 1]), chain)
  }

  /** A chain with its ends. */
  lemma ChainEnded(types: seq<BidiClass>, base: Level, levels: seq<Level>, chain: seq<nat>) returns (u: IsoRun)
    requires IsChain(types, levels, chain, 0)
    ensures |types| == |levels| && UaxSequence(types, levels, base, u) && u.indices == chain
  {
    hide UaxLink, SosOf, EosOf, Increasing;
    u := AsSequence(types, base, levels, chain);
  }

  /** A paragraph with room on the stack has isolating run sequences. */
  lemma SequencesExist(types: seq<BidiClass>, base: Level, classes: seq<BidiClass>, levels: seq<Level>) returns (uax: seq<IsoRun>)
    requires Numbered(types, base, classes, levels)
    ensures |types| == |levels| && UaxSequences(types, levels, base, uax)
  {
    hide Numbered, ChainsFrom, UaxSequence, IsChain, UaxSequences;
    var chains := BuildChains(types, base, classes, levels, 0);
    ChainsLength(types, levels, chains);
    uax := [];
    for n := 0 to |chains|
      invariant |uax| == n && forall s :: 0 <= s < n ==> uax[s].indices == chains[s] && UaxSequence(types, levels, base, uax[s])
    {
      ChainOf(types, levels, chains, 0, n);
      var u := ChainEnded(types, base, levels, chains[n]);
      uax := uax + [u];
    }
    ChainsAreSequences(types, base, levels, chains, uax);
  }

  lemma ChainsLength(types: seq<BidiClass>, levels: seq<Level>, chains: seq<seq<nat>>)
    requires ChainsFrom(types, levels, chains, 0)
    ensures |types| == |levels|
  {
    hide IsChain;
  }

  lemma ChainsAreSequences(types: seq<BidiClass>, base: Level, levels: seq<Level>, chains: seq<seq<nat>>, uax: seq<IsoRun>)
    requires ChainsFrom(types, levels, chains, 0) && |types| == |levels| && |uax| == |chains|
    requires forall s :: 0 <= s < |uax| ==> uax[s].indices == chains[s] && UaxSequence(types, levels, base, uax[s])
    ensures UaxSequences(types, levels, base, uax)
  {
    hide IsChain, UaxSequence;
    forall s | 0 <= s < |uax| ensures Bounded(levels, uax[s].indices) { UaxBounded(types, base, levels, uax[s]); }
    forall i | 0 <= i < |levels| && levels[i] != NO_LEVEL ensures exists s :: 0 <= s < |uax| && i in uax[s].indices {
      var s :| 0 <= s < |chains| && i in chains[s];
      assert i in uax[s].indices;
    }
  }

  lemma UaxBounded(types: seq<BidiClass>, base: Level, levels: seq<Level>, u: IsoRun)
    requires |types| == |levels| && UaxSequence(types, levels, base, u)
    ensures Bounded(levels, u.indices)
  {
    hide UaxLink, SosOf, EosOf, Increasing;
  }

  // ----- The rules -----

  /** Any classes can be put in the place of those of a chain. */
  lemma {:induction false} PutLive(start: seq<BidiClass>, levels: seq<Level>, indices: seq<nat>, w: seq<BidiClass>) returns (after: seq<BidiClass>)
    requires |start| == |levels| && Bounded(levels, indices) && Increasing(indices) && |w| == |Live(start, levels, indices)|
    ensures |after| == |start| && Live(after, levels, indices) == w && Untouched(start, after, levels, indices)
  {
    after := start;
    if indices != [] {
      var n := |indices| - 1;
      var i := indices[n];
      if levels[i] == NO_LEVEL {
        after := PutLive(start, levels, indices[..n], w);
      } else {
        var m := |w| - 1;
        var rest := PutLive(start, levels, indices[..n], w[..m]);
        after := rest[i := w[m]];
        SetOther(rest, levels, indices[..n], i, w[m]);
        assert w == w[..m] + [w[m]];
      }
    }
  }

  /** What the chains are to become. */
  ghost predicate Targets(start: seq<BidiClass>, levels: seq<Level>, isoRuns: seq<IsoRun>, ws: seq<seq<BidiClass>>) {
    && |start| == |levels| && |ws| == |isoRuns| && BoundedRuns(levels, isoRuns)
    && forall s :: 0 <= s < |isoRuns| ==> Increasing(isoRuns[s].indices) && |ws[s]| == |Live(start, levels, isoRuns[s].indices)|
  }

  /** The first n chains have become what they are to, and nothing else has changed. */
  ghost predicate PutTo(start: seq<BidiClass>, after: seq<BidiClass>, levels: seq<Level>, isoRuns: seq<IsoRun>, ws: seq<seq<BidiClass>>, n: nat) {
    && Targets(start, levels, isoRuns, ws) && |after| == |levels| && RemovedKept(start, after, levels)
    && forall s :: 0 <= s < |isoRuns| ==>
         Live(after, levels, isoRuns[s].indices) == if s < n then ws[s] else Live(start, levels, isoRuns[s].indices)
  }

  lemma PutNext(start: seq<BidiClass>, mid: seq<BidiClass>, after: seq<BidiClass>, levels: seq<Level>, isoRuns: seq<IsoRun>, ws: seq<seq<BidiClass>>, n: nat)
    requires PutTo(start, mid, levels, isoRuns, ws, n) && n < |isoRuns| && Disjoint(isoRuns)
    requires |after| == |mid| && Live(after, levels, isoRuns[n].indices) == ws[n] && Untouched(mid, after, levels, isoRuns[n].indices)
    ensures PutTo(start, after, levels, isoRuns, ws, n + 1)
  {
    hide Live, Increasing;
    forall s | 0 <= s < |isoRuns| && s != n
      ensures Live(after, levels, isoRuns[s].indices) == Live(mid, levels, isoRuns[s].indices)
    {
      assert forall i :: i in isoRuns[s].indices ==> i !in isoRuns[n].indices;
      LiveSame(after, mid, levels, isoRuns[s].indices);
    }
  }

  lemma PutAll(start: seq<BidiClass>, levels: seq<Level>, isoRuns: seq<IsoRun>, ws: seq<seq<BidiClass>>) returns (after: seq<BidiClass>)
    requires Targets(start, levels, isoRuns, ws) && Disjoint(isoRuns)
    ensures PutTo(start, after, levels, isoRuns, ws, |isoRuns|)
  {
    hide Live, Disjoint, Untouched;
    after := start;
    for n := 0 to |isoRuns|
      invariant PutTo(start, after, levels, isoRuns, ws, n)
    {
      var mid := after;
      LiveLength(start, mid, levels, isoRuns[n].indices);
      after := PutLive(mid, levels, isoRuns[n].indices, ws[n]);
      PutNext(start, mid, after, levels, isoRuns, ws, n);
    }
  }

  lemma WeakOutcome(start: seq<BidiClass>, levels: seq<Level>, isoRuns: seq<IsoRun>) returns (after: seq<BidiClass>)
    requires |start| == |levels| && BoundedRuns(levels, isoRuns) && Disjoint(isoRuns)
    requires forall s :: 0 <= s < |isoRuns| ==> Increasing(isoRuns[s].indices)
    ensures |after| == |levels| && AllUaxWeakened(start, after, levels, isoRuns)
  {
    hide Live, UaxWeakened, Disjoint, Increasing;
    var ws := seq(|isoRuns|, s requires 0 <= s < |isoRuns| => UaxWeakened(Live(start, levels, isoRuns[s].indices), isoRuns[s]));
    after := PutAll(start, levels, isoRuns, ws);
  }

  lemma NeutralOutcome(start: seq<BidiClass>, levels: seq<Level>, isoRuns: seq<IsoRun>) returns (after: seq<BidiClass>)
    requires |start| == |levels| && BoundedRuns(levels, isoRuns) && Disjoint(isoRuns)
    requires forall s :: 0 <= s < |isoRuns| ==> Increasing(isoRuns[s].indices)
    ensures |after| == |levels| && AllNeutralized(start, after, levels, isoRuns)
  {
    hide Live, Neutralized, Disjoint, Increasing;
    var ws := seq(|isoRuns|, s requires 0 <= s < |isoRuns| => Neutralized(Live(start, levels, isoRuns[s].indices), isoRuns[s]));
    after := PutAll(start, levels, isoRuns, ws);
  }

  lemma NoneFullInUax(types: seq<BidiClass>, base: Level, n: nat)
    requires n <= |types| && 0 <= base <= 1
    ensures NoFullPush(types, base, UAX_CAPACITY, n)
  {
    hide FullPush, FsiIsRtl, RunTo, Step;
    forall k | 0 <= k < n && RunTo(types, base, UAX_CAPACITY, k).Some?
      ensures !FullPush(RunTo(types, base, UAX_CAPACITY, k).value, types[k], FsiIsRtl(types, k), UAX_CAPACITY)
    {
      NeverFullInUax(RunTo(types, base, UAX_CAPACITY, k).value, types[k], FsiIsRtl(types, k), base);
    }
  }

  /** X1-X9 of UAX #9 have an outcome for every paragraph, and with room on the stack it is
      the one of the source. */
  lemma ExplicitOutcome(types: seq<BidiClass>, base: Level) returns (classes: seq<BidiClass>, levels: seq<Level>)
    requires 0 <= base <= 1
    ensures UaxExplained(types, base, classes, levels)
    ensures NoneIgnored(types, base) ==> Explained(types, base, classes, levels)
  {
    hide RunTo, NoFullPush, ClassBetween, LevelBetween, FsiIsRtl, Sound;
    classes, levels := [], [];
    for n := 0 to |types|
      invariant |classes| == |levels| == n
      invariant forall i :: 0 <= i < n ==> UaxExplainedAt(types, base, i, classes[i], levels[i])
    {
      NoneFullInUax(types, base, n);
      NoneFullInUax(types, base, n + 1);
      RunKeeps(types, base, UAX_CAPACITY, n);
      RunKeeps(types, base, UAX_CAPACITY, n + 1);
      var before, after := RunTo(types, base, UAX_CAPACITY, n).value, RunTo(types, base, UAX_CAPACITY, n + 1).value;
      SoundTop(before, base);
      SoundTop(after, base);
      classes, levels := classes + [ClassBetween(before, after, types[n])], levels + [LevelBetween(before, after, types[n], base)];
      assert UaxExplainedAt(types, base, n, classes[n], levels[n]);
    }
    if NoneIgnored(types, base) { UaxIsSource(types, base, classes, levels); }
  }

  lemma UaxIsSource(types: seq<BidiClass>, base: Level, classes: seq<BidiClass>, levels: seq<Level>)
    requires NoneIgnored(types, base) && UaxExplained(types, base, classes, levels)
    ensures Explained(types, base, classes, levels)
  {
    hide NoFullPush, RunTo, NoneIgnored, ClassBetween, LevelBetween;
    NoFullPushBefore(types, base, |types|);
    AgreesWithUax(types, base, |types|);
    forall i | 0 <= i < |types| ensures ExplainedAt(types, base, i, classes[i], levels[i]) {
      NoFullPushBefore(types, base, i);
      NoFullPushBefore(types, base, i + 1);
      AgreesWithUax(types, base, i);
      AgreesWithUax(types, base, i + 1);
      assert UaxExplainedAt(types, base, i, classes[i], levels[i]);
    }
    RunStart(types, base, SOURCE_CAPACITY);
    if |types| > 0 { assert ExplainedAt(types, base, |types| - 1, classes[|types| - 1], levels[|types| - 1]); }
  }

  /** The rules of UAX #9 have an outcome. */
  lemma UaxHasOutcome(types: seq<BidiClass>, base: Level, paragraph: seq<char>, lookup: BracketTable)
    returns (st: Stages, classes: seq<BidiClass>, levels: seq<Level>)
    requires Unhindered(types, base) && (paragraph != [] ==> |paragraph| == |types|)
    ensures UaxResolved(types, base, paragraph, lookup, st, classes, levels)
  {
    hide Unhindered, UaxExplained, Explained, AllUaxWeakened, AllNeutralized, EachOnItsOwn, NoFullPush, Disjoint, Increasing, UaxLink, SosOf, EosOf,
      Covering;
    assert NoneIgnored(types, base) by { Room(types, base); }
    var c, l := ExplicitOutcome(types, base);
    ExplainedLengths(types, base, c, l);
    var uax := SequencesExist(types, base, c, l);
    assert forall s :: 0 <= s < |uax| ==> Increasing(uax[s].indices);
    var weak := WeakOutcome(c, l, uax);
    var paired := weak;
    if paragraph != [] {
      paired := EachHasOutcome(weak, types, l, uax, paragraph, lookup, |uax|);
      OwnKeepsLength(weak, paired, types, l, uax, paragraph, lookup, |uax|);
    }
    classes := NeutralOutcome(paired, l, uax);
    levels := seq(|l|, i requires 0 <= i < |l| && |classes| == |l| => if l[i] == NO_LEVEL then NO_LEVEL else ImplicitLevel(l[i], classes[i]));
    st := Stages(c, l, [], uax, weak, paired);
  }
}
