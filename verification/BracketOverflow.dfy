/** A sequence whose openers overflow the bracket stack ends N0 for itself and for all
    sequences after it. When that makes a difference. */
module BracketOverflow {
  import opened Wrappers
  import opened BidiTypes
  import opened Runs
  import opened TextChains
  import opened Neutral
  import opened Brackets
  import opened Rules
  import opened Determined

  // ----- BD16 and N0 for a sequence of its own -----

  /** More openers wait in the sequence than the stack has room for. */
  predicate Overflows(types: seq<BidiClass>, paragraph: seq<char>, lookup: BracketTable, indices: seq<nat>)
    requires |types| == |paragraph| && forall k :: 0 <= k < |indices| ==> indices[k] < |types|
  {
    Collect(Marks(types, paragraph, lookup, indices), |indices|).None?
  }

  /** BD16: where the stack has no room, stop for the remainder of the sequence. The pairs
      found so far remain. */
  function Collected(marks: seq<Mark>, n: nat): Pairing
    requires n <= |marks|
  {
    match Collect(marks, n)
    case Some(st) => st
    case None => if n == 0 then Pairing([], []) else Collected(marks, n - 1)
  }

  /** The pairs of a sequence, in the order N0 resolves them in. */
  ghost predicate SequencePairs(types: seq<BidiClass>, paragraph: seq<char>, lookup: BracketTable, indices: seq<nat>, pairs: seq<Pair>)
    requires |types| == |paragraph| && forall k :: 0 <= k < |indices| ==> indices[k] < |types|
  {
    multiset(pairs) == multiset(Collected(Marks(types, paragraph, lookup, indices), |indices|).pairs) && ByOpening(pairs)
  }

  /** N0 for one sequence. */
  ghost predicate OneStep(before: seq<BidiClass>, types: seq<BidiClass>, orig: seq<BidiClass>, levels: seq<Level>,
                          run: IsoRun, paragraph: seq<char>, lookup: BracketTable)
    requires |orig| == |levels| == |paragraph| && Bounded(levels, run.indices)
  {
    && |before| == |orig|
    && exists pairs: seq<Pair> ::
         && SequencePairs(before, paragraph, lookup, run.indices, pairs)
         && (forall k :: 0 <= k < |pairs| ==> pairs[k].openingPos < pairs[k].closingPos < |run.indices|)
         && PairsResolved(before, types, orig, levels, run, pairs)
  }

  /** The two agree along the sequence. */
  ghost predicate AgreeOn(a: seq<BidiClass>, b: seq<BidiClass>, indices: seq<nat>) {
    |a| == |b| && forall k :: 0 <= k < |indices| && indices[k] < |a| ==> a[indices[k]] == b[indices[k]]
  }

  /** N0 for one sequence as if there were no other: what comes of it along the sequence. */
  ghost predicate OnItsOwn(start: seq<BidiClass>, types: seq<BidiClass>, orig: seq<BidiClass>, levels: seq<Level>,
                           run: IsoRun, paragraph: seq<char>, lookup: BracketTable)
    requires |orig| == |levels| == |paragraph| && Bounded(levels, run.indices)
  {
    exists t :: OneStep(start, t, orig, levels, run, paragraph, lookup) && AgreeOn(t, types, run.indices)
  }

  /** N0 for the first n sequences, each on its own, and nothing else changed. */
  ghost predicate EachOnItsOwn(start: seq<BidiClass>, types: seq<BidiClass>, orig: seq<BidiClass>, levels: seq<Level>,
                               isoRuns: seq<IsoRun>, paragraph: seq<char>, lookup: BracketTable, n: nat)
    requires |start| == |orig| == |levels| == |paragraph| && n <= |isoRuns| && BoundedRuns(levels, isoRuns)
  {
    && |types| == |start|
    && (forall s :: 0 <= s < n ==> OnItsOwn(start, types, orig, levels, isoRuns[s], paragraph, lookup))
    && (forall i :: 0 <= i < |start| && (forall s :: 0 <= s < n ==> i !in isoRuns[s].indices) ==> types[i] == start[i])
  }

  // ----- What resolving one sequence changes -----

  /** A strong character or number lies strictly between the brackets. */
  predicate Encloses(types: seq<BidiClass>, indices: seq<nat>, p: Pair)
    requires forall k :: 0 <= k < |indices| ==> indices[k] < |types|
  {
    exists k :: p.openingPos < k < p.closingPos && k < |indices| && SideOf(types[indices[k]]).Some?
  }

  /** The sequence has a pair that N0 resolves. */
  predicate Resolvable(types: seq<BidiClass>, paragraph: seq<char>, lookup: BracketTable, indices: seq<nat>)
    requires |types| == |paragraph| && forall k :: 0 <= k < |indices| ==> indices[k] < |types|
  {
    var st := Collected(Marks(types, paragraph, lookup, indices), |indices|);
    exists j :: 0 <= j < |st.pairs| && Encloses(types, indices, st.pairs[j])
  }

  /** A pair takes a side exactly if it encloses one. */
  lemma SideIfEncloses(types: seq<BidiClass>, levels: seq<Level>, run: IsoRun, p: Pair)
    requires |types| == |levels| && Bounded(levels, run.indices) && p.openingPos < p.closingPos < |run.indices|
    ensures PairSide(types, levels, run, p).Some? <==> Encloses(types, run.indices, p)
  {
    var e := DirectionOf(run.level);
    if k :| p.openingPos < k < p.closingPos && SideOf(types[run.indices[k]]).Some? {
      assert SideOf(types[run.indices[k]]) == Some(e) || SideOf(types[run.indices[k]]) == Some(e.Opposite());
    }
  }

  /** Only L and R are ever set. */
  ghost predicate SetsSides(before: seq<BidiClass>, after: seq<BidiClass>) {
    && |before| == |after|
    && forall i :: 0 <= i < |before| ==> after[i] == before[i] || after[i] in {LeftToRight, RightToLeft}
  }

  /** Some neutral has become L or R. */
  ghost predicate Changed(before: seq<BidiClass>, after: seq<BidiClass>) {
    && |before| == |after|
    && exists i :: 0 <= i < |before| && before[i] == OtherNeutral && after[i] in {LeftToRight, RightToLeft}
  }

  lemma ChangedStays(start: seq<BidiClass>, before: seq<BidiClass>, after: seq<BidiClass>)
    requires Changed(start, before) && SetsSides(before, after)
    ensures Changed(start, after)
  {
    var i :| 0 <= i < |start| && start[i] == OtherNeutral && before[i] in {LeftToRight, RightToLeft};
    assert after[i] in {LeftToRight, RightToLeft};
  }

  lemma SetsSidesTrans(a: seq<BidiClass>, b: seq<BidiClass>, c: seq<BidiClass>)
    requires SetsSides(a, b) && SetsSides(b, c)
    ensures SetsSides(a, c)
  {
  }

  lemma PairSetEffect(types: seq<BidiClass>, after: seq<BidiClass>, orig: seq<BidiClass>, levels: seq<Level>, indices: seq<nat>, p: Pair, side: Direction)
    requires |types| == |orig| == |levels| && Bounded(levels, indices) && p.openingPos < |indices|
    requires PairSet(types, after, orig, levels, indices, p, side.AsBidiClass())
    ensures SetsSides(types, after)
    ensures forall i :: 0 <= i < |types| && i !in indices ==> after[i] == types[i]
    ensures types[indices[p.openingPos]] == OtherNeutral ==> Changed(types, after)
  {
    hide Trails;
    forall i | 0 <= i < |types| ensures after[i] == types[i] || after[i] in {LeftToRight, RightToLeft} {
      if i in indices {
        var k :| 0 <= k < |indices| && indices[k] == i;
        assert after[indices[k]] == if Follows(orig, levels, indices, p, k) then side.AsBidiClass() else types[i];
      }
    }
    assert Follows(orig, levels, indices, p, p.openingPos);
    assert after[indices[p.openingPos]] == side.AsBidiClass();
  }

  /** The brackets of the pairs are neutrals of the sequence. */
  ghost predicate NeutralPairs(types: seq<BidiClass>, indices: seq<nat>, pairs: seq<Pair>)
    requires forall k :: 0 <= k < |indices| ==> indices[k] < |types|
  {
    forall j :: 0 <= j < |pairs| ==>
      pairs[j].openingPos < pairs[j].closingPos < |indices| && types[indices[pairs[j].openingPos]] == OtherNeutral
  }

  lemma PairsBefore(start: seq<BidiClass>, types: seq<BidiClass>, orig: seq<BidiClass>, levels: seq<Level>, run: IsoRun, pairs: seq<Pair>)
    returns (before: seq<BidiClass>)
    requires |start| == |orig| == |levels| && Bounded(levels, run.indices) && pairs != []
    requires forall k :: 0 <= k < |pairs| ==> pairs[k].openingPos < pairs[k].closingPos < |run.indices|
    requires PairsResolved(start, types, orig, levels, run, pairs)
    ensures |before| == |start| && PairsResolved(start, before, orig, levels, run, pairs[..|pairs| - 1])
    ensures match PairSide(before, levels, run, pairs[|pairs| - 1])
            case None => types == before
            case Some(side) => PairSet(before, types, orig, levels, run.indices, pairs[|pairs| - 1], side.AsBidiClass())
  {
    hide PairSide, PairSet;
    var n := |pairs| - 1;
    before :| PairsResolved(start, before, orig, levels, run, pairs[..n])
      && match PairSide(before, levels, run, pairs[n])
         case None => types == before
         case Some(side) => PairSet(before, types, orig, levels, run.indices, pairs[n], side.AsBidiClass());
  }

  /** Pairs that enclose nothing change nothing, and one that does changes a neutral. */
  lemma {:induction false} PairsEffect(start: seq<BidiClass>, types: seq<BidiClass>, orig: seq<BidiClass>, levels: seq<Level>, run: IsoRun, pairs: seq<Pair>)
    requires |start| == |orig| == |levels| && Bounded(levels, run.indices)
    requires NeutralPairs(start, run.indices, pairs)
    requires PairsResolved(start, types, orig, levels, run, pairs)
    ensures SetsSides(start, types)
    ensures forall i :: 0 <= i < |start| && i !in run.indices ==> types[i] == start[i]
    ensures if exists j :: 0 <= j < |pairs| && Encloses(start, run.indices, pairs[j]) then Changed(start, types) else types == start
    decreases |pairs|
  {
    hide PairSide, PairSet, Encloses;
    if pairs != [] {
      var n := |pairs| - 1;
      var before := PairsBefore(start, types, orig, levels, run, pairs);
      hide PairsResolved;
      PairsEffect(start, before, orig, levels, run, pairs[..n]);
      assert forall j :: 0 <= j < n ==> pairs[..n][j] == pairs[j];
      var side := PairSide(before, levels, run, pairs[n]);
      SideIfEncloses(before, levels, run, pairs[n]);
      if side.Some? {
        PairSetEffect(before, types, orig, levels, run.indices, pairs[n], side.value);
        SetsSidesTrans(start, before, types);
        if Changed(start, before) { ChangedStays(start, before, types); }
      }
    }
  }

  lemma SameElement<T>(a: seq<T>, b: seq<T>, i: nat) returns (j: nat)
    requires multiset(a) == multiset(b) && i < |a|
    ensures j < |b| && b[j] == a[i]
  {
    assert a[i] in multiset(b);
    j :| 0 <= j < |b| && b[j] == a[i];
  }

  /** What BD16 promises holds of the pairs found before the stack had no room. */
  lemma {:induction false} CollectedPairs(marks: seq<Mark>, n: nat) returns (m: nat)
    requires n <= |marks|
    ensures m <= n && Paired(marks, m, Collected(marks, n))
    ensures Collect(marks, n).Some? ==> Collect(marks, n).value == Collected(marks, n)
  {
    hide Paired, Collect;
    CollectPairs(marks, n);
    m := n;
    if Collect(marks, n).None? {
      CollectStart(marks);
      m := CollectedPairs(marks, n - 1);
    }
  }

  lemma CollectStart(marks: seq<Mark>)
    ensures Collect(marks, 0).Some?
  {
  }

  /** The pairs that BD16 collects have neutral brackets. */
  lemma CollectedNeutral(types: seq<BidiClass>, paragraph: seq<char>, lookup: BracketTable, indices: seq<nat>, i: nat)
    requires |types| == |paragraph| && forall k :: 0 <= k < |indices| ==> indices[k] < |types|
    requires i < |Collected(Marks(types, paragraph, lookup, indices), |indices|).pairs|
    ensures var p := Collected(Marks(types, paragraph, lookup, indices), |indices|).pairs[i];
      p.openingPos < p.closingPos < |indices| && types[indices[p.openingPos]] == OtherNeutral
  {
    hide Collect, Collected, NonCrossing;
    var marks := Marks(types, paragraph, lookup, indices);
    var m := CollectedPairs(marks, |indices|);
    assert Joins(marks, Collected(marks, |indices|).pairs[i]);
  }

  /** The pairs of a sequence, sorted, are its pairs, with neutral brackets. */
  lemma PairsOfSequence(types: seq<BidiClass>, paragraph: seq<char>, lookup: BracketTable, indices: seq<nat>, pairs: seq<Pair>)
    requires |types| == |paragraph| && forall k :: 0 <= k < |indices| ==> indices[k] < |types|
    requires SequencePairs(types, paragraph, lookup, indices, pairs)
    ensures NeutralPairs(types, indices, pairs)
    ensures Resolvable(types, paragraph, lookup, indices) <==>
            exists j :: 0 <= j < |pairs| && Encloses(types, indices, pairs[j])
  {
    hide Encloses, Collected, ByOpening, Marks;
    var st := Collected(Marks(types, paragraph, lookup, indices), |indices|);
    forall j | 0 <= j < |pairs|
      ensures pairs[j].openingPos < pairs[j].closingPos < |indices| && types[indices[pairs[j].openingPos]] == OtherNeutral
    {
      var i := SameElement(pairs, st.pairs, j);
      CollectedNeutral(types, paragraph, lookup, indices, i);
    }
    if j :| 0 <= j < |pairs| && Encloses(types, indices, pairs[j]) {
      var i := SameElement(pairs, st.pairs, j);
    }
    if i :| 0 <= i < |st.pairs| && Encloses(types, indices, st.pairs[i]) {
      var j := SameElement(st.pairs, pairs, i);
    }
  }

  lemma StepPairs(before: seq<BidiClass>, types: seq<BidiClass>, orig: seq<BidiClass>, levels: seq<Level>,
                  run: IsoRun, paragraph: seq<char>, lookup: BracketTable) returns (pairs: seq<Pair>)
    requires |orig| == |levels| == |paragraph| && Bounded(levels, run.indices)
    requires OneStep(before, types, orig, levels, run, paragraph, lookup)
    ensures |before| == |orig| && SequencePairs(before, paragraph, lookup, run.indices, pairs)
    ensures forall k :: 0 <= k < |pairs| ==> pairs[k].openingPos < pairs[k].closingPos < |run.indices|
    ensures PairsResolved(before, types, orig, levels, run, pairs)
  {
    hide SequencePairs, PairsResolved;
    pairs :| SequencePairs(before, paragraph, lookup, run.indices, pairs)
      && (forall k :: 0 <= k < |pairs| ==> pairs[k].openingPos < pairs[k].closingPos < |run.indices|)
      && PairsResolved(before, types, orig, levels, run, pairs);
  }

  /** Resolving the pairs of a sequence sets only L and R, only in the sequence, and
      changes a neutral exactly if some pair encloses a strong character or number. */
  lemma OneEffect(before: seq<BidiClass>, types: seq<BidiClass>, orig: seq<BidiClass>, levels: seq<Level>,
                  run: IsoRun, paragraph: seq<char>, lookup: BracketTable)
    requires |orig| == |levels| == |paragraph| && Bounded(levels, run.indices)
    requires OneStep(before, types, orig, levels, run, paragraph, lookup)
    ensures |before| == |types| == |orig| && SetsSides(before, types)
    ensures forall i :: 0 <= i < |before| && i !in run.indices ==> types[i] == before[i]
    ensures if Resolvable(before, paragraph, lookup, run.indices) then Changed(before, types) else types == before
  {
    hide SequencePairs, PairsResolved, Encloses, OneStep;
    var pairs := StepPairs(before, types, orig, levels, run, paragraph, lookup);
    PairsOfSequence(before, paragraph, lookup, run.indices, pairs);
    PairsEffect(before, types, orig, levels, run, pairs);
  }

  /** Sorting leaves one order. */
  lemma OneStepUnique(before: seq<BidiClass>, a: seq<BidiClass>, b: seq<BidiClass>, orig: seq<BidiClass>, levels: seq<Level>,
                      run: IsoRun, paragraph: seq<char>, lookup: BracketTable)
    requires |orig| == |levels| == |paragraph| && Bounded(levels, run.indices)
    requires OneStep(before, a, orig, levels, run, paragraph, lookup) && OneStep(before, b, orig, levels, run, paragraph, lookup)
    ensures a == b
  {
    hide PairsResolved, OneStep, ByOpening, Collected, Marks;
    var p := StepPairs(before, a, orig, levels, run, paragraph, lookup);
    var q := StepPairs(before, b, orig, levels, run, paragraph, lookup);
    SortUnique(p, q);
    PairsUnique(before, a, b, orig, levels, run, p);
  }

  // ----- Local to the sequence -----

  /** Overflow, and whether there is a pair to resolve, are seen from the sequence alone. */
  lemma SeenFromSequence(a: seq<BidiClass>, b: seq<BidiClass>, paragraph: seq<char>, lookup: BracketTable, indices: seq<nat>)
    requires |a| == |b| == |paragraph| && AgreeOn(a, b, indices)
    requires forall k :: 0 <= k < |indices| ==> indices[k] < |a|
    ensures Marks(a, paragraph, lookup, indices) == Marks(b, paragraph, lookup, indices)
    ensures Overflows(a, paragraph, lookup, indices) == Overflows(b, paragraph, lookup, indices)
    ensures Resolvable(a, paragraph, lookup, indices) == Resolvable(b, paragraph, lookup, indices)
  {
    hide Collect, Collected;
    assert Marks(a, paragraph, lookup, indices) == Marks(b, paragraph, lookup, indices);
    forall p: Pair ensures Encloses(a, indices, p) == Encloses(b, indices, p) {
      assert forall k :: p.openingPos < k < p.closingPos && k < |indices| ==> a[indices[k]] == b[indices[k]];
    }
  }

  /** The classes of one sequence in the place of those of another paragraph. */
  function Overlay(a: seq<BidiClass>, b: seq<BidiClass>, indices: seq<nat>): (r: seq<BidiClass>)
    requires |a| == |b|
    ensures |r| == |a|
  {
    seq(|a|, i requires 0 <= i < |a| => if i in indices then b[i] else a[i])
  }

  lemma PairSideLocal(a: seq<BidiClass>, b: seq<BidiClass>, levels: seq<Level>, run: IsoRun, p: Pair)
    requires |a| == |b| == |levels| && Bounded(levels, run.indices) && AgreeOn(a, b, run.indices)
    requires p.openingPos < p.closingPos < |run.indices|
    ensures PairSide(a, levels, run, p) == PairSide(b, levels, run, p)
  {
    hide Live, SideBefore;
    var prior := run.indices[..p.openingPos];
    assert forall i :: i in prior ==> a[i] == b[i];
    LiveSame(a, b, levels, prior);
  }

  lemma PairSetLocal(a: seq<BidiClass>, a': seq<BidiClass>, b: seq<BidiClass>, orig: seq<BidiClass>, levels: seq<Level>, indices: seq<nat>, p: Pair, bc: BidiClass)
    requires |a| == |b| == |orig| == |levels| && Bounded(levels, indices) && AgreeOn(a, b, indices)
    requires PairSet(a, a', orig, levels, indices, p, bc)
    ensures |a'| == |a| && PairSet(b, Overlay(b, a', indices), orig, levels, indices, p, bc)
  {
    hide Follows;
  }

  lemma {:induction false} PairsLocal(a: seq<BidiClass>, a': seq<BidiClass>, b: seq<BidiClass>, orig: seq<BidiClass>,
                                      levels: seq<Level>, run: IsoRun, pairs: seq<Pair>)
    requires |a| == |b| == |orig| == |levels| && Bounded(levels, run.indices) && AgreeOn(a, b, run.indices)
    requires forall k :: 0 <= k < |pairs| ==> pairs[k].openingPos < pairs[k].closingPos < |run.indices|
    requires PairsResolved(a, a', orig, levels, run, pairs)
    ensures |a'| == |a| && PairsResolved(b, Overlay(b, a', run.indices), orig, levels, run, pairs)
    decreases |pairs|
  {
    hide PairSet, PairSide;
    if pairs == [] {
      OverlaySame(a, b, run.indices);
    } else {
      var n := |pairs| - 1;
      var x := PairsBefore(a, a', orig, levels, run, pairs);
      PairsLocal(a, x, b, orig, levels, run, pairs[..n]);
      var y, b' := Overlay(b, x, run.indices), Overlay(b, a', run.indices);
      OverlayAgrees(b, x, run.indices);
      PairSideLocal(x, y, levels, run, pairs[n]);
      var side := PairSide(x, levels, run, pairs[n]);
      if side.Some? {
        PairSetLocal(x, a', y, orig, levels, run.indices, pairs[n], side.value.AsBidiClass());
        assert Overlay(y, a', run.indices) == b';
      }
    }
  }

  lemma OverlaySame(a: seq<BidiClass>, b: seq<BidiClass>, indices: seq<nat>)
    requires AgreeOn(a, b, indices)
    ensures Overlay(b, a, indices) == b
  {
  }

  lemma OverlayAgrees(a: seq<BidiClass>, b: seq<BidiClass>, indices: seq<nat>)
    requires |a| == |b|
    ensures AgreeOn(b, Overlay(a, b, indices), indices)
  {
  }

  /** N0 for a sequence is a matter of the sequence. */
  lemma StepLocal(a: seq<BidiClass>, a': seq<BidiClass>, b: seq<BidiClass>, orig: seq<BidiClass>, levels: seq<Level>,
                  run: IsoRun, paragraph: seq<char>, lookup: BracketTable)
    requires |b| == |orig| == |levels| == |paragraph| && Bounded(levels, run.indices)
    requires OneStep(a, a', orig, levels, run, paragraph, lookup) && AgreeOn(a, b, run.indices)
    ensures |a'| == |b| && OneStep(b, Overlay(b, a', run.indices), orig, levels, run, paragraph, lookup)
  {
    hide PairsResolved, Collected, ByOpening, Resolvable, Overflows, Overlay, Marks;
    var pairs := StepPairs(a, a', orig, levels, run, paragraph, lookup);
    SeenFromSequence(a, b, paragraph, lookup, run.indices);
    PairsLocal(a, a', b, orig, levels, run, pairs);
    assert SequencePairs(b, paragraph, lookup, run.indices, pairs);
  }

  // ----- Sequence by sequence -----

  /** Where nothing overflows the step of the source is the step of the rule. */
  lemma StepOf(before: seq<BidiClass>, types: seq<BidiClass>, orig: seq<BidiClass>, levels: seq<Level>,
               run: IsoRun, paragraph: seq<char>, lookup: BracketTable)
    requires |before| == |orig| == |levels| == |paragraph| && Bounded(levels, run.indices)
    requires OneResolved(before, types, orig, levels, run, paragraph, lookup)
    requires Collect(Marks(before, paragraph, lookup, run.indices), |run.indices|).Some?
    ensures OneStep(before, types, orig, levels, run, paragraph, lookup)
  {
    hide PairsResolved, ByOpening, Marks, Collect;
    var marks := Marks(before, paragraph, lookup, run.indices);
    var m := CollectedPairs(marks, |run.indices|);
  }

  lemma OnItsOwnKept(start: seq<BidiClass>, a: seq<BidiClass>, b: seq<BidiClass>, orig: seq<BidiClass>, levels: seq<Level>,
                     run: IsoRun, paragraph: seq<char>, lookup: BracketTable)
    requires |orig| == |levels| == |paragraph| && Bounded(levels, run.indices)
    requires OnItsOwn(start, a, orig, levels, run, paragraph, lookup) && AgreeOn(a, b, run.indices)
    ensures OnItsOwn(start, b, orig, levels, run, paragraph, lookup)
  {
    hide OneStep;
    var t :| OneStep(start, t, orig, levels, run, paragraph, lookup) && AgreeOn(t, a, run.indices);
    assert AgreeOn(t, b, run.indices);
  }

  lemma OnItsOwnUnique(start: seq<BidiClass>, a: seq<BidiClass>, b: seq<BidiClass>, orig: seq<BidiClass>, levels: seq<Level>,
                       run: IsoRun, paragraph: seq<char>, lookup: BracketTable)
    requires |orig| == |levels| == |paragraph| && Bounded(levels, run.indices)
    requires OnItsOwn(start, a, orig, levels, run, paragraph, lookup) && OnItsOwn(start, b, orig, levels, run, paragraph, lookup)
    ensures AgreeOn(a, b, run.indices)
  {
    hide OneStep;
    var t :| OneStep(start, t, orig, levels, run, paragraph, lookup) && AgreeOn(t, a, run.indices);
    var u :| OneStep(start, u, orig, levels, run, paragraph, lookup) && AgreeOn(u, b, run.indices);
    OneStepUnique(start, t, u, orig, levels, run, paragraph, lookup);
  }

  /** On its own a sequence changes exactly if it has a pair to resolve. */
  lemma OwnEffect(start: seq<BidiClass>, types: seq<BidiClass>, orig: seq<BidiClass>, levels: seq<Level>,
                  run: IsoRun, paragraph: seq<char>, lookup: BracketTable)
    requires |start| == |orig| == |levels| == |paragraph| && Bounded(levels, run.indices)
    requires OnItsOwn(start, types, orig, levels, run, paragraph, lookup)
    ensures AgreeOn(start, types, run.indices) <==> !Resolvable(start, paragraph, lookup, run.indices)
  {
    hide OneStep, Resolvable;
    var t :| OneStep(start, t, orig, levels, run, paragraph, lookup) && AgreeOn(t, types, run.indices);
    OneEffect(start, t, orig, levels, run, paragraph, lookup);
    if Resolvable(start, paragraph, lookup, run.indices) {
      var i :| 0 <= i < |start| && start[i] == OtherNeutral && t[i] in {LeftToRight, RightToLeft};
      var k :| 0 <= k < |run.indices| && run.indices[k] == i;
      assert t[run.indices[k]] == types[run.indices[k]];
    }
  }

  /** Sequences do not meet. */
  lemma Elsewhere(isoRuns: seq<IsoRun>, s: nat, t: nat)
    requires Disjoint(isoRuns) && s < |isoRuns| && t < |isoRuns| && s != t
    ensures forall k :: 0 <= k < |isoRuns[s].indices| ==> isoRuns[s].indices[k] !in isoRuns[t].indices
  {
    forall k | 0 <= k < |isoRuns[s].indices| ensures isoRuns[s].indices[k] !in isoRuns[t].indices {
      assert isoRuns[s].indices[k] in isoRuns[s].indices;
    }
  }

  /** A sequence that is still to come is as it was. */
  lemma LaterAsBefore(start: seq<BidiClass>, types: seq<BidiClass>, orig: seq<BidiClass>, levels: seq<Level>,
                      isoRuns: seq<IsoRun>, paragraph: seq<char>, lookup: BracketTable, n: nat, s: nat)
    requires |start| == |orig| == |levels| == |paragraph| && n <= s < |isoRuns|
    requires BoundedRuns(levels, isoRuns) && Disjoint(isoRuns)
    requires EachOnItsOwn(start, types, orig, levels, isoRuns, paragraph, lookup, n)
    ensures AgreeOn(start, types, isoRuns[s].indices)
  {
    hide OnItsOwn, Disjoint;
    forall t | 0 <= t < n
      ensures forall k :: 0 <= k < |isoRuns[s].indices| ==> isoRuns[s].indices[k] !in isoRuns[t].indices
    {
      Elsewhere(isoRuns, s, t);
    }
  }

  /** One more sequence, changed in itself only. */
  lemma OneMoreOwn(start: seq<BidiClass>, before: seq<BidiClass>, types: seq<BidiClass>, orig: seq<BidiClass>, levels: seq<Level>,
                   isoRuns: seq<IsoRun>, paragraph: seq<char>, lookup: BracketTable, n: nat)
    requires |start| == |orig| == |levels| == |paragraph| == |types| && n < |isoRuns|
    requires BoundedRuns(levels, isoRuns) && Disjoint(isoRuns)
    requires EachOnItsOwn(start, before, orig, levels, isoRuns, paragraph, lookup, n)
    requires OnItsOwn(start, types, orig, levels, isoRuns[n], paragraph, lookup)
    requires forall i :: 0 <= i < |types| && i !in isoRuns[n].indices ==> types[i] == before[i]
    ensures EachOnItsOwn(start, types, orig, levels, isoRuns, paragraph, lookup, n + 1)
  {
    hide OnItsOwn, Disjoint;
    forall s | 0 <= s < n ensures OnItsOwn(start, types, orig, levels, isoRuns[s], paragraph, lookup) {
      Elsewhere(isoRuns, s, n);
      OnItsOwnKept(start, before, types, orig, levels, isoRuns[s], paragraph, lookup);
    }
  }

  lemma NoneOwn(start: seq<BidiClass>, orig: seq<BidiClass>, levels: seq<Level>, isoRuns: seq<IsoRun>, paragraph: seq<char>, lookup: BracketTable)
    requires |start| == |orig| == |levels| == |paragraph| && BoundedRuns(levels, isoRuns)
    ensures EachOnItsOwn(start, start, orig, levels, isoRuns, paragraph, lookup, 0)
  {
  }

  /** As long as nothing overflows N0 is the rule for each sequence on its own, in spite of
      their order. */
  lemma {:induction false} AlikeBefore(start: seq<BidiClass>, types: seq<BidiClass>, orig: seq<BidiClass>, levels: seq<Level>,
                                       isoRuns: seq<IsoRun>, paragraph: seq<char>, lookup: BracketTable, n: nat)
    requires |start| == |orig| == |levels| == |paragraph| && n <= |isoRuns|
    requires BoundedRuns(levels, isoRuns) && Disjoint(isoRuns)
    requires BracketsResolved(start, types, orig, levels, isoRuns, paragraph, lookup, n)
    ensures EachOnItsOwn(start, types, orig, levels, isoRuns, paragraph, lookup, n)
    ensures forall m :: 0 <= m < n ==> !Overflows(start, paragraph, lookup, isoRuns[m].indices)
    decreases n
  {
    hide BracketsResolved, OneResolved, Collect, Marks, EachOnItsOwn, OneStep, Disjoint, Resolvable, Overlay;
    if n == 0 {
      NoneResolved(start, types, orig, levels, isoRuns, paragraph, lookup);
      NoneOwn(start, orig, levels, isoRuns, paragraph, lookup);
    } else {
      var run := isoRuns[n - 1];
      var before := LastResolved(start, types, orig, levels, isoRuns, paragraph, lookup, n);
      AlikeBefore(start, before, orig, levels, isoRuns, paragraph, lookup, n - 1);
      LaterAsBefore(start, before, orig, levels, isoRuns, paragraph, lookup, n - 1, n - 1);
      SeenFromSequence(before, start, paragraph, lookup, run.indices);
      StepOf(before, types, orig, levels, run, paragraph, lookup);
      OneEffect(before, types, orig, levels, run, paragraph, lookup);
      StepLocal(before, types, start, orig, levels, run, paragraph, lookup);
      var t := Overlay(start, types, run.indices);
      OverlayAgrees(start, types, run.indices);
      assert AgreeOn(t, types, run.indices);
      assert OnItsOwn(start, types, orig, levels, run, paragraph, lookup);
      hide OnItsOwn;
      OneMoreOwn(start, before, types, orig, levels, isoRuns, paragraph, lookup, n - 1);
    }
  }

  // ----- When it makes a difference -----

  /** Some sequence overflows, and it or a later one has a pair to resolve. */
  ghost predicate LosesPair(types: seq<BidiClass>, levels: seq<Level>, paragraph: seq<char>, lookup: BracketTable, isoRuns: seq<IsoRun>)
    requires |types| == |levels| == |paragraph| && BoundedRuns(levels, isoRuns)
  {
    exists m, s :: 0 <= m <= s < |isoRuns|
      && Overflows(types, paragraph, lookup, isoRuns[m].indices)
      && Resolvable(types, paragraph, lookup, isoRuns[s].indices)
  }

  /** Where N0 stops: at the first sequence that overflows. */
  lemma StopsAt(start: seq<BidiClass>, a: seq<BidiClass>, orig: seq<BidiClass>, levels: seq<Level>,
                isoRuns: seq<IsoRun>, paragraph: seq<char>, lookup: BracketTable) returns (n: nat)
    requires |start| == |orig| == |levels| == |paragraph|
    requires BoundedRuns(levels, isoRuns) && Disjoint(isoRuns)
    requires N0(start, a, orig, levels, isoRuns, paragraph, lookup)
    ensures n <= |isoRuns| && EachOnItsOwn(start, a, orig, levels, isoRuns, paragraph, lookup, n)
    ensures forall m :: 0 <= m < n ==> !Overflows(start, paragraph, lookup, isoRuns[m].indices)
    ensures n < |isoRuns| ==> Overflows(start, paragraph, lookup, isoRuns[n].indices)
  {
    hide BracketsResolved, EachOnItsOwn, Resolvable, Collect, Marks;
    n :| n <= |isoRuns| && BracketsResolved(start, a, orig, levels, isoRuns, paragraph, lookup, n)
      && (n < |isoRuns| ==> Collect(Marks(a, paragraph, lookup, isoRuns[n].indices), |isoRuns[n].indices|).None?);
    AlikeBefore(start, a, orig, levels, isoRuns, paragraph, lookup, n);
    if n < |isoRuns| {
      LaterAsBefore(start, a, orig, levels, isoRuns, paragraph, lookup, n, n);
      SeenFromSequence(start, a, paragraph, lookup, isoRuns[n].indices);
    }
  }

  /** Two outcomes that agree along every sequence are the same. */
  lemma OwnEverywhere(start: seq<BidiClass>, a: seq<BidiClass>, b: seq<BidiClass>, orig: seq<BidiClass>, levels: seq<Level>,
                      isoRuns: seq<IsoRun>, paragraph: seq<char>, lookup: BracketTable, m: nat, n: nat)
    requires |start| == |orig| == |levels| == |paragraph| && BoundedRuns(levels, isoRuns)
    requires m <= |isoRuns| && n <= |isoRuns|
    requires EachOnItsOwn(start, a, orig, levels, isoRuns, paragraph, lookup, m)
    requires EachOnItsOwn(start, b, orig, levels, isoRuns, paragraph, lookup, n)
    requires forall s :: 0 <= s < |isoRuns| ==> AgreeOn(a, b, isoRuns[s].indices)
    ensures a == b
  {
    hide OnItsOwn;
    forall i | 0 <= i < |a| ensures a[i] == b[i] {
      if s :| 0 <= s < |isoRuns| && i in isoRuns[s].indices {
        var k :| 0 <= k < |isoRuns[s].indices| && isoRuns[s].indices[k] == i;
      }
    }
  }

  /** N0 as the source has it differs from N0 for each sequence on its own exactly if some
      sequence overflows and it, before it overflows, or a later one has a pair that
      encloses a strong character or number. */
  lemma StopsTooEarlyExactly(start: seq<BidiClass>, a: seq<BidiClass>, b: seq<BidiClass>, orig: seq<BidiClass>, levels: seq<Level>,
                             isoRuns: seq<IsoRun>, paragraph: seq<char>, lookup: BracketTable)
    requires |start| == |orig| == |levels| == |paragraph|
    requires BoundedRuns(levels, isoRuns) && Disjoint(isoRuns)
    requires N0(start, a, orig, levels, isoRuns, paragraph, lookup)
    requires EachOnItsOwn(start, b, orig, levels, isoRuns, paragraph, lookup, |isoRuns|)
    ensures a != b <==> LosesPair(start, levels, paragraph, lookup, isoRuns)
  {
    hide N0, OnItsOwn, Resolvable, Overflows, Disjoint;
    var n := StopsAt(start, a, orig, levels, isoRuns, paragraph, lookup);
    forall s | 0 <= s < |isoRuns|
      ensures AgreeOn(a, b, isoRuns[s].indices) <==> s < n || !Resolvable(start, paragraph, lookup, isoRuns[s].indices)
    {
      assert OnItsOwn(start, b, orig, levels, isoRuns[s], paragraph, lookup);
      if s < n {
        OnItsOwnUnique(start, a, b, orig, levels, isoRuns[s], paragraph, lookup);
      } else {
        LaterAsBefore(start, a, orig, levels, isoRuns, paragraph, lookup, n, s);
        OwnEffect(start, b, orig, levels, isoRuns[s], paragraph, lookup);
      }
    }
    hide EachOnItsOwn;
    if LosesPair(start, levels, paragraph, lookup, isoRuns) {
      var m, s :| 0 <= m <= s < |isoRuns| && Overflows(start, paragraph, lookup, isoRuns[m].indices)
        && Resolvable(start, paragraph, lookup, isoRuns[s].indices);
      assert !AgreeOn(a, b, isoRuns[s].indices);
      if a == b { AgreesWithItself(a, isoRuns[s].indices); }
    } else {
      OwnEverywhere(start, a, b, orig, levels, isoRuns, paragraph, lookup, n, |isoRuns|);
    }
  }

  lemma AgreesWithItself(a: seq<BidiClass>, indices: seq<nat>)
    ensures AgreeOn(a, a, indices)
  {
  }

  // ----- The rule for each sequence has an outcome -----

  lemma PairSetHasOutcome(types: seq<BidiClass>, orig: seq<BidiClass>, levels: seq<Level>, indices: seq<nat>, p: Pair, bc: BidiClass)
    returns (after: seq<BidiClass>)
    requires |types| == |orig| == |levels| && Bounded(levels, indices) && Increasing(indices)
    ensures PairSet(types, after, orig, levels, indices, p, bc)
  {
    hide Follows;
    after := types;
    var n := 0;
    while n < |indices|
      invariant n <= |indices| && |after| == |types|
      invariant forall k :: 0 <= k < |indices| ==>
        after[indices[k]] == if k < n && Follows(orig, levels, indices, p, k) then bc else types[indices[k]]
      invariant forall i :: 0 <= i < |types| && i !in indices ==> after[i] == types[i]
    {
      if Follows(orig, levels, indices, p, n) { after := after[indices[n] := bc]; }
      n := n + 1;
    }
  }

  lemma PairsHaveOutcome(start: seq<BidiClass>, orig: seq<BidiClass>, levels: seq<Level>, run: IsoRun, pairs: seq<Pair>)
    returns (types: seq<BidiClass>)
    requires |start| == |orig| == |levels| && Bounded(levels, run.indices) && Increasing(run.indices)
    requires forall k :: 0 <= k < |pairs| ==> pairs[k].openingPos < pairs[k].closingPos < |run.indices|
    ensures PairsResolved(start, types, orig, levels, run, pairs)
    decreases |pairs|
  {
    hide PairSet, PairSide;
    if pairs == [] {
      types := start;
    } else {
      var n := |pairs| - 1;
      var before := PairsHaveOutcome(start, orig, levels, run, pairs[..n]);
      types := before;
      var side := PairSide(before, levels, run, pairs[n]);
      if side.Some? { types := PairSetHasOutcome(before, orig, levels, run.indices, pairs[n], side.value.AsBidiClass()); }
      SetKeepsLength(before, types, orig, levels, run, pairs[n]);
    }
  }

  lemma SetKeepsLength(before: seq<BidiClass>, types: seq<BidiClass>, orig: seq<BidiClass>, levels: seq<Level>, run: IsoRun, p: Pair)
    requires |before| == |orig| == |levels| && Bounded(levels, run.indices) && p.openingPos < p.closingPos < |run.indices|
    ensures forall bc :: PairSet(before, types, orig, levels, run.indices, p, bc) ==> |types| == |before|
  {
  }

  lemma {:induction false} SortedPairs(pairs: seq<Pair>, n: nat) returns (sorted: seq<Pair>)
    requires NonCrossing(pairs) && n <= |pairs|
    ensures multiset(sorted) == multiset(pairs[..n]) && ByOpening(sorted)
  {
    hide NonCrossing, ByOpening, InsertPair;
    sorted := [];
    NoneOrdered();
    if n > 0 {
      var rest := SortedPairs(pairs, n - 1);
      assert pairs[..n] == pairs[..n - 1] + [pairs[n - 1]];
      DistinctOpening(pairs, n - 1, rest);
      InsertOrdered(rest, pairs[n - 1]);
      sorted := InsertPair(rest, pairs[n - 1]);
    }
  }

  lemma OneHasOutcome(before: seq<BidiClass>, orig: seq<BidiClass>, levels: seq<Level>, run: IsoRun, paragraph: seq<char>, lookup: BracketTable)
    returns (types: seq<BidiClass>)
    requires |before| == |orig| == |levels| == |paragraph| && Bounded(levels, run.indices) && Increasing(run.indices)
    ensures OneStep(before, types, orig, levels, run, paragraph, lookup)
  {
    hide Collected, NonCrossing, ByOpening, PairsResolved, Marks, Encloses;
    var marks := Marks(before, paragraph, lookup, run.indices);
    var st := Collected(marks, |run.indices|);
    var m := CollectedPairs(marks, |run.indices|);
    PairedNonCrossing(marks, m, st);
    var pairs := SortedPairs(st.pairs, |st.pairs|);
    assert st.pairs[..|st.pairs|] == st.pairs;
    PairsOfSequence(before, paragraph, lookup, run.indices, pairs);
    types := PairsHaveOutcome(before, orig, levels, run, pairs);
  }

  /** It always has one. */
  lemma {:induction false} EachHasOutcome(start: seq<BidiClass>, orig: seq<BidiClass>, levels: seq<Level>,
                                          isoRuns: seq<IsoRun>, paragraph: seq<char>, lookup: BracketTable, n: nat) returns (types: seq<BidiClass>)
    requires |start| == |orig| == |levels| == |paragraph| && n <= |isoRuns| && BoundedRuns(levels, isoRuns) && Disjoint(isoRuns)
    requires forall s :: 0 <= s < |isoRuns| ==> Increasing(isoRuns[s].indices)
    ensures EachOnItsOwn(start, types, orig, levels, isoRuns, paragraph, lookup, n)
    decreases n
  {
    hide EachOnItsOwn, OneStep, Increasing, Disjoint;
    if n == 0 {
      types := start;
      NoneOwn(start, orig, levels, isoRuns, paragraph, lookup);
    } else {
      var run := isoRuns[n - 1];
      var before := EachHasOutcome(start, orig, levels, isoRuns, paragraph, lookup, n - 1);
      OwnKeepsLength(start, before, orig, levels, isoRuns, paragraph, lookup, n - 1);
      var t := OneHasOutcome(start, orig, levels, run, paragraph, lookup);
      StepKeepsLength(start, t, orig, levels, run, paragraph, lookup);
      types := Overlay(before, t, run.indices);
      assert OnItsOwn(start, types, orig, levels, run, paragraph, lookup);
      OneMoreOwn(start, before, types, orig, levels, isoRuns, paragraph, lookup, n - 1);
    }
  }

  lemma StepKeepsLength(start: seq<BidiClass>, types: seq<BidiClass>, orig: seq<BidiClass>, levels: seq<Level>,
                        run: IsoRun, paragraph: seq<char>, lookup: BracketTable)
    requires |orig| == |levels| == |paragraph| && Bounded(levels, run.indices)
    requires OneStep(start, types, orig, levels, run, paragraph, lookup)
    ensures |types| == |start|
  {
  }

  lemma OwnKeepsLength(start: seq<BidiClass>, types: seq<BidiClass>, orig: seq<BidiClass>, levels: seq<Level>,
                       isoRuns: seq<IsoRun>, paragraph: seq<char>, lookup: BracketTable, n: nat)
    requires |start| == |orig| == |levels| == |paragraph| && n <= |isoRuns| && BoundedRuns(levels, isoRuns)
    requires EachOnItsOwn(start, types, orig, levels, isoRuns, paragraph, lookup, n)
    ensures |types| == |start|
  {
  }

  // ----- Two texts that lose a pair -----

  /** 64 openers, and then, one embedding deeper, a letter in brackets. */
  const OPENERS: nat := 64

  function Parentheses(c: char): Option<(char, BracketType)> {
    if c == '(' then Some((')', Open)) else if c == ')' then Some(('(', Close)) else None
  }

  function CrowdedText(): (paragraph: seq<char>)
    ensures |paragraph| == OPENERS + 3
  {
    seq(OPENERS, i => '(') + ['(', 'a', ')']
  }

  function CrowdedClasses(): (types: seq<BidiClass>)
    ensures |types| == OPENERS + 3
  {
    seq(OPENERS, i => OtherNeutral) + [OtherNeutral, LeftToRight, OtherNeutral]
  }

  function CrowdedLevels(): (levels: seq<Level>)
    ensures |levels| == OPENERS + 3
  {
    seq(OPENERS + 3, i => if i < OPENERS then 0 else 2)
  }

  function CrowdedRuns(): (isoRuns: seq<IsoRun>)
    ensures |isoRuns| == 2 && isoRuns[0].indices == seq(OPENERS, i => i) && isoRuns[1].indices == [OPENERS, OPENERS + 1, OPENERS + 2]
  {
    [IsoRun([0], OPENERS, 0, LeftToRight, LeftToRight, seq(OPENERS, i => i)),
     IsoRun([1], 3, 2, LeftToRight, LeftToRight, [OPENERS, OPENERS + 1, OPENERS + 2])]
  }

  lemma {:induction false} OpenersWait(marks: seq<Mark>, n: nat)
    requires n <= |marks| && n <= OPENERS && forall k :: 0 <= k < n ==> marks[k].Opening?
    ensures n < OPENERS ==> Collect(marks, n).Some? && |Collect(marks, n).value.waiting| == n
    ensures n == OPENERS ==> Collect(marks, n).None?
  {
    if n > 0 { OpenersWait(marks, n - 1); }
  }

  lemma CrowdedOverflows()
    ensures Overflows(CrowdedClasses(), CrowdedText(), Parentheses, CrowdedRuns()[0].indices)
  {
    var marks := Marks(CrowdedClasses(), CrowdedText(), Parentheses, CrowdedRuns()[0].indices);
    OpenersWait(marks, OPENERS);
  }

  lemma BracketedLetter(marks: seq<Mark>)
    requires marks == [Opening(')'), Other, Closing(')')]
    ensures Collect(marks, 3) == Some(Pairing([], [Pair(0, 2)]))
  {
    var none, one, done := Pairing([], []), Pairing([Waiting(')', 0)], []), Pairing([], [Pair(0, 2)]);
    assert none.waiting + [Waiting(')', 0)] == one.waiting;
    assert PairStep(none, 0, marks[0]) == Some(one);
    assert Seek(one.waiting, ')') == Some(0);
    assert one.waiting[..0] == [] && one.pairs + [Pair(0, 2)] == done.pairs;
    assert PairStep(one, 2, marks[2]) == Some(done);
    assert Collect(marks, 1) == PairStep(none, 0, marks[0]);
    assert Collect(marks, 2) == Some(one);
  }

  lemma CrowdedResolvable()
    ensures Resolvable(CrowdedClasses(), CrowdedText(), Parentheses, CrowdedRuns()[1].indices)
  {
    var indices := CrowdedRuns()[1].indices;
    var marks := Marks(CrowdedClasses(), CrowdedText(), Parentheses, indices);
    assert marks == [Opening(')'), Other, Closing(')')];
    BracketedLetter(marks);
    assert SideOf(CrowdedClasses()[indices[1]]).Some?;
    var pairs := Collected(marks, |indices|).pairs;
    assert pairs[0] == Pair(0, 2) && Encloses(CrowdedClasses(), indices, pairs[0]);
  }

  lemma CrowdedLoses()
    ensures BoundedRuns(CrowdedLevels(), CrowdedRuns()) && Disjoint(CrowdedRuns())
    ensures Overflows(CrowdedClasses(), CrowdedText(), Parentheses, CrowdedRuns()[0].indices)
    ensures LosesPair(CrowdedClasses(), CrowdedLevels(), CrowdedText(), Parentheses, CrowdedRuns())
  {
    hide Overflows, Resolvable;
    CrowdedOverflows();
    CrowdedResolvable();
  }

  /** N0 leaves this text as it is, although the letter's brackets resolve. */
  lemma CrowdedStays(a: seq<BidiClass>, b: seq<BidiClass>)
    requires BoundedRuns(CrowdedLevels(), CrowdedRuns())
    requires N0(CrowdedClasses(), a, CrowdedClasses(), CrowdedLevels(), CrowdedRuns(), CrowdedText(), Parentheses)
    requires EachOnItsOwn(CrowdedClasses(), b, CrowdedClasses(), CrowdedLevels(), CrowdedRuns(), CrowdedText(), Parentheses, 2)
    ensures a == CrowdedClasses() && a != b
  {
    hide N0, EachOnItsOwn, Overflows, LosesPair, Disjoint, BoundedRuns, CrowdedClasses, CrowdedText, CrowdedRuns, CrowdedLevels;
    CrowdedLoses();
    StopsTooEarlyExactly(CrowdedClasses(), a, b, CrowdedClasses(), CrowdedLevels(), CrowdedRuns(), CrowdedText(), Parentheses);
    FirstOverflows(CrowdedClasses(), a, CrowdedClasses(), CrowdedLevels(), CrowdedRuns(), CrowdedText(), Parentheses);
  }

  /** Where the first sequence overflows N0 does nothing. */
  lemma FirstOverflows(start: seq<BidiClass>, a: seq<BidiClass>, orig: seq<BidiClass>, levels: seq<Level>,
                       isoRuns: seq<IsoRun>, paragraph: seq<char>, lookup: BracketTable)
    requires |start| == |orig| == |levels| == |paragraph|
    requires BoundedRuns(levels, isoRuns) && Disjoint(isoRuns) && isoRuns != []
    requires N0(start, a, orig, levels, isoRuns, paragraph, lookup) && Overflows(start, paragraph, lookup, isoRuns[0].indices)
    ensures a == start
  {
    hide N0, OnItsOwn, Overflows, Disjoint;
    var n := StopsAt(start, a, orig, levels, isoRuns, paragraph, lookup);
    assert n == 0;
  }

  /** At level 1, a letter and another one in brackets, and then 64 openers. */
  function LetterText(): (paragraph: seq<char>)
    ensures |paragraph| == OPENERS + 4
  {
    ['a', '(', 'b', ')'] + seq(OPENERS, i => '(')
  }

  function LetterClasses(): (types: seq<BidiClass>)
    ensures |types| == OPENERS + 4
  {
    [LeftToRight, OtherNeutral, LeftToRight, OtherNeutral] + seq(OPENERS, i => OtherNeutral)
  }

  function LetterLevels(): (levels: seq<Level>)
    ensures |levels| == OPENERS + 4
  {
    seq(OPENERS + 4, i => 1)
  }

  function LetterRuns(): (isoRuns: seq<IsoRun>)
    ensures |isoRuns| == 1 && isoRuns[0].indices == seq(OPENERS + 4, i => i)
  {
    [IsoRun([0], OPENERS + 4, 1, RightToLeft, RightToLeft, seq(OPENERS + 4, i => i))]
  }

  /** The pair stays where it was found when more openers follow. */
  lemma {:induction false} PairThenOpeners(marks: seq<Mark>, n: nat)
    requires |marks| == OPENERS + 4 && marks[..4] == [Other, Opening(')'), Other, Closing(')')]
    requires forall k :: 4 <= k < |marks| ==> marks[k].Opening?
    requires 4 <= n < |marks|
    ensures Collect(marks, n).Some? && Collect(marks, n).value.pairs == [Pair(1, 3)] && |Collect(marks, n).value.waiting| == n - 4
  {
    if n > 4 {
      PairThenOpeners(marks, n - 1);
    } else {
      var none, one, done := Pairing([], []), Pairing([Waiting(')', 1)], []), Pairing([], [Pair(1, 3)]);
      assert marks[0] == marks[..4][0] == Other && marks[1] == marks[..4][1] && marks[2] == marks[..4][2] == Other && marks[3] == marks[..4][3];
      assert Collect(marks, 1) == Some(none);
      assert none.waiting + [Waiting(')', 1)] == one.waiting;
      assert Collect(marks, 2) == Some(one);
      assert Collect(marks, 3) == Some(one);
      assert Seek(one.waiting, ')') == Some(0);
      assert one.waiting[..0] == [] && one.pairs + [Pair(1, 3)] == done.pairs;
      assert PairStep(one, 3, marks[3]) == Some(done);
    }
  }

  lemma LetterLoses()
    ensures BoundedRuns(LetterLevels(), LetterRuns()) && Disjoint(LetterRuns())
    ensures Overflows(LetterClasses(), LetterText(), Parentheses, LetterRuns()[0].indices)
    ensures LosesPair(LetterClasses(), LetterLevels(), LetterText(), Parentheses, LetterRuns())
  {
    var indices := LetterRuns()[0].indices;
    var marks := Marks(LetterClasses(), LetterText(), Parentheses, indices);
    var n := |marks|;
    assert marks[..4] == [Other, Opening(')'), Other, Closing(')')];
    hide Marks, Collect;
    PairThenOpeners(marks, n - 1);
    StepOverflows(marks, n);
    assert Collected(marks, n - 1).pairs == [Pair(1, 3)];
    var pairs := Collected(marks, n).pairs;
    assert pairs == [Pair(1, 3)];
    assert SideOf(LetterClasses()[indices[2]]).Some?;
    assert pairs[0] == Pair(1, 3) && Encloses(LetterClasses(), indices, pairs[0]);
    assert Resolvable(LetterClasses(), LetterText(), Parentheses, indices);
    hide Resolvable;
  }

  lemma StepOverflows(marks: seq<Mark>, n: nat)
    requires 0 < n <= |marks| && Collect(marks, n - 1).Some? && marks[n - 1].Opening?
    requires |Collect(marks, n - 1).value.waiting| >= MAX_PAIRING_DEPTH
    ensures Collect(marks, n).None?
  {
  }

  /** N0 leaves this text as it is too, although the pair was found before the stack had no
      room. */
  lemma LetterStays(a: seq<BidiClass>, b: seq<BidiClass>)
    requires BoundedRuns(LetterLevels(), LetterRuns())
    requires N0(LetterClasses(), a, LetterClasses(), LetterLevels(), LetterRuns(), LetterText(), Parentheses)
    requires EachOnItsOwn(LetterClasses(), b, LetterClasses(), LetterLevels(), LetterRuns(), LetterText(), Parentheses, 1)
    ensures a == LetterClasses() && a != b
  {
    hide N0, EachOnItsOwn, Overflows, LosesPair, Disjoint, BoundedRuns, LetterClasses, LetterText, LetterRuns, LetterLevels;
    LetterLoses();
    StopsTooEarlyExactly(LetterClasses(), a, b, LetterClasses(), LetterLevels(), LetterRuns(), LetterText(), Parentheses);
    FirstOverflows(LetterClasses(), a, LetterClasses(), LetterLevels(), LetterRuns(), LetterText(), Parentheses);
  }
}
