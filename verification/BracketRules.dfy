/** BD14-BD16 read off the text: which brackets are pairs, and when a sequence has too many
    that wait. */
module BracketRules {
  import opened Wrappers
  import opened BidiTypes
  import opened Runs
  import opened TextChains
  import opened PlainRules
  import opened Brackets

  /** The bracket at `c` closes the one at `o`; U+232A and U+3009 stand for each other. */
  ghost predicate Fitting(marks: seq<Mark>, o: nat, c: nat)
    requires o < |marks| && c < |marks|
  {
    && marks[o].Opening? && marks[c].Closing?
    && (marks[o].closing == marks[c].bracket || {marks[o].closing, marks[c].bracket} == {'\U{232A}', '\U{3009}'})
  }

  /** Up to `n` no pair has been closed that begins at `o` or has `o` inside. */
  ghost predicate StillWaits(pairs: seq<Pair>, o: nat, n: nat) {
    forall q :: q in pairs && q.openingPos <= o < q.closingPos ==> q.closingPos >= n
  }

  /** BD16: a closing bracket pairs with the last opening one that fits and still waits. */
  ghost predicate IsPair(marks: seq<Mark>, pairs: seq<Pair>, o: nat, c: nat)
    requires o < c < |marks|
  {
    && Fitting(marks, o, c)
    && StillWaits(pairs, o, c)
    && forall p :: o < p < c && Fitting(marks, p, c) ==> !StillWaits(pairs, p, c)
  }

  ghost predicate WaitsIn(waiting: seq<Waiting>, o: nat) {
    exists d :: 0 <= d < |waiting| && waiting[d].pos == o
  }

  /** The machine after `n` positions. */
  ghost predicate Exact(marks: seq<Mark>, n: nat, st: Pairing) {
    && n <= |marks|
    && (forall o :: 0 <= o < n ==> (WaitsIn(st.waiting, o) <==> marks[o].Opening? && StillWaits(st.pairs, o, n)))
    && (forall o, c :: 0 <= o < c < n ==> (Pair(o, c) in st.pairs <==> IsPair(marks, st.pairs, o, c)))
  }

  lemma ClosesIsFitting(marks: seq<Mark>, o: nat, c: nat)
    requires o < |marks| && c < |marks| && marks[o].Opening? && marks[c].Closing?
    ensures Fitting(marks, o, c) <==> Closes(marks[o].closing, marks[c].bracket)
  {
    var a, b := marks[o].closing, marks[c].bracket;
    if {a, b} == {'\U{232A}', '\U{3009}'} {
      assert '\U{232A}' in {a, b} && '\U{3009}' in {a, b};
    }
  }

  ghost predicate ClosedBefore(pairs: seq<Pair>, n: nat) {
    forall q :: q in pairs ==> q.openingPos < q.closingPos < n
  }

  lemma PairedBefore(marks: seq<Mark>, n: nat, st: Pairing)
    requires Paired(marks, n, st)
    ensures ClosedBefore(st.pairs, n)
    ensures forall d :: 0 <= d < |st.waiting| ==> st.waiting[d].pos < n <= |marks| && marks[st.waiting[d].pos] == Opening(st.waiting[d].closing)
    ensures forall d, e :: 0 <= d < e < |st.waiting| ==> st.waiting[d].pos < st.waiting[e].pos
  {
    forall q | q in st.pairs ensures q.openingPos < q.closingPos < n {
      var k :| 0 <= k < |st.pairs| && st.pairs[k] == q;
      assert Joins(marks, st.pairs[k]);
    }
  }

  /** Nothing is closed at the `n`-th position. */
  lemma NoneClosed(pairs: seq<Pair>, o: nat, n: nat)
    requires ClosedBefore(pairs, n)
    ensures StillWaits(pairs, o, n + 1) <==> StillWaits(pairs, o, n)
    ensures o >= n ==> StillWaits(pairs, o, n)
  {
  }

  /** An entry above those that the search stops at does not fit. */
  lemma AboveDoesNotFit(marks: seq<Mark>, n: nat, st: Pairing, d: int, o: nat)
    requires n < |marks| && Paired(marks, n, st) && -1 <= d < |st.waiting|
    requires marks[n].Closing? ==> forall e :: d < e < |st.waiting| ==> !Closes(st.waiting[e].closing, marks[n].bracket)
    requires WaitsIn(st.waiting, o) && (d >= 0 ==> st.waiting[d].pos < o)
    ensures o < |marks| && !Fitting(marks, o, n)
  {
    PairedBefore(marks, n, st);
    hide Paired;
    var e :| 0 <= e < |st.waiting| && st.waiting[e].pos == o;
    assert marks[o] == Opening(st.waiting[e].closing);
    assert d < e;
    if marks[n].Closing? { ClosesIsFitting(marks, o, n); }
  }

  lemma ExactOther(marks: seq<Mark>, n: nat, st: Pairing)
    requires n < |marks| && Paired(marks, n, st) && Exact(marks, n, st)
    requires marks[n] == Other || (marks[n].Closing? && Seek(st.waiting, marks[n].bracket).None?)
    ensures Exact(marks, n + 1, st)
  {
    PairedBefore(marks, n, st);
    hide Paired, StillWaits;
    forall o | 0 <= o <= n ensures StillWaits(st.pairs, o, n + 1) <==> StillWaits(st.pairs, o, n) {
      NoneClosed(st.pairs, o, n);
    }
    forall o | 0 <= o < n ensures !IsPair(marks, st.pairs, o, n) && Pair(o, n) !in st.pairs {
      assert WaitsIn(st.waiting, o) <==> marks[o].Opening? && StillWaits(st.pairs, o, n);
      if WaitsIn(st.waiting, o) { AboveDoesNotFit(marks, n, st, -1, o); }
    }
    hide IsPair;
  }

  lemma ExactOpen(marks: seq<Mark>, n: nat, st: Pairing, closing: char)
    requires n < |marks| && Paired(marks, n, st) && Exact(marks, n, st) && marks[n] == Opening(closing)
    ensures Exact(marks, n + 1, st.(waiting := st.waiting + [Waiting(closing, n)]))
  {
    PairedBefore(marks, n, st);
    hide Paired, StillWaits;
    var more := st.waiting + [Waiting(closing, n)];
    forall o | 0 <= o <= n
      ensures StillWaits(st.pairs, o, n + 1) <==> StillWaits(st.pairs, o, n)
      ensures WaitsIn(more, o) <==> WaitsIn(st.waiting, o) || o == n
      ensures o == n ==> StillWaits(st.pairs, o, n)
    {
      NoneClosed(st.pairs, o, n);
      if WaitsIn(st.waiting, o) {
        var d :| 0 <= d < |st.waiting| && st.waiting[d].pos == o;
        assert more[d].pos == o;
      }
      assert more[|st.waiting|].pos == n;
    }
    forall o | 0 <= o < n ensures !IsPair(marks, st.pairs, o, n) && Pair(o, n) !in st.pairs {
    }
    hide IsPair, WaitsIn;
  }

  /** A pair closed at `n` decides nothing before. */
  lemma OneMoreClosed(pairs: seq<Pair>, p: Pair, o: nat, n: nat, m: nat)
    requires ClosedBefore(pairs, n) && p.openingPos < p.closingPos == n && o <= n
    ensures m <= n ==> (StillWaits(pairs + [p], o, m) <==> StillWaits(pairs, o, m))
    ensures o < n ==> (StillWaits(pairs + [p], o, n + 1) <==> StillWaits(pairs, o, n) && o < p.openingPos)
  {
    assert forall q :: q in pairs + [p] <==> q in pairs || q == p;
    assert p in pairs + [p];
  }

  lemma ExactClose(marks: seq<Mark>, n: nat, st: Pairing, d: nat, bracket: char)
    requires n < |marks| && Paired(marks, n, st) && Exact(marks, n, st) && marks[n] == Closing(bracket)
    requires Seek(st.waiting, bracket) == Some(d)
    ensures Exact(marks, n + 1, Pairing(st.waiting[..d], st.pairs + [Pair(st.waiting[d].pos, n)]))
  {
    PairedBefore(marks, n, st);
    hide Paired;
    var p := Pair(st.waiting[d].pos, n);
    var next := st.pairs + [p];
    ExactCloseWaits(marks, n, st, d, bracket);
    forall o, c | 0 <= o < c < n + 1 ensures Pair(o, c) in next <==> IsPair(marks, next, o, c) {
      SamePair(marks, st.pairs, p, o, c, n);
      assert Pair(o, c) in next <==> Pair(o, c) in st.pairs || Pair(o, c) == p;
      hide IsPair, StillWaits;
      if c == n { LastFitting(marks, n, st, d, bracket, o); }
    }
  }

  lemma SamePair(marks: seq<Mark>, pairs: seq<Pair>, p: Pair, o: nat, c: nat, n: nat)
    requires ClosedBefore(pairs, n) && p.openingPos < p.closingPos == n && o < c <= n < |marks|
    ensures IsPair(marks, pairs + [p], o, c) <==> IsPair(marks, pairs, o, c)
  {
    forall q: nat | q < c ensures StillWaits(pairs + [p], q, c) <==> StillWaits(pairs, q, c) {
      OneMoreClosed(pairs, p, q, n, c);
    }
    hide StillWaits, Fitting;
  }

  lemma ExactCloseWaits(marks: seq<Mark>, n: nat, st: Pairing, d: nat, bracket: char)
    requires n < |marks| && Paired(marks, n, st) && Exact(marks, n, st) && marks[n] == Closing(bracket)
    requires Seek(st.waiting, bracket) == Some(d)
    ensures var next := st.pairs + [Pair(st.waiting[d].pos, n)];
      forall o :: 0 <= o < n + 1 ==> (WaitsIn(st.waiting[..d], o) <==> marks[o].Opening? && StillWaits(next, o, n + 1))
  {
    PairedBefore(marks, n, st);
    hide Paired, StillWaits, IsPair;
    var p := Pair(st.waiting[d].pos, n);
    forall o | 0 <= o < n + 1
      ensures WaitsIn(st.waiting[..d], o) <==> marks[o].Opening? && StillWaits(st.pairs + [p], o, n + 1)
    {
      OneMoreClosed(st.pairs, p, o, n, n);
      if WaitsIn(st.waiting[..d], o) {
        var e :| 0 <= e < d && st.waiting[..d][e].pos == o;
        assert st.waiting[e].pos == o;
      }
      if WaitsIn(st.waiting, o) && o < p.openingPos {
        var e :| 0 <= e < |st.waiting| && st.waiting[e].pos == o;
        assert e < d;
        assert st.waiting[..d][e].pos == o;
      }
    }
  }

  /** The topmost entry that fits is the last opening bracket that fits and still waits. */
  lemma LastFitting(marks: seq<Mark>, n: nat, st: Pairing, d: nat, bracket: char, o: nat)
    requires n < |marks| && Paired(marks, n, st) && Exact(marks, n, st) && marks[n] == Closing(bracket)
    requires Seek(st.waiting, bracket) == Some(d) && o < n
    ensures IsPair(marks, st.pairs, o, n) <==> o == st.waiting[d].pos
  {
    PairedBefore(marks, n, st);
    hide Paired, StillWaits;
    var last := st.waiting[d].pos;
    assert WaitsIn(st.waiting, last);
    ClosesIsFitting(marks, last, n);
    forall p | last < p < n ensures !(Fitting(marks, p, n) && StillWaits(st.pairs, p, n)) {
      assert WaitsIn(st.waiting, p) <==> marks[p].Opening? && StillWaits(st.pairs, p, n);
      if WaitsIn(st.waiting, p) { AboveDoesNotFit(marks, n, st, d, p); }
    }
  }

  lemma ExactNext(marks: seq<Mark>, n: nat, st: Pairing)
    requires n < |marks| && Paired(marks, n, st) && Exact(marks, n, st)
    ensures var next := PairStep(st, n, marks[n]); next.Some? ==> Exact(marks, n + 1, next.value)
  {
    hide Paired, Exact;
    match marks[n]
    case Other => ExactOther(marks, n, st);
    case Opening(closing) => ExactOpen(marks, n, st, closing);
    case Closing(bracket) =>
      var d := Seek(st.waiting, bracket);
      if d.None? { ExactOther(marks, n, st); } else { ExactClose(marks, n, st, d.value, bracket); }
  }

  lemma {:induction false} CollectExact(marks: seq<Mark>, n: nat)
    requires n <= |marks|
    ensures var st := Collect(marks, n); st.Some? ==> Paired(marks, n, st.value) && Exact(marks, n, st.value)
  {
    hide Paired, Exact, PairStep;
    CollectPairs(marks, n);
    if n == 0 {
      NoneExact(marks);
    } else {
      CollectExact(marks, n - 1);
      if Collect(marks, n - 1).Some? { ExactNext(marks, n - 1, Collect(marks, n - 1).value); }
    }
  }

  lemma NoneExact(marks: seq<Mark>)
    ensures Exact(marks, 0, Pairing([], []))
  {
  }

  /** The pairs of a sequence are exactly those of BD16. */
  lemma PairsExactly(marks: seq<Mark>, o: nat, c: nat)
    requires o < c < |marks|
    ensures var st := Collect(marks, |marks|);
      st.Some? ==> (Pair(o, c) in st.value.pairs <==> IsPair(marks, st.value.pairs, o, c))
  {
    hide IsPair, Paired;
    CollectExact(marks, |marks|);
  }

  /** And that leaves no choice. */
  ghost predicate AreThePairs(marks: seq<Mark>, pairs: seq<Pair>) {
    && ClosedBefore(pairs, |marks|)
    && forall o, c :: 0 <= o < c < |marks| ==> (Pair(o, c) in pairs <==> IsPair(marks, pairs, o, c))
  }

  lemma {:induction false} PairsDetermined(marks: seq<Mark>, a: seq<Pair>, b: seq<Pair>, n: nat)
    requires AreThePairs(marks, a) && AreThePairs(marks, b) && n <= |marks|
    ensures forall q: Pair :: q.closingPos < n ==> (q in a <==> q in b)
  {
    if n > 0 {
      PairsDetermined(marks, a, b, n - 1);
      var c := n - 1;
      forall o: nat ensures StillWaits(a, o, c) <==> StillWaits(b, o, c) {
        SameWaits(a, b, o, c);
      }
      forall q: Pair | q.closingPos == c ensures q in a <==> q in b {
        if q.openingPos < c {
          hide StillWaits, Fitting;
          assert IsPair(marks, a, q.openingPos, c) <==> IsPair(marks, b, q.openingPos, c);
          assert q == Pair(q.openingPos, c);
        }
      }
    }
  }

  lemma SameWaits(a: seq<Pair>, b: seq<Pair>, o: nat, c: nat)
    requires forall q: Pair :: q.closingPos < c ==> (q in a <==> q in b)
    ensures StillWaits(a, o, c) <==> StillWaits(b, o, c)
  {
  }

  /** The opening brackets that still wait at `n`. */
  ghost function WaitingAt(marks: seq<Mark>, pairs: seq<Pair>, n: nat): set<nat>
    requires n <= |marks|
  {
    set o | 0 <= o < n && marks[o].Opening? && StillWaits(pairs, o, n)
  }

  ghost function Positions(waiting: seq<Waiting>): set<nat> {
    set d | 0 <= d < |waiting| :: waiting[d].pos
  }

  lemma {:induction false} PositionCount(waiting: seq<Waiting>)
    requires forall d, e :: 0 <= d < e < |waiting| ==> waiting[d].pos < waiting[e].pos
    ensures |Positions(waiting)| == |waiting|
  {
    if waiting != [] {
      var n := |waiting| - 1;
      var rest := waiting[..n];
      PositionCount(rest);
      assert Positions(waiting) == Positions(rest) + {waiting[n].pos} by {
        forall x ensures x in Positions(waiting) <==> x in Positions(rest) + {waiting[n].pos} {
          if x in Positions(rest) { var d :| 0 <= d < n && rest[d].pos == x; assert waiting[d].pos == x; }
          if x in Positions(waiting) { var d :| 0 <= d <= n && waiting[d].pos == x; if d < n { assert rest[d].pos == x; } }
        }
      }
      assert waiting[n].pos !in Positions(rest);
    }
  }

  lemma WaitingCount(marks: seq<Mark>, n: nat, st: Pairing)
    requires n <= |marks| && Paired(marks, n, st) && Exact(marks, n, st)
    ensures |WaitingAt(marks, st.pairs, n)| == |st.waiting|
  {
    PairedBefore(marks, n, st);
    PositionCount(st.waiting);
    hide Paired, StillWaits, IsPair;
    forall o ensures o in WaitingAt(marks, st.pairs, n) <==> o in Positions(st.waiting) {
      if 0 <= o < n { assert WaitsIn(st.waiting, o) <==> marks[o].Opening? && StillWaits(st.pairs, o, n); }
    }
    assert WaitingAt(marks, st.pairs, n) == Positions(st.waiting);
  }

  /** A sequence has too many brackets exactly if an opening one comes while 63 wait. */
  lemma {:induction false} OverflowExactly(marks: seq<Mark>, n: nat)
    requires n <= |marks|
    ensures Collect(marks, n).None? <==>
      exists m :: 0 <= m < n && Collect(marks, m).Some? && marks[m].Opening? && |WaitingAt(marks, Collect(marks, m).value.pairs, m)| >= 63
  {
    hide Paired, Exact, WaitingAt;
    if n > 0 {
      OverflowExactly(marks, n - 1);
      CollectExact(marks, n - 1);
      var st := Collect(marks, n - 1);
      if st.Some? {
        WaitingCount(marks, n - 1, st.value);
      }
    }
  }

  /** BD14 and BD15: only a bracket of the table that is still ON takes part. */
  lemma MarkMeans(types: seq<BidiClass>, paragraph: seq<char>, lookup: BracketTable, indices: seq<nat>, k: nat)
    requires |types| == |paragraph| && k < |indices|
    requires forall p :: 0 <= p < |indices| ==> indices[p] < |types|
    ensures var i, mark := indices[k], Marks(types, paragraph, lookup, indices)[k];
      && (mark.Opening? <==> types[i] == OtherNeutral && lookup(paragraph[i]).Some? && lookup(paragraph[i]).value.1 == Open)
      && (mark.Closing? <==> types[i] == OtherNeutral && lookup(paragraph[i]).Some? && lookup(paragraph[i]).value.1 == Close)
      && (mark.Opening? ==> lookup(paragraph[i]).value.0 == mark.closing)
      && (mark.Closing? ==> mark.bracket == paragraph[i])
  {
  }

  // ----- N0 for all pairs of a sequence -----

  /** From text to text, each pair is resolved by what the one before left. */
  ghost predicate PairByPair(texts: seq<seq<BidiClass>>, orig: seq<BidiClass>, run: IsoRun, pairs: seq<Pair>) {
    && |texts| == |pairs| + 1
    && (forall k :: 0 <= k < |texts| ==> |texts[k]| == |orig| == |run.indices|)
    && forall k :: 0 <= k < |pairs| ==> OneByOne(texts[k], texts[k + 1], orig, run, pairs[k])
  }

  ghost predicate OneByOne(before: seq<BidiClass>, after: seq<BidiClass>, orig: seq<BidiClass>, run: IsoRun, p: Pair) {
    && p.openingPos < p.closingPos < |before| == |orig|
    && ByN0(before, orig, run.level, run.sos, p.openingPos, p.closingPos, after)
  }

  lemma OneMore(texts: seq<seq<BidiClass>>, orig: seq<BidiClass>, run: IsoRun, pairs: seq<Pair>, text: seq<BidiClass>)
    requires pairs != [] && PairByPair(texts, orig, run, pairs[..|pairs| - 1])
    requires |text| == |orig| && OneByOne(texts[|pairs| - 1], text, orig, run, pairs[|pairs| - 1])
    ensures PairByPair(texts + [text], orig, run, pairs)
  {
    hide OneByOne;
    var all, n := texts + [text], |pairs| - 1;
    forall k | 0 <= k < |pairs| ensures OneByOne(all[k], all[k + 1], orig, run, pairs[k]) {
      if k < n { assert OneByOne(texts[k], texts[k + 1], orig, run, pairs[..n][k]); }
    }
  }

  lemma {:induction false} PairsMean(start: seq<BidiClass>, types: seq<BidiClass>, orig: seq<BidiClass>, levels: seq<Level>,
                                     run: IsoRun, pairs: seq<Pair>) returns (texts: seq<seq<BidiClass>>)
    requires |start| == |orig| == |levels| && Chain(levels, run) && Inert(start, levels) && Inert(orig, levels)
    requires LivePairs(levels, run, pairs) && PairsResolved(start, types, orig, levels, run, pairs)
    ensures |types| == |start| && OnlySides(start, types, levels)
    ensures PairByPair(texts, Along(orig, run.indices), run, pairs)
    ensures texts[0] == Along(start, run.indices) && texts[|pairs|] == Along(types, run.indices)
    decreases |pairs|
  {
    hide PairSide, PairSet, OnlySides, Inert, ByN0;
    if pairs == [] {
      OnlySidesSelf(start, levels);
      texts := [Along(start, run.indices)];
    } else {
      var n := |pairs| - 1;
      var before: seq<BidiClass> :|
        && PairsResolved(start, before, orig, levels, run, pairs[..n])
        && match PairSide(before, levels, run, pairs[n])
           case None => types == before
           case Some(side) => PairSet(before, types, orig, levels, run.indices, pairs[n], side.AsBidiClass());
      texts := PairsMean(start, before, orig, levels, run, pairs[..n]);
      OnlySidesInert(start, before, levels);
      PairMeans(before, types, orig, levels, run, pairs[n]);
      OneMore(texts, Along(orig, run.indices), run, pairs, Along(types, run.indices));
      texts := texts + [Along(types, run.indices)];
      var side := PairSide(before, levels, run, pairs[n]);
      if side.Some? { LastLive(levels, run, pairs); PairSetOnlySides(before, types, orig, levels, run, pairs[n], side.value); }
      else { OnlySidesSelf(before, levels); }
      OnlySidesTrans(start, before, types, levels);
    }
  }

  lemma LastLive(levels: seq<Level>, run: IsoRun, pairs: seq<Pair>)
    requires Bounded(levels, run.indices) && pairs != [] && LivePairs(levels, run, pairs)
    ensures LivePairs(levels, run, [pairs[|pairs| - 1]])
  {
  }
}
