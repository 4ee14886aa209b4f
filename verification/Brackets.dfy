/** Rule N0: the bracket pairs of a sequence (BD16) and their resolution. */
module Brackets {
  import opened Wrappers
  import opened BidiTypes
  import opened Runs
  import opened TextChains
  import opened PlainRules
  import opened Neutral

  const MAX_PAIRING_DEPTH: nat := 63

  datatype BracketType = Open | Close

  datatype Pair = Pair(openingPos: nat, closingPos: nat)

  /** An opening bracket waiting for its closing one. */
  datatype Waiting = Waiting(closing: char, pos: nat)

  /** What a position of the chain is to BD16. */
  datatype Mark = Other | Opening(closing: char) | Closing(bracket: char)

  /** The closing bracket `b` closes what waits for `a`; the two canonically
      equivalent angle brackets close each other. */
  predicate Closes(a: char, b: char) {
    || a == b
    || (a == '\U{232A}' && b == '\U{3009}')
    || (a == '\U{3009}' && b == '\U{232A}')
  }

  // ----- BD16 -----

  datatype Pairing = Pairing(waiting: seq<Waiting>, pairs: seq<Pair>)

  /** The topmost entry that `bracket` closes. */
  function Seek(waiting: seq<Waiting>, bracket: char): (d: Option<nat>)
    ensures d.Some? ==> d.value < |waiting| && Closes(waiting[d.value].closing, bracket)
    ensures d.Some? ==> forall e :: d.value < e < |waiting| ==> !Closes(waiting[e].closing, bracket)
    ensures d.None? ==> forall e :: 0 <= e < |waiting| ==> !Closes(waiting[e].closing, bracket)
  {
    if waiting == [] then None
    else if Closes(waiting[|waiting| - 1].closing, bracket) then Some(|waiting| - 1)
    else Seek(waiting[..|waiting| - 1], bracket)
  }

  /** One position; None when the stack overflows. */
  function PairStep(st: Pairing, pos: nat, mark: Mark): Option<Pairing> {
    match mark
    case Other => Some(st)
    case Opening(closing) =>
      if |st.waiting| >= MAX_PAIRING_DEPTH then None
      else Some(st.(waiting := st.waiting + [Waiting(closing, pos)]))
    case Closing(bracket) =>
      match Seek(st.waiting, bracket)
      case None => Some(st)
      case Some(d) => Some(Pairing(st.waiting[..d], st.pairs + [Pair(st.waiting[d].pos, pos)]))
  }

  function Collect(marks: seq<Mark>, n: nat): Option<Pairing>
    requires n <= |marks|
  {
    if n == 0 then Some(Pairing([], []))
    else
      match Collect(marks, n - 1)
      case None => None
      case Some(st) => PairStep(st, n - 1, marks[n - 1])
  }

  predicate Crossing(p: Pair, q: Pair) {
    p.openingPos < q.openingPos < p.closingPos < q.closingPos
  }

  predicate ShareEnd(p: Pair, q: Pair) {
    || p.openingPos in {q.openingPos, q.closingPos}
    || p.closingPos in {q.openingPos, q.closingPos}
  }

  /** The pair joins an opening bracket to a later bracket that closes it. */
  predicate Joins(marks: seq<Mark>, p: Pair) {
    && p.openingPos < p.closingPos < |marks|
    && marks[p.openingPos].Opening?
    && marks[p.closingPos].Closing?
    && Closes(marks[p.openingPos].closing, marks[p.closingPos].bracket)
  }

  /** What BD16 promises after `n` positions. */
  ghost predicate Paired(marks: seq<Mark>, n: nat, st: Pairing) {
    && n <= |marks|
    && |st.waiting| <= MAX_PAIRING_DEPTH
    && (forall d :: 0 <= d < |st.waiting| ==>
          st.waiting[d].pos < n && marks[st.waiting[d].pos] == Opening(st.waiting[d].closing))
    && (forall d, e :: 0 <= d < e < |st.waiting| ==> st.waiting[d].pos < st.waiting[e].pos)
    && (forall k :: 0 <= k < |st.pairs| ==> Joins(marks, st.pairs[k]) && st.pairs[k].closingPos < n)
    && (forall k, d :: 0 <= k < |st.pairs| && 0 <= d < |st.waiting| ==>
          st.waiting[d].pos < st.pairs[k].openingPos || st.pairs[k].closingPos < st.waiting[d].pos)
    && NonCrossing(st.pairs)
  }

  /** No two pairs share an end or cross. */
  ghost predicate NonCrossing(pairs: seq<Pair>) {
    forall j, k :: 0 <= j < k < |pairs| ==>
      !ShareEnd(pairs[j], pairs[k]) && !Crossing(pairs[j], pairs[k]) && !Crossing(pairs[k], pairs[j])
  }

  lemma OpenKeeps(marks: seq<Mark>, n: nat, st: Pairing, closing: char)
    requires n < |marks| && Paired(marks, n, st) && marks[n] == Opening(closing) && |st.waiting| < MAX_PAIRING_DEPTH
    ensures Paired(marks, n + 1, st.(waiting := st.waiting + [Waiting(closing, n)]))
  {
    hide NonCrossing, Joins;
  }

  lemma CloseKeeps(marks: seq<Mark>, n: nat, st: Pairing, d: nat, bracket: char)
    requires n < |marks| && Paired(marks, n, st) && marks[n] == Closing(bracket)
    requires d < |st.waiting| && Closes(st.waiting[d].closing, bracket)
    ensures Paired(marks, n + 1, Pairing(st.waiting[..d], st.pairs + [Pair(st.waiting[d].pos, n)]))
  {
    var p := Pair(st.waiting[d].pos, n);
    AppendNonCrossing(st.pairs, p);
    hide NonCrossing;
    assert Joins(marks, p);
    hide Joins;
  }

  lemma PairStepKeeps(marks: seq<Mark>, n: nat, st: Pairing)
    requires n < |marks| && Paired(marks, n, st)
    ensures var next := PairStep(st, n, marks[n]);
      next.Some? ==> Paired(marks, n + 1, next.value)
  {
    match marks[n]
    case Opening(closing) =>
      hide Paired;
      if |st.waiting| < MAX_PAIRING_DEPTH { OpenKeeps(marks, n, st, closing); }
    case Closing(bracket) =>
      var d := Seek(st.waiting, bracket);
      OtherKeeps(marks, n, st);
      hide Paired;
      if d.Some? { CloseKeeps(marks, n, st, d.value, bracket); }
    case Other =>
      OtherKeeps(marks, n, st);
  }

  lemma OtherKeeps(marks: seq<Mark>, n: nat, st: Pairing)
    requires n < |marks| && Paired(marks, n, st)
    ensures Paired(marks, n + 1, st)
  {
    hide NonCrossing, Joins;
  }

  lemma AppendNonCrossing(pairs: seq<Pair>, p: Pair)
    requires NonCrossing(pairs)
    requires forall k :: 0 <= k < |pairs| ==>
      && pairs[k].openingPos < pairs[k].closingPos < p.closingPos
      && (p.openingPos < pairs[k].openingPos || pairs[k].closingPos < p.openingPos)
    ensures NonCrossing(pairs + [p])
  {
  }

  /** BD16 over a whole sequence: every pair joins an opener to a later bracket that
      closes it, all ends are distinct, any two pairs are nested or disjoint, and
      the openers still waiting are at most 63, in order, and inside no pair. */
  lemma {:induction false} CollectPairs(marks: seq<Mark>, n: nat)
    requires n <= |marks|
    ensures var st := Collect(marks, n); st.Some? ==> Paired(marks, n, st.value)
  {
    hide Paired, PairStep;
    if n > 0 {
      CollectPairs(marks, n - 1);
      if Collect(marks, n - 1).Some? { PairStepKeeps(marks, n - 1, Collect(marks, n - 1).value); }
    } else {
      NothingPaired(marks);
    }
  }

  lemma NothingPaired(marks: seq<Mark>)
    ensures Paired(marks, 0, Pairing([], []))
  {
  }

  // ----- The bracket stack -----

  class BracketStack {
    var closingBracket: array<char>
    var position: array<nat>
    var depth: nat
    var pairs: seq<Pair>

    /** The entries in use, oldest first. */
    ghost var Waits: seq<Waiting>

    ghost function Repr(): set<object>
      reads this
    {
      {this, closingBracket, position}
    }

    ghost predicate Valid()
      reads this, Repr()
    {
      && closingBracket.Length == position.Length == MAX_PAIRING_DEPTH
      && depth == |Waits| <= MAX_PAIRING_DEPTH
      && forall i :: 0 <= i < depth ==> Waits[i] == Waiting(closingBracket[i], position[i])
    }

    constructor ()
      ensures Valid() && fresh(Repr())
      ensures Waits == [] && pairs == []
    {
      closingBracket := new char[MAX_PAIRING_DEPTH](_ => ' ');
      position := new nat[MAX_PAIRING_DEPTH](_ => 0);
      depth := 0;
      pairs := [];
      Waits := [];
    }

    method Clear()
      requires Valid()
      modifies this`depth, this`pairs, this`Waits
      ensures Valid() && Repr() == old(Repr())
      ensures Waits == [] && pairs == []
    {
      pairs := [];
      depth := 0;
      Waits := [];
    }

    method Push(closing: char, pos: nat) returns (ok: bool)
      requires Valid()
      modifies Repr()
      ensures Valid() && Repr() == old(Repr()) && pairs == old(pairs)
      ensures ok <==> |old(Waits)| < MAX_PAIRING_DEPTH
      ensures Waits == if ok then old(Waits) + [Waiting(closing, pos)] else old(Waits)
    {
      if depth >= MAX_PAIRING_DEPTH {
        return false;
      }
      closingBracket[depth] := closing;
      position[depth] := pos;
      depth := depth + 1;
      Waits := Waits + [Waiting(closing, pos)];
      ok := true;
    }

    method SeekMatchingOpenBracket(bracket: char, pos: nat) returns (found: bool)
      requires Valid()
      modifies this`depth, this`pairs, this`Waits
      ensures Valid() && Repr() == old(Repr())
      ensures found <==> Seek(old(Waits), bracket).Some?
      ensures Some(Pairing(Waits, pairs)) == PairStep(Pairing(old(Waits), old(pairs)), pos, Closing(bracket))
    {
      var d := depth;
      assert Waits[..d] == Waits;
      while d > 0
        invariant 0 <= d <= depth && Valid()
        invariant Waits == old(Waits) && pairs == old(pairs) && Repr() == old(Repr())
        invariant Seek(Waits[..d], bracket) == Seek(Waits, bracket)
      {
        assert Waits[..d][..d - 1] == Waits[..d - 1];
        d := d - 1;
        if Closes(closingBracket[d], bracket) {
          pairs := pairs + [Pair(position[d], pos)];
          // openers above the matching one stop waiting
          depth := d;
          Waits := Waits[..d];
          return true;
        }
      }
      assert Waits[..0] == [];
      found := false;
    }
  }

  // ----- Resolving one pair -----

  /** Some class strictly between the brackets counts for `side`. */
  ghost predicate Inside(types: seq<BidiClass>, indices: seq<nat>, p: Pair, side: Direction)
    requires p.closingPos <= |indices| && forall k :: 0 <= k < |indices| ==> indices[k] < |types|
  {
    exists k :: p.openingPos < k < p.closingPos && SideOf(types[indices[k]]) == Some(side)
  }

  /** N0 b-d: the side the pair takes, if any. */
  ghost function PairSide(types: seq<BidiClass>, levels: seq<Level>, run: IsoRun, p: Pair): Option<Direction>
    requires |types| == |levels| && Bounded(levels, run.indices)
    requires p.openingPos < p.closingPos < |run.indices|
  {
    var e := DirectionOf(run.level);
    if Inside(types, run.indices, p, e) then Some(e)
    else if Inside(types, run.indices, p, e.Opposite()) then
      var prior := Live(types, levels, run.indices[..p.openingPos]);
      if SideBefore(prior, |prior|, run.sos) == Some(e.Opposite()) then Some(e.Opposite()) else Some(e)
    else None
  }

  /** Position `k` of the chain is a combining mark that follows position `a`. */
  ghost predicate Trails(orig: seq<BidiClass>, levels: seq<Level>, indices: seq<nat>, a: nat, k: nat)
    requires |orig| == |levels| && Bounded(levels, indices)
  {
    && a < k < |indices|
    && orig[indices[k]] == NonspacingMark
    && forall j :: a < j < k ==> orig[indices[j]] == NonspacingMark || levels[indices[j]] == NO_LEVEL
  }

  /** Position `k` takes the side of the pair: a bracket, or a mark that follows it. */
  ghost predicate Follows(orig: seq<BidiClass>, levels: seq<Level>, indices: seq<nat>, p: Pair, k: nat)
    requires |orig| == |levels| && Bounded(levels, indices)
  {
    || k == p.openingPos
    || k == p.closingPos
    || (k < p.closingPos && Trails(orig, levels, indices, p.openingPos, k))
    || Trails(orig, levels, indices, p.closingPos, k)
  }

  /** `after` is `types` with the positions that follow the pair set to `bc`. */
  ghost predicate PairSet(types: seq<BidiClass>, after: seq<BidiClass>, orig: seq<BidiClass>, levels: seq<Level>, indices: seq<nat>, p: Pair, bc: BidiClass)
    requires |types| == |orig| == |levels| && Bounded(levels, indices)
  {
    && |after| == |types|
    && (forall k :: 0 <= k < |indices| ==>
          after[indices[k]] == if Follows(orig, levels, indices, p, k) then bc else types[indices[k]])
    && (forall i :: 0 <= i < |types| && i !in indices ==> after[i] == types[i])
  }

  // ----- What that says of the text -----

  lemma InsideMeans(types: seq<BidiClass>, indices: seq<nat>, p: Pair, side: Direction)
    requires p.closingPos <= |indices| && forall k :: 0 <= k < |indices| ==> indices[k] < |types|
    ensures Inside(types, indices, p, side) <==> Enclosed(Along(types, indices), p.openingPos, p.closingPos, CountsFor(side))
  {
    var cs := Along(types, indices);
    assert forall bc :: SideOf(bc) == Some(side) <==> bc in CountsFor(side);
    assert forall k :: 0 <= k < |indices| ==> cs[k] == types[indices[k]];
  }

  /** Looking back along the chain finds what looking back among the kept characters does. */
  lemma SideBeforeChain(types: seq<BidiClass>, levels: seq<Level>, run: IsoRun, k: nat, side: Direction)
    requires |types| == |levels| && Inert(types, levels) && Chain(levels, run) && k <= |run.indices|
    ensures var prior := Live(types, levels, run.indices[..k]);
      SideBefore(prior, |prior|, run.sos) == Some(side) <==>
      Led(Along(types, run.indices), k, CountsFor(side), run.sos, side.AsBidiClass())
  {
    hide Live, Kept, Remain, AllKept, KEPT_CLASSES, NOT_NEUTRAL, CountsFor, SideBefore, Inert;
    var part := run.indices[..k];
    var cs, all := Live(types, levels, part), Along(types, part);
    RemainOfChain(types, levels, part);
    LiveIsKept(types, levels, part);
    SideBeforeMeans(cs, |cs|, run.sos, side);
    LookSets(side);
    BackEndSame(all, cs, Kept(levels, part), CountsFor(side), NOT_NEUTRAL);
    BackPrefix(Along(types, run.indices), all, k, CountsFor(side), NOT_NEUTRAL);
  }

  /** N0 b-d: the side a pair takes. */
  lemma PairSideMeans(types: seq<BidiClass>, levels: seq<Level>, run: IsoRun, p: Pair)
    requires |types| == |levels| && Inert(types, levels) && Chain(levels, run) && p.openingPos < p.closingPos < |run.indices|
    ensures var side := PairSide(types, levels, run, p);
      TakenByPair(Along(types, run.indices), run.level, run.sos, p.openingPos, p.closingPos)
      == if side.Some? then Some(side.value.AsBidiClass()) else None
  {
    hide Live, Inert, SideBefore, Enclosed, Led, Inside, LEFTS, RIGHTS;
    InsideMeans(types, run.indices, p, Ltr);
    InsideMeans(types, run.indices, p, Rtl);
    SideBeforeChain(types, levels, run, p.openingPos, Ltr);
    SideBeforeChain(types, levels, run, p.openingPos, Rtl);
  }

  lemma FollowsMeans(orig: seq<BidiClass>, levels: seq<Level>, indices: seq<nat>, p: Pair, k: nat)
    requires Inert(orig, levels) && Bounded(levels, indices) && p.openingPos < p.closingPos && k < |indices|
    ensures Follows(orig, levels, indices, p, k) <==> GoesWithPair(Along(orig, indices), p.openingPos, p.closingPos, k)
  {
    var os := Along(orig, indices);
    forall j | 0 <= j < |indices|
      ensures os[j] == orig[indices[j]]
      ensures (orig[indices[j]] == NonspacingMark || levels[indices[j]] == NO_LEVEL) <==> os[j] !in KEPT_CLASSES - {NonspacingMark}
    {
      KeptClass(os[j]);
    }
    hide KEPT_CLASSES, Inert;
  }

  /** N0 for one pair, on the text of the sequence. */
  lemma PairMeans(before: seq<BidiClass>, after: seq<BidiClass>, orig: seq<BidiClass>, levels: seq<Level>, run: IsoRun, p: Pair)
    requires |before| == |orig| == |levels| && Inert(before, levels) && Inert(orig, levels)
    requires Chain(levels, run) && p.openingPos < p.closingPos < |run.indices|
    requires |after| == |before|
    requires match PairSide(before, levels, run, p)
      case None => after == before
      case Some(side) => PairSet(before, after, orig, levels, run.indices, p, side.AsBidiClass())
    ensures ByN0(Along(before, run.indices), Along(orig, run.indices), run.level, run.sos, p.openingPos, p.closingPos,
                 Along(after, run.indices))
  {
    hide PairSide, Inert, Follows, GoesWithPair, TakenByPair;
    PairSideMeans(before, levels, run, p);
    forall k | 0 <= k < |run.indices|
      ensures Follows(orig, levels, run.indices, p, k) <==> GoesWithPair(Along(orig, run.indices), p.openingPos, p.closingPos, k)
    {
      FollowsMeans(orig, levels, run.indices, p, k);
    }
  }

  /** The marks that follow position `a`, before position `end`, take class `bc`. */
  method SetTrailing(start: seq<BidiClass>, orig: seq<BidiClass>, levels: seq<Level>, indices: seq<nat>, a: nat, end: nat, bc: BidiClass)
    returns (types: seq<BidiClass>)
    requires |start| == |orig| == |levels| && Bounded(levels, indices) && Increasing(indices)
    requires a < end <= |indices|
    ensures |types| == |start|
    ensures forall k :: 0 <= k < |indices| ==>
      types[indices[k]] == if k < end && Trails(orig, levels, indices, a, k) then bc else start[indices[k]]
    ensures forall i :: 0 <= i < |types| && i !in indices ==> types[i] == start[i]
  {
    types := start;
    var k := a + 1;
    while k < end
      invariant a < k <= end
      invariant |types| == |start|
      invariant forall j :: a < j < k ==> orig[indices[j]] == NonspacingMark || levels[indices[j]] == NO_LEVEL
      invariant forall j :: 0 <= j < |indices| ==>
        types[indices[j]] == if j < k && Trails(orig, levels, indices, a, j) then bc else start[indices[j]]
      invariant forall i :: 0 <= i < |types| && i !in indices ==> types[i] == start[i]
    {
      var cidx := indices[k];
      if orig[cidx] == NonspacingMark {
        types := types[cidx := bc];
      } else if levels[cidx] != NO_LEVEL {
        break;
      }
      k := k + 1;
    }
  }

  /** `set_bracket_pair_bc` */
  method SetBracketPairBc(start: seq<BidiClass>, orig: seq<BidiClass>, levels: seq<Level>, indices: seq<nat>, p: Pair, direction: Direction)
    returns (types: seq<BidiClass>)
    requires |start| == |orig| == |levels| && Bounded(levels, indices) && Increasing(indices)
    requires p.openingPos < p.closingPos < |indices|
    ensures PairSet(start, types, orig, levels, indices, p, direction.AsBidiClass())
    ensures |types| == |start|
  {
    hide Trails;
    var bc := direction.AsBidiClass();
    types := start[indices[p.openingPos] := bc];
    types := types[indices[p.closingPos] := bc];
    types := SetTrailing(types, orig, levels, indices, p.openingPos, p.closingPos, bc);
    types := SetTrailing(types, orig, levels, indices, p.closingPos, |indices|, bc);
  }

  /** `resolve_one_pair` */
  method ResolveOnePair(start: seq<BidiClass>, orig: seq<BidiClass>, levels: seq<Level>, run: IsoRun, p: Pair)
    returns (types: seq<BidiClass>)
    requires |start| == |orig| == |levels| && Chain(levels, run) && Inert(start, levels) && Inert(orig, levels)
    requires p.openingPos < p.closingPos < |run.indices|
    ensures match PairSide(start, levels, run, p)
      case None => types == start
      case Some(side) => PairSet(start, types, orig, levels, run.indices, p, side.AsBidiClass())
    ensures |types| == |start|
    ensures ByN0(Along(start, run.indices), Along(orig, run.indices), run.level, run.sos, p.openingPos, p.closingPos,
                 Along(types, run.indices))
  {
    hide PairSet, Live, Inert, ByN0;
    types := start;
    var e := DirectionOf(run.level);
    var strongTypeFound := false;
    var k := p.openingPos + 1;
    while k < p.closingPos
      invariant p.openingPos < k <= p.closingPos
      invariant forall j :: p.openingPos < j < k ==> SideOf(start[run.indices[j]]) != Some(e)
      invariant strongTypeFound <==> exists j :: p.openingPos < j < k && SideOf(start[run.indices[j]]) == Some(e.Opposite())
    {
      var side := SideOf(start[run.indices[k]]);
      if side == Some(e) {
        types := SetBracketPairBc(start, orig, levels, run.indices, p, e);
        PairMeans(start, types, orig, levels, run, p);
        return;
      } else if side == Some(e.Opposite()) {
        strongTypeFound := true;
      }
      k := k + 1;
    }
    if strongTypeFound {
      InertStill(start, levels);
      var prior := IsPriorContext(start, levels, run.indices[..p.openingPos], run.sos, e.Opposite());
      types := SetBracketPairBc(start, orig, levels, run.indices, p, if prior then e.Opposite() else e);
    }
    PairMeans(start, types, orig, levels, run, p);
  }

  // ----- A whole sequence, and all of them -----

  /** What the table says of a character: its partner, and whether it opens. */
  type BracketTable = char -> Option<(char, BracketType)>

  function MarkAt(types: seq<BidiClass>, paragraph: seq<char>, lookup: BracketTable, i: nat): Mark
    requires i < |types| == |paragraph|
  {
    match lookup(paragraph[i])
    case None => Other
    case Some((partner, kind)) =>
      if types[i] != OtherNeutral then Other
      else if kind == Open then Opening(partner)
      else Closing(paragraph[i])
  }

  function Marks(types: seq<BidiClass>, paragraph: seq<char>, lookup: BracketTable, indices: seq<nat>): (m: seq<Mark>)
    requires |types| == |paragraph|
    requires forall k :: 0 <= k < |indices| ==> indices[k] < |types|
    ensures |m| == |indices|
  {
    seq(|indices|, k requires 0 <= k < |indices| => MarkAt(types, paragraph, lookup, indices[k]))
  }

  /** In the order of their opening brackets, the order N0 resolves them in. */
  predicate ByOpening(pairs: seq<Pair>) {
    forall j, k :: 0 <= j < k < |pairs| ==> pairs[j].openingPos < pairs[k].openingPos
  }

  function InsertPair(sorted: seq<Pair>, p: Pair): (r: seq<Pair>)
    ensures multiset(r) == multiset(sorted) + multiset{p}
  {
    if sorted == [] then [p]
    else if p.openingPos < sorted[0].openingPos then [p] + sorted
    else
      assert sorted == [sorted[0]] + sorted[1..];
      [sorted[0]] + InsertPair(sorted[1..], p)
  }

  lemma {:induction false} InsertOrdered(sorted: seq<Pair>, p: Pair)
    requires ByOpening(sorted)
    requires forall k :: 0 <= k < |sorted| ==> sorted[k].openingPos != p.openingPos
    ensures ByOpening(InsertPair(sorted, p))
  {
    if sorted != [] && p.openingPos > sorted[0].openingPos {
      var rest := InsertPair(sorted[1..], p);
      InsertOrdered(sorted[1..], p);
      forall k | 0 <= k < |rest|
        ensures sorted[0].openingPos < rest[k].openingPos
      {
        assert rest[k] in multiset(rest);
        assert rest[k] in multiset(sorted[1..]) || rest[k] == p;
      }
    }
  }

  /** The pairs sorted by opening position. */
  method SortPairs(pairs: seq<Pair>) returns (sorted: seq<Pair>)
    requires NonCrossing(pairs)
    ensures multiset(sorted) == multiset(pairs)
    ensures ByOpening(sorted)
  {
    hide NonCrossing, ByOpening, InsertPair;
    sorted := [];
    NoneOrdered();
    for n := 0 to |pairs|
      invariant multiset(sorted) == multiset(pairs[..n])
      invariant ByOpening(sorted)
    {
      assert pairs[..n + 1] == pairs[..n] + [pairs[n]];
      DistinctOpening(pairs, n, sorted);
      InsertOrdered(sorted, pairs[n]);
      sorted := InsertPair(sorted, pairs[n]);
    }
    assert pairs[..|pairs|] == pairs;
  }

  lemma NoneOrdered()
    ensures ByOpening([])
  {
  }

  lemma DistinctOpening(pairs: seq<Pair>, n: nat, sorted: seq<Pair>)
    requires NonCrossing(pairs) && n < |pairs|
    requires multiset(sorted) == multiset(pairs[..n])
    ensures forall k :: 0 <= k < |sorted| ==> sorted[k].openingPos != pairs[n].openingPos
  {
    forall k | 0 <= k < |sorted|
      ensures sorted[k].openingPos != pairs[n].openingPos
    {
      assert sorted[k] in multiset(sorted);
      var j :| 0 <= j < n && pairs[..n][j] == sorted[k];
      assert pairs[j] == sorted[k] && !ShareEnd(pairs[j], pairs[n]);
    }
  }

  lemma RestOrdered(a: seq<Pair>)
    requires ByOpening(a) && a != []
    ensures ByOpening(a[1..])
  {
  }

  /** Sorting by opening position has one result. */
  lemma {:induction false} SortUnique(a: seq<Pair>, b: seq<Pair>)
    requires multiset(a) == multiset(b) && ByOpening(a) && ByOpening(b)
    ensures a == b
  {
    if a == [] || b == [] {
      assert |multiset(a)| == |a| && |multiset(b)| == |b|;
    } else {
      SameFirst(a, b);
      assert a == [a[0]] + a[1..] && b == [b[0]] + b[1..];
      assert multiset(a[1..]) == multiset(a) - multiset{a[0]} == multiset(b[1..]);
      RestOrdered(a);
      RestOrdered(b);
      hide ByOpening;
      SortUnique(a[1..], b[1..]);
    }
  }

  lemma SameFirst(a: seq<Pair>, b: seq<Pair>)
    requires multiset(a) == multiset(b) && ByOpening(a) && ByOpening(b) && a != [] && b != []
    ensures a[0] == b[0]
  {
    assert a[0] in multiset(b) && b[0] in multiset(a);
    var i :| 0 <= i < |b| && b[i] == a[0];
    var j :| 0 <= j < |a| && a[j] == b[0];
  }

  /** The classes once the pairs are resolved one after the other. */
  ghost predicate PairsResolved(start: seq<BidiClass>, types: seq<BidiClass>, orig: seq<BidiClass>, levels: seq<Level>, run: IsoRun, pairs: seq<Pair>)
    requires |start| == |orig| == |levels| && Bounded(levels, run.indices)
    requires forall k :: 0 <= k < |pairs| ==> pairs[k].openingPos < pairs[k].closingPos < |run.indices|
    decreases |pairs|
  {
    && |types| == |start|
    && if pairs == [] then types == start
       else
         var n := |pairs| - 1;
         exists before: seq<BidiClass> ::
           && PairsResolved(start, before, orig, levels, run, pairs[..n])
           && match PairSide(before, levels, run, pairs[n])
              case None => types == before
              case Some(side) => PairSet(before, types, orig, levels, run.indices, pairs[n], side.AsBidiClass())
  }

  /** The pairs of a sequence, in the order N0 resolves them in. */
  ghost predicate PairsOf(types: seq<BidiClass>, paragraph: seq<char>, lookup: BracketTable, run: IsoRun, pairs: seq<Pair>)
    requires |types| == |paragraph|
    requires forall k :: 0 <= k < |run.indices| ==> run.indices[k] < |types|
  {
    var st := Collect(Marks(types, paragraph, lookup, run.indices), |run.indices|);
    st.Some? && multiset(pairs) == multiset(st.value.pairs) && ByOpening(pairs)
  }

  /** The first `n` sequences have been resolved, one after the other. */
  ghost predicate BracketsResolved(start: seq<BidiClass>, types: seq<BidiClass>, orig: seq<BidiClass>, levels: seq<Level>,
                                   isoRuns: seq<IsoRun>, paragraph: seq<char>, lookup: BracketTable, n: nat)
    requires |start| == |orig| == |levels| == |paragraph| && n <= |isoRuns|
    requires forall s :: 0 <= s < |isoRuns| ==> Bounded(levels, isoRuns[s].indices)
    decreases n
  {
    && |types| == |start|
    && if n == 0 then types == start
       else
         var run := isoRuns[n - 1];
         exists before: seq<BidiClass>, pairs: seq<Pair> ::
           && BracketsResolved(start, before, orig, levels, isoRuns, paragraph, lookup, n - 1)
           && PairsOf(before, paragraph, lookup, run, pairs)
           && (forall k :: 0 <= k < |pairs| ==> pairs[k].openingPos < pairs[k].closingPos < |run.indices|)
           && PairsResolved(before, types, orig, levels, run, pairs)
  }

  /** N0 resolves the sequences in order and stops at the first whose brackets
      overflow the stack, leaving it and all later ones alone. */
  ghost predicate N0(start: seq<BidiClass>, types: seq<BidiClass>, orig: seq<BidiClass>, levels: seq<Level>,
                     isoRuns: seq<IsoRun>, paragraph: seq<char>, lookup: BracketTable)
    requires |start| == |orig| == |levels| == |paragraph|
    requires forall s :: 0 <= s < |isoRuns| ==> Bounded(levels, isoRuns[s].indices)
  {
    && |types| == |start|
    && exists n: nat ::
         && n <= |isoRuns|
         && BracketsResolved(start, types, orig, levels, isoRuns, paragraph, lookup, n)
         && (n < |isoRuns| ==> Collect(Marks(types, paragraph, lookup, isoRuns[n].indices), |isoRuns[n].indices|).None?)
  }

  /** Resolving brackets only ever sets L or R, and never at a removed character. */
  ghost predicate OnlySides(start: seq<BidiClass>, types: seq<BidiClass>, levels: seq<Level>) {
    && |start| == |types| == |levels|
    && forall i :: 0 <= i < |types| ==>
         types[i] == start[i] || (types[i] in {LeftToRight, RightToLeft} && levels[i] != NO_LEVEL)
  }

  lemma OnlySidesInert(start: seq<BidiClass>, types: seq<BidiClass>, levels: seq<Level>)
    requires OnlySides(start, types, levels) && Inert(start, levels)
    ensures Inert(types, levels)
  {
  }

  /** The brackets of the pairs were not removed. */
  ghost predicate LivePairs(levels: seq<Level>, run: IsoRun, pairs: seq<Pair>)
    requires Bounded(levels, run.indices)
  {
    forall k :: 0 <= k < |pairs| ==>
      && pairs[k].openingPos < pairs[k].closingPos < |run.indices|
      && levels[run.indices[pairs[k].openingPos]] != NO_LEVEL
      && levels[run.indices[pairs[k].closingPos]] != NO_LEVEL
  }

  lemma PairSetOnlySides(start: seq<BidiClass>, types: seq<BidiClass>, orig: seq<BidiClass>, levels: seq<Level>, run: IsoRun, p: Pair, side: Direction)
    requires |start| == |orig| == |levels| && Bounded(levels, run.indices) && Inert(orig, levels)
    requires LivePairs(levels, run, [p])
    requires PairSet(start, types, orig, levels, run.indices, p, side.AsBidiClass())
    ensures OnlySides(start, types, levels)
  {
    assert [p][0] == p;
    forall i | 0 <= i < |types|
      ensures types[i] == start[i] || (types[i] in {LeftToRight, RightToLeft} && levels[i] != NO_LEVEL)
    {
      if i in run.indices {
        var k :| 0 <= k < |run.indices| && run.indices[k] == i;
        assert types[run.indices[k]] == if Follows(orig, levels, run.indices, p, k) then side.AsBidiClass() else start[i];
      }
    }
  }

  lemma OnlySidesTrans(a: seq<BidiClass>, b: seq<BidiClass>, c: seq<BidiClass>, levels: seq<Level>)
    requires OnlySides(a, b, levels) && OnlySides(b, c, levels)
    ensures OnlySides(a, c, levels)
  {
  }

  /** The pairs of one sequence, one after the other. */
  method ResolvePairs(start: seq<BidiClass>, orig: seq<BidiClass>, levels: seq<Level>, run: IsoRun, pairs: seq<Pair>)
    returns (types: seq<BidiClass>)
    requires |start| == |orig| == |levels| && Chain(levels, run)
    requires Inert(start, levels) && Inert(orig, levels)
    requires LivePairs(levels, run, pairs)
    ensures PairsResolved(start, types, orig, levels, run, pairs)
    ensures OnlySides(start, types, levels)
  {
    hide PairSet, PairSide, Inert, OnlySides;
    types := start;
    OnlySidesSelf(start, levels);
    for n := 0 to |pairs|
      invariant PairsResolved(start, types, orig, levels, run, pairs[..n])
      invariant OnlySides(start, types, levels) && |types| == |start|
    {
      ghost var before := types;
      OnlySidesInert(start, types, levels);
      InertStill(types, levels);
      types := ResolveOnePair(types, orig, levels, run, pairs[n]);
      assert pairs[..n + 1][..n] == pairs[..n];
      ghost var side := PairSide(before, levels, run, pairs[n]);
      if side.Some? {
        PairSetOnlySides(before, types, orig, levels, run, pairs[n], side.value);
      } else {
        OnlySidesSelf(before, levels);
      }
      OnlySidesTrans(start, before, types, levels);
      OnlySidesLength(start, types, levels);
    }
    assert pairs[..|pairs|] == pairs;
  }

  lemma OnlySidesSelf(a: seq<BidiClass>, levels: seq<Level>)
    requires |a| == |levels|
    ensures OnlySides(a, a, levels)
  {
  }

  lemma OnlySidesLength(a: seq<BidiClass>, b: seq<BidiClass>, levels: seq<Level>)
    requires OnlySides(a, b, levels)
    ensures |a| == |b| == |levels|
  {
  }

  lemma InertStill(types: seq<BidiClass>, levels: seq<Level>)
    requires |types| == |levels| && Inert(types, levels)
    ensures StillInert(types, levels)
  {
  }

  /** Collect the pairs of one sequence; false when the stack overflows. */
  method CollectBrackets(stack: BracketStack, types: seq<BidiClass>, paragraph: seq<char>, lookup: BracketTable, indices: seq<nat>)
    returns (ok: bool)
    requires |types| == |paragraph| && forall k :: 0 <= k < |indices| ==> indices[k] < |types|
    requires stack.Valid()
    modifies stack.Repr()
    ensures stack.Valid() && stack.Repr() == old(stack.Repr())
    ensures var st := Collect(Marks(types, paragraph, lookup, indices), |indices|);
      if ok then st == Some(Pairing(stack.Waits, stack.pairs)) else st.None?
  {
    stack.Clear();
    ghost var marks := Marks(types, paragraph, lookup, indices);
    for ridx := 0 to |indices|
      invariant stack.Valid() && stack.Repr() == old(stack.Repr())
      invariant Collect(marks, ridx) == Some(Pairing(stack.Waits, stack.pairs))
    {
      var cidx := indices[ridx];
      var entry := lookup(paragraph[cidx]);
      if entry.Some? {
        var (closing, kind) := entry.value;
        if types[cidx] == OtherNeutral {
          if kind == Open {
            ok := stack.Push(closing, ridx);
            if !ok {
              CollectStops(marks, ridx + 1);
              return;
            }
          } else {
            var _ := stack.SeekMatchingOpenBracket(paragraph[cidx], ridx);
          }
        }
      }
    }
    ok := true;
  }

  lemma {:induction false} CollectStops(marks: seq<Mark>, n: nat)
    requires n <= |marks| && Collect(marks, n).None?
    ensures Collect(marks, |marks|).None?
    decreases |marks| - n
  {
    if n < |marks| { CollectStops(marks, n + 1); }
  }

  /** A mark is a neutral character, and so was not removed. */
  lemma MarkIsLive(types: seq<BidiClass>, levels: seq<Level>, paragraph: seq<char>, lookup: BracketTable, i: nat)
    requires |types| == |levels| == |paragraph| && Inert(types, levels) && i < |types|
    ensures MarkAt(types, paragraph, lookup, i) != Other ==> levels[i] != NO_LEVEL
  {
  }

  lemma SortedPairsLive(types: seq<BidiClass>, levels: seq<Level>, paragraph: seq<char>, lookup: BracketTable, run: IsoRun, st: Pairing, pairs: seq<Pair>)
    requires |types| == |levels| == |paragraph| && Inert(types, levels) && Bounded(levels, run.indices)
    requires Paired(Marks(types, paragraph, lookup, run.indices), |run.indices|, st)
    requires multiset(pairs) == multiset(st.pairs)
    ensures LivePairs(levels, run, pairs)
  {
    hide Inert;
    var marks := Marks(types, paragraph, lookup, run.indices);
    forall k | 0 <= k < |pairs|
      ensures
        && pairs[k].openingPos < pairs[k].closingPos < |run.indices|
        && levels[run.indices[pairs[k].openingPos]] != NO_LEVEL
        && levels[run.indices[pairs[k].closingPos]] != NO_LEVEL
    {
      assert pairs[k] in multiset(st.pairs);
      var j :| 0 <= j < |st.pairs| && st.pairs[j] == pairs[k];
      assert Joins(marks, st.pairs[j]);
      MarkIsLive(types, levels, paragraph, lookup, run.indices[pairs[k].openingPos]);
      MarkIsLive(types, levels, paragraph, lookup, run.indices[pairs[k].closingPos]);
    }
  }

  /** N0: `resolve_paired_brackets`. */
  method ResolvePairedBrackets(start: seq<BidiClass>, orig: seq<BidiClass>, levels: seq<Level>, isoRuns: seq<IsoRun>,
                               paragraph: seq<char>, lookup: BracketTable) returns (types: seq<BidiClass>)
    requires |start| == |orig| == |levels| == |paragraph|
    requires Inert(start, levels) && Inert(orig, levels)
    requires forall s :: 0 <= s < |isoRuns| ==> Bounded(levels, isoRuns[s].indices) && Chain(levels, isoRuns[s])
    ensures N0(start, types, orig, levels, isoRuns, paragraph, lookup)
    ensures OnlySides(start, types, levels)
  {
    hide Collect, PairsResolved, Paired, Inert, OnlySides, NonCrossing, LivePairs, ByOpening;
    types := start;
    OnlySidesSelf(start, levels);
    var stack := new BracketStack();
    for s := 0 to |isoRuns|
      invariant fresh(stack.Repr()) && stack.Valid()
      invariant |types| == |start| && OnlySides(start, types, levels)
      invariant BracketsResolved(start, types, orig, levels, isoRuns, paragraph, lookup, s)
    {
      var run := isoRuns[s];
      var ok := CollectBrackets(stack, types, paragraph, lookup, run.indices);
      if !ok {
        // this ends the whole pass
        return;
      }
      ghost var before, st := types, Pairing(stack.Waits, stack.pairs);
      CollectPairs(Marks(types, paragraph, lookup, run.indices), |run.indices|);
      PairedNonCrossing(Marks(types, paragraph, lookup, run.indices), |run.indices|, st);
      OnlySidesInert(start, types, levels);
      var pairs := SortPairs(stack.pairs);
      SortedPairsLive(types, levels, paragraph, lookup, run, st, pairs);
      types := ResolvePairs(types, orig, levels, run, pairs);
      OnlySidesLength(before, types, levels);
      OnlySidesTrans(start, before, types, levels);
      OneMoreResolved(start, before, types, orig, levels, isoRuns, paragraph, lookup, s, pairs);
    }
  }

  lemma PairedNonCrossing(marks: seq<Mark>, n: nat, st: Pairing)
    requires Paired(marks, n, st)
    ensures NonCrossing(st.pairs)
  {
  }

  lemma OneMoreResolved(start: seq<BidiClass>, before: seq<BidiClass>, types: seq<BidiClass>, orig: seq<BidiClass>, levels: seq<Level>,
                        isoRuns: seq<IsoRun>, paragraph: seq<char>, lookup: BracketTable, n: nat, pairs: seq<Pair>)
    requires |start| == |orig| == |levels| == |paragraph| == |types| && n < |isoRuns|
    requires forall s :: 0 <= s < |isoRuns| ==> Bounded(levels, isoRuns[s].indices)
    requires BracketsResolved(start, before, orig, levels, isoRuns, paragraph, lookup, n)
    requires PairsOf(before, paragraph, lookup, isoRuns[n], pairs)
    requires LivePairs(levels, isoRuns[n], pairs)
    requires PairsResolved(before, types, orig, levels, isoRuns[n], pairs)
    ensures BracketsResolved(start, types, orig, levels, isoRuns, paragraph, lookup, n + 1)
  {
    hide PairsResolved, PairsOf;
  }
}
