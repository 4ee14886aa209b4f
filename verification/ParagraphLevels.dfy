/** Rules P2, P3 and X5c: the first strong character outside nested isolates. The scan of the
    source counts open isolates; rule BD9 speaks of matching PDIs. Both are tied to the depth
    of the isolates that have been opened and not closed. */
module ParagraphLevels {
  import opened Wrappers
  import opened BidiTypes

  /** BD9: with `open` isolates open at `i`, where the outermost one is closed. */
  function MatchingPdi(types: seq<BidiClass>, i: nat, open: nat): (m: Option<nat>)
    requires i <= |types| && open >= 1
    ensures m.Some? ==> i <= m.value < |types| && types[m.value] == PopDirectionalIsolate
    decreases |types| - i
  {
    if i == |types| then None
    else if types[i].IsIsoInit() then MatchingPdi(types, i + 1, open + 1)
    else if types[i] == PopDirectionalIsolate then
      if open == 1 then Some(i) else MatchingPdi(types, i + 1, open - 1)
    else MatchingPdi(types, i + 1, open)
  }

  /** P2: the first strong class from `i` on, skipping over what lies between an
      isolate initiator and its matching PDI, or to the end of the paragraph when
      there is none; with `stopAtPdi`, no further than an unmatched PDI. */
  function FirstStrong(types: seq<BidiClass>, i: nat, stopAtPdi: bool): (bc: Option<BidiClass>)
    requires i <= |types|
    decreases |types| - i
  {
    if i == |types| then None
    else if types[i].IsIsoInit() then
      var m := MatchingPdi(types, i + 1, 1);
      if m.None? then None else FirstStrong(types, m.value + 1, stopAtPdi)
    else if types[i] in {LeftToRight, RightToLeft, ArabicLetter} then Some(types[i])
    else if types[i] == PopDirectionalIsolate && stopAtPdi then None
    else FirstStrong(types, i + 1, stopAtPdi)
  }

  /** P3: the level that class asks for. */
  function ParagraphLevelOf(types: seq<BidiClass>, stopAtPdi: bool, fallback: Direction): (level: Level)
    ensures level == 0 || level == 1
  {
    match FirstStrong(types, 0, stopAtPdi)
    case Some(LeftToRight) => 0
    case Some(_) => 1
    case None => if fallback == Ltr then 0 else 1
  }

  /** What the rest of the scan of `paragraph_level` looks for with
      `isolateCount` isolates open at `i`. */
  function StrongAfter(types: seq<BidiClass>, i: nat, isolateCount: nat, stopAtPdi: bool): Option<BidiClass>
    requires i <= |types|
  {
    if isolateCount == 0 then FirstStrong(types, i, stopAtPdi)
    else
      var m := MatchingPdi(types, i, isolateCount);
      if m.None? then None else FirstStrong(types, m.value + 1, stopAtPdi)
  }

  // ----- By depth -----

  /** The initiators less the PDIs from `a` up to `b`. */
  function Depth(types: seq<BidiClass>, a: nat, b: nat): int
    requires a <= b <= |types|
  {
    if a == b then 0
    else
      Depth(types, a, b - 1) +
      (if types[b - 1] in {LeftToRightIsolate, RightToLeftIsolate, FirstStrongIsolate} then 1
       else if types[b - 1] == PopDirectionalIsolate then -1
       else 0)
  }

  lemma {:induction false} DepthSplit(types: seq<BidiClass>, a: nat, b: nat, c: nat)
    requires a <= b <= c <= |types|
    ensures Depth(types, a, c) == Depth(types, a, b) + Depth(types, b, c)
  {
    if b < c { DepthSplit(types, a, b, c - 1); }
  }

  lemma DepthNext(types: seq<BidiClass>, a: nat, n: nat)
    requires a <= n < |types|
    ensures Depth(types, a, n + 1) == Depth(types, a, n) +
      if types[n] in {LeftToRightIsolate, RightToLeftIsolate, FirstStrongIsolate} then 1
      else if types[n] == PopDirectionalIsolate then -1
      else 0
  {
  }

  /** From `a` up to `b` the isolate open at `a` is not closed. */
  ghost predicate StaysOpen(types: seq<BidiClass>, a: nat, b: nat)
    requires a <= b <= |types|
  {
    forall m :: a <= m <= b ==> Depth(types, a, m) >= 0
  }

  /** From `i` up to `j` some of the `open` isolates stay open. */
  ghost predicate NotAllClosed(types: seq<BidiClass>, i: nat, j: nat, open: int)
    requires i <= j <= |types|
  {
    forall m :: i <= m <= j ==> open + Depth(types, i, m) >= 1
  }

  lemma NotAllClosedFrom(types: seq<BidiClass>, i: nat, j: nat, open: int)
    requires i < j <= |types| && open >= 1
    ensures var next := open + Depth(types, i, i + 1);
      && open + Depth(types, i, j) == next + Depth(types, i + 1, j)
      && (NotAllClosed(types, i, j, open) <==> next >= 1 && NotAllClosed(types, i + 1, j, next))
  {
    var next := open + Depth(types, i, i + 1);
    forall m | i < m <= j ensures open + Depth(types, i, m) == next + Depth(types, i + 1, m) {
      DepthSplit(types, i, i + 1, m);
    }
    assert Depth(types, i, i) == 0 && Depth(types, i + 1, i + 1) == 0;
    var k := i + 1;
    if NotAllClosed(types, i, j, open) {
      assert open + Depth(types, i, k) >= 1;
      forall m | k <= m <= j ensures next + Depth(types, k, m) >= 1 {
        assert open + Depth(types, i, m) >= 1;
      }
    }
    if next >= 1 && NotAllClosed(types, i + 1, j, next) {
      forall m | i <= m <= j ensures open + Depth(types, i, m) >= 1 {
        if m > i { assert next + Depth(types, i + 1, m) >= 1; }
      }
    }
  }

  /** BD9 by depth: with `open` isolates open at `i`, the outermost one is closed by the first
      PDI that leaves none open. */
  lemma {:induction false} MatchingByDepth(types: seq<BidiClass>, i: nat, open: nat, j: nat)
    requires i <= |types| && open >= 1
    ensures MatchingPdi(types, i, open) == Some(j) <==>
      && i <= j < |types| && types[j] == PopDirectionalIsolate
      && open + Depth(types, i, j) == 1
      && NotAllClosed(types, i, j, open)
    decreases |types| - i
  {
    if i < |types| {
      var next := open + Depth(types, i, i + 1);
      assert Depth(types, i, i) == 0;
      if next >= 1 { MatchingByDepth(types, i + 1, next, j); }
      if i < j < |types| { NotAllClosedFrom(types, i, j, open); }
      hide NotAllClosed;
      if i == j { NotClosedYet(types, i, open); }
    }
  }

  lemma NotClosedYet(types: seq<BidiClass>, i: nat, open: int)
    requires i <= |types| && open >= 1
    ensures NotAllClosed(types, i, i, open)
  {
  }

  /** Character `n` stands in an isolate that is not closed before it. */
  ghost predicate Isolated(types: seq<BidiClass>, n: nat)
    requires n <= |types|
  {
    exists e :: 0 <= e < n && types[e] in {LeftToRightIsolate, RightToLeftIsolate, FirstStrongIsolate} && StaysOpen(types, e + 1, n)
  }

  /** The isolates that a scan from the start has open at `n`; an unmatched PDI closes none. */
  function OpenAt(types: seq<BidiClass>, n: nat): nat
    requires n <= |types|
  {
    if n == 0 then 0
    else
      var open := OpenAt(types, n - 1);
      if types[n - 1].IsIsoInit() then open + 1
      else if types[n - 1] == PopDirectionalIsolate && open > 0 then open - 1
      else open
  }

  /** `k + 1` isolates are open exactly if some initiator still open has `k` more inside. */
  ghost predicate OpenedBefore(types: seq<BidiClass>, n: nat, k: nat)
    requires n <= |types|
  {
    exists e :: 0 <= e < n && types[e] in {LeftToRightIsolate, RightToLeftIsolate, FirstStrongIsolate}
      && StaysOpen(types, e + 1, n) && Depth(types, e + 1, n) >= k
  }

  lemma OpenedNext(types: seq<BidiClass>, n: nat, k: nat)
    requires n < |types|
    ensures OpenedBefore(types, n + 1, k) <==>
      if types[n] in {LeftToRightIsolate, RightToLeftIsolate, FirstStrongIsolate} then k == 0 || OpenedBefore(types, n, k - 1)
      else OpenedBefore(types, n, if types[n] == PopDirectionalIsolate then k + 1 else k)
  {
    forall a | 0 <= a <= n ensures StaysOpen(types, a, n + 1) <==> StaysOpen(types, a, n) && Depth(types, a, n + 1) >= 0 {
      StaysNext(types, a, n);
    }
    hide StaysOpen;
    assert StaysOpen(types, n + 1, n + 1) by { StaysStart(types, n + 1); }
    assert Depth(types, n + 1, n + 1) == 0;
    if OpenedBefore(types, n + 1, k) {
      var e :| 0 <= e < n + 1 && types[e] in {LeftToRightIsolate, RightToLeftIsolate, FirstStrongIsolate}
        && StaysOpen(types, e + 1, n + 1) && Depth(types, e + 1, n + 1) >= k;
    }
  }

  lemma StaysStart(types: seq<BidiClass>, a: nat)
    requires a <= |types|
    ensures StaysOpen(types, a, a)
  {
  }

  lemma StaysNext(types: seq<BidiClass>, a: nat, n: nat)
    requires a <= n < |types|
    ensures StaysOpen(types, a, n + 1) <==> StaysOpen(types, a, n) && Depth(types, a, n + 1) >= 0
    ensures StaysOpen(types, a, n) ==> Depth(types, a, n) >= 0
  {
  }

  lemma {:induction false} OpenMeans(types: seq<BidiClass>, n: nat, k: nat)
    requires n <= |types|
    ensures OpenAt(types, n) >= k + 1 <==> OpenedBefore(types, n, k)
  {
    hide OpenedBefore, Depth;
    if n == 0 {
      NoneOpened(types, k);
    } else {
      OpenedNext(types, n - 1, k);
      if types[n - 1].IsIsoInit() {
        if k > 0 { OpenMeans(types, n - 1, k - 1); }
      } else {
        OpenMeans(types, n - 1, if types[n - 1] == PopDirectionalIsolate then k + 1 else k);
      }
    }
  }

  lemma NoneOpened(types: seq<BidiClass>, k: nat)
    ensures !OpenedBefore(types, 0, k)
  {
  }

  /** Nothing is open exactly outside all isolates. */
  lemma OpenOutside(types: seq<BidiClass>, n: nat)
    requires n <= |types|
    ensures OpenAt(types, n) == 0 <==> !Isolated(types, n)
  {
    OpenMeans(types, n, 0);
    hide Depth, OpenAt;
    if e :| 0 <= e < n && types[e] in {LeftToRightIsolate, RightToLeftIsolate, FirstStrongIsolate} && StaysOpen(types, e + 1, n) {
      StaysHere(types, e + 1, n);
    }
  }

  lemma StaysHere(types: seq<BidiClass>, a: nat, n: nat)
    requires a <= n <= |types| && StaysOpen(types, a, n)
    ensures Depth(types, a, n) >= 0
  {
  }

  // ----- The first strong character -----

  predicate Strong(bc: BidiClass) {
    bc == LeftToRight || bc == RightToLeft || bc == ArabicLetter
  }

  /** The scan stops at `h`: outside isolates there is a strong character, or a PDI that ends
      the text that is looked at. */
  predicate Stops(types: seq<BidiClass>, h: nat, stopAtPdi: bool)
    requires h < |types|
  {
    OpenAt(types, h) == 0 && (Strong(types[h]) || (stopAtPdi && types[h] == PopDirectionalIsolate))
  }

  /** One character of the scan. */
  lemma ScanStep(types: seq<BidiClass>, i: nat, open: nat, stopAtPdi: bool)
    requires i < |types|
    ensures var bc := types[i];
      StrongAfter(types, i, open, stopAtPdi) ==
        if bc.IsIsoInit() then StrongAfter(types, i + 1, open + 1, stopAtPdi)
        else if bc == PopDirectionalIsolate && open > 0 then StrongAfter(types, i + 1, open - 1, stopAtPdi)
        else if open > 0 then StrongAfter(types, i + 1, open, stopAtPdi)
        else if bc in {LeftToRight, RightToLeft, ArabicLetter} then Some(bc)
        else if bc == PopDirectionalIsolate && stopAtPdi then None
        else StrongAfter(types, i + 1, 0, stopAtPdi)
  {
  }

  lemma {:induction false} ScanTo(types: seq<BidiClass>, n: nat, stopAtPdi: bool)
    requires n <= |types| && forall h :: 0 <= h < n ==> !Stops(types, h, stopAtPdi)
    ensures StrongAfter(types, n, OpenAt(types, n), stopAtPdi) == FirstStrong(types, 0, stopAtPdi)
  {
    hide FirstStrong, StrongAfter;
    if n == 0 {
      ScanStart(types, stopAtPdi);
    } else {
      ScanTo(types, n - 1, stopAtPdi);
      ScanStep(types, n - 1, OpenAt(types, n - 1), stopAtPdi);
      assert !Stops(types, n - 1, stopAtPdi);
    }
  }

  lemma ScanStart(types: seq<BidiClass>, stopAtPdi: bool)
    ensures StrongAfter(types, 0, 0, stopAtPdi) == FirstStrong(types, 0, stopAtPdi)
  {
  }

  lemma ScanEnd(types: seq<BidiClass>, open: nat, stopAtPdi: bool)
    ensures StrongAfter(types, |types|, open, stopAtPdi) == None
  {
  }

  /** The first place where the scan stops, or the end. */
  function StopFrom(types: seq<BidiClass>, n: nat, stopAtPdi: bool): (m: nat)
    requires n <= |types|
    ensures n <= m <= |types| && (m < |types| ==> Stops(types, m, stopAtPdi))
    ensures forall h :: n <= h < m ==> !Stops(types, h, stopAtPdi)
    decreases |types| - n
  {
    if n == |types| || Stops(types, n, stopAtPdi) then n else StopFrom(types, n + 1, stopAtPdi)
  }

  lemma FirstStrongIs(types: seq<BidiClass>, stopAtPdi: bool)
    ensures var m := StopFrom(types, 0, stopAtPdi);
      FirstStrong(types, 0, stopAtPdi) == if m < |types| && Strong(types[m]) then Some(types[m]) else None
  {
    hide FirstStrong, StrongAfter;
    var m := StopFrom(types, 0, stopAtPdi);
    ScanTo(types, m, stopAtPdi);
    if m < |types| { ScanStep(types, m, 0, stopAtPdi); } else { ScanEnd(types, OpenAt(types, m), stopAtPdi); }
  }

  // ----- The paragraph level in plain words -----

  /** The first strong character outside isolates is R or AL, or there is none and the fallback
      is right to left. */
  ghost predicate StartsRight(types: seq<BidiClass>, fallback: Direction) {
    || (exists j :: 0 <= j < |types| && types[j] in {RightToLeft, ArabicLetter} && FirstOutside(types, j))
    || (fallback == Rtl && forall h :: 0 <= h < |types| && types[h] in {LeftToRight, RightToLeft, ArabicLetter} ==> Isolated(types, h))
  }

  ghost predicate FirstOutside(types: seq<BidiClass>, j: nat)
    requires j < |types|
  {
    && !Isolated(types, j)
    && forall h :: 0 <= h < j && types[h] in {LeftToRight, RightToLeft, ArabicLetter} ==> Isolated(types, h)
  }

  /** P2 and P3. */
  lemma LevelByDepth(types: seq<BidiClass>, fallback: Direction)
    ensures ParagraphLevelOf(types, false, fallback) == 1 <==> StartsRight(types, fallback)
  {
    hide OpenAt, Isolated, FirstStrong, StrongAfter, MatchingPdi;
    FirstStrongIs(types, false);
    forall h | 0 <= h < |types| ensures OpenAt(types, h) == 0 <==> !Isolated(types, h) {
      OpenOutside(types, h);
    }
    var m := StopFrom(types, 0, false);
    forall h | 0 <= h < |types| ensures Stops(types, h, false) <==> Strong(types[h]) && !Isolated(types, h) {
    }
    hide Stops;
    if m < |types| {
      assert FirstOutside(types, m);
      forall j | 0 <= j < |types| && Strong(types[j]) && FirstOutside(types, j) ensures j == m {
        assert Stops(types, j, false) && Stops(types, m, false);
      }
    } else {
      forall h | 0 <= h < |types| && Strong(types[h]) ensures Isolated(types, h) {
        assert !Stops(types, h, false);
      }
    }
  }

  /** From `a` on, in the isolate that is open there, R or AL is the first strong character
      outside nested isolates. */
  ghost predicate RightInside(types: seq<BidiClass>, a: nat) {
    exists j :: a <= j < |types| && types[j] in {RightToLeft, ArabicLetter} && FirstInside(types, a, j)
  }

  ghost predicate FirstInside(types: seq<BidiClass>, a: nat, j: nat)
    requires a <= j < |types|
  {
    && StaysOpen(types, a, j)
    && Depth(types, a, j) == 0
    && forall h :: a <= h < j && types[h] in {LeftToRight, RightToLeft, ArabicLetter} ==> Depth(types, a, h) != 0
  }

  /** As long as no PDI closes the isolate, the scan counts the depth. */
  lemma {:induction false} OpenIsDepth(types: seq<BidiClass>, n: nat)
    requires n <= |types|
    ensures StaysOpen(types, 0, n) <==> forall h :: 0 <= h < n ==> OpenAt(types, h) > 0 || types[h] != PopDirectionalIsolate
    ensures StaysOpen(types, 0, n) ==> Depth(types, 0, n) == OpenAt(types, n)
  {
    if n == 0 {
      StaysStart(types, 0);
    } else {
      OpenIsDepth(types, n - 1);
      StaysNext(types, 0, n - 1);
      hide StaysOpen;
    }
  }

  lemma InsideLevel(types: seq<BidiClass>)
    ensures ParagraphLevelOf(types, true, Ltr) == 1 <==> RightInside(types, 0)
  {
    hide OpenAt, StaysOpen, Depth, FirstStrong, StrongAfter, MatchingPdi;
    FirstStrongIs(types, true);
    forall h | 0 <= h <= |types|
      ensures StaysOpen(types, 0, h) <==> forall g :: 0 <= g < h ==> OpenAt(types, g) > 0 || types[g] != PopDirectionalIsolate
      ensures StaysOpen(types, 0, h) ==> Depth(types, 0, h) == OpenAt(types, h)
    {
      OpenIsDepth(types, h);
    }
    var m := StopFrom(types, 0, true);
    forall h | 0 <= h < m
      ensures OpenAt(types, h) > 0 || (types[h] != PopDirectionalIsolate && !Strong(types[h]))
    {
      assert !Stops(types, h, true);
    }
    assert StaysOpen(types, 0, m);
    if m < |types| && Strong(types[m]) {
      forall h | 0 <= h < m && Strong(types[h]) ensures Depth(types, 0, h) != 0 {
        assert StaysOpen(types, 0, h);
      }
      assert FirstInside(types, 0, m);
    }
    forall j | 0 <= j < |types| && Strong(types[j]) && FirstInside(types, 0, j) ensures j == m {
      assert Stops(types, j, true);
    }
  }

  lemma {:induction false} DepthSlice(types: seq<BidiClass>, a: nat, m: nat)
    requires a <= |types| && m <= |types| - a
    ensures Depth(types[a..], 0, m) == Depth(types, a, a + m)
  {
    if m > 0 { DepthSlice(types, a, m - 1); }
  }

  lemma FirstInsideSlice(types: seq<BidiClass>, a: nat, j: nat)
    requires a <= j < |types|
    ensures FirstInside(types[a..], 0, j - a) <==> FirstInside(types, a, j)
  {
    var part := types[a..];
    forall m | a <= m <= j ensures Depth(types, a, m) == Depth(part, 0, m - a) {
      DepthSlice(types, a, m - a);
    }
    hide Depth;
    forall m | 0 <= m <= j - a ensures Depth(part, 0, m) == Depth(types, a, a + m) {
      assert Depth(types, a, a + m) == Depth(part, 0, a + m - a);
    }
    assert forall h :: 0 <= h < j - a ==> part[h] == types[a + h];
    assert forall h :: a <= h < j ==> types[h] == part[h - a];
  }

  /** X5c: an FSI before `a` opens a right-to-left isolate exactly if R or AL comes first in it. */
  lemma InsideLevelFrom(types: seq<BidiClass>, a: nat)
    requires a <= |types|
    ensures ParagraphLevelOf(types[a..], true, Ltr) == 1 <==> RightInside(types, a)
  {
    hide FirstInside, FirstStrong;
    var part := types[a..];
    InsideLevel(part);
    if RightInside(types, a) {
      var j :| a <= j < |types| && types[j] in {RightToLeft, ArabicLetter} && FirstInside(types, a, j);
      FirstInsideSlice(types, a, j);
      assert part[j - a] == types[j];
    }
    if RightInside(part, 0) {
      var j :| 0 <= j < |part| && part[j] in {RightToLeft, ArabicLetter} && FirstInside(part, 0, j);
      FirstInsideSlice(types, a, a + j);
      assert part[j] == types[a + j];
    }
  }

  /** `paragraph_level`: counting open isolates finds what rule P2 asks for. */
  method ParagraphLevel(types: seq<BidiClass>, respectPdi: bool, fallback: Direction) returns (level: Level)
    ensures level == ParagraphLevelOf(types, respectPdi, fallback)
    ensures !respectPdi ==> (level == 1 <==> StartsRight(types, fallback))
    ensures respectPdi && fallback == Ltr ==> (level == 1 <==> RightInside(types, 0))
  {
    if !respectPdi { LevelByDepth(types, fallback); } else if fallback == Ltr { InsideLevel(types); }
    hide FirstStrong, StrongAfter, MatchingPdi, StartsRight, RightInside;
    ScanStart(types, respectPdi);
    var isolateCount := 0;
    var i := 0;
    while i < |types|
      invariant i <= |types|
      invariant StrongAfter(types, i, isolateCount, respectPdi) == FirstStrong(types, 0, respectPdi)
    {
      var t := types[i];
      ScanStep(types, i, isolateCount, respectPdi);
      if t.IsIsoInit() {
        isolateCount := isolateCount + 1;
      } else if t == PopDirectionalIsolate {
        if isolateCount > 0 {
          isolateCount := isolateCount - 1;
        } else if respectPdi {
          break;
        }
      } else if t == LeftToRight && isolateCount == 0 {
        return 0;
      } else if (t == RightToLeft || t == ArabicLetter) && isolateCount == 0 {
        return 1;
      }
      i := i + 1;
    }
    if i == |types| { ScanEnd(types, isolateCount, respectPdi); }
    level := if fallback == Ltr then 0 else 1;
  }
}
