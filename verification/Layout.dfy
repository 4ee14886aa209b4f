/** The pane layout checker: whether the panes of a tab are the leaves of a split tree
    whose splits leave a divider of one cell. */
module Layout {
  datatype Rect = Rect(id: int, left: int, top: int, cols: int, rows: int)

  datatype Box = Box(left: int, top: int, right: int, bottom: int)

  /** Which way a box is split: into columns side by side, or into rows. */
  datatype Axis = Columns | Rows

  function Start(r: Rect, axis: Axis): int {
    if axis == Columns then r.left else r.top
  }

  function End(r: Rect, axis: Axis): int {
    if axis == Columns then r.left + r.cols else r.top + r.rows
  }

  function Low(box: Box, axis: Axis): int {
    if axis == Columns then box.left else box.top
  }

  function High(box: Box, axis: Axis): int {
    if axis == Columns then box.right else box.bottom
  }

  /** The part of the box before a divider at `at`, and the part after it. */
  function First(box: Box, axis: Axis, at: int): Box {
    if axis == Columns then box.(right := at) else box.(bottom := at)
  }

  function Second(box: Box, axis: Axis, at: int): Box {
    if axis == Columns then box.(left := at + 1) else box.(top := at + 1)
  }

  predicate Fills(r: Rect, box: Box) {
    forall axis :: Start(r, axis) == Low(box, axis) && End(r, axis) == High(box, axis)
  }

  // ----- Split trees -----

  datatype SplitTree = Pane(rect: Rect) | Split(axis: Axis, at: int, first: SplitTree, second: SplitTree)

  function Panes(t: SplitTree): (m: multiset<Rect>)
    ensures |m| >= 1
  {
    match t
    case Pane(r) => multiset{r}
    case Split(_, _, a, b) => Panes(a) + Panes(b)
  }

  /** A split tree of a box: panes fill their boxes. */
  predicate Legal(t: SplitTree, box: Box) {
    match t
    case Pane(r) => Fills(r, box)
    case Split(axis, at, a, b) => Legal(a, First(box, axis, at)) && Legal(b, Second(box, axis, at))
  }

  /** Every divider is in its box, behind at least one cell. */
  predicate Tight(t: SplitTree, box: Box) {
    match t
    case Pane(_) => true
    case Split(axis, at, a, b) =>
      && Low(box, axis) < at < High(box, axis)
      && Tight(a, First(box, axis, at)) && Tight(b, Second(box, axis, at))
  }

  ghost predicate Decomposes(rects: seq<Rect>, box: Box) {
    exists t :: Legal(t, box) && Tight(t, box) && Panes(t) == multiset(rects)
  }

  ghost predicate HasTree(rects: seq<Rect>, box: Box) {
    exists t :: Legal(t, box) && Panes(t) == multiset(rects)
  }

  predicate Positive(r: Rect) {
    r.cols > 0 && r.rows > 0
  }

  /** Where no pane is degenerate, every legal tree is tight. */
  lemma {:induction false} PositiveIsTight(t: SplitTree, box: Box)
    requires Legal(t, box) && forall r :: r in Panes(t) ==> Positive(r)
    ensures Tight(t, box) && box.left < box.right && box.top < box.bottom
  {
    match t
    case Pane(r) =>
      assert r in Panes(t);
      assert Start(r, Columns) == box.left && Start(r, Rows) == box.top;
      assert End(r, Columns) == box.right && End(r, Rows) == box.bottom;
    case Split(axis, at, a, b) =>
      PositiveIsTight(a, First(box, axis, at));
      PositiveIsTight(b, Second(box, axis, at));
  }

  /** The panes of a tight tree stay between the sides of its box. */
  lemma {:induction false} PanesInside(t: SplitTree, box: Box, r: Rect, axis: Axis)
    requires Legal(t, box) && Tight(t, box) && r in Panes(t) && Low(box, axis) <= High(box, axis)
    ensures Low(box, axis) <= Start(r, axis) <= End(r, axis) <= High(box, axis)
  {
    match t
    case Pane(_) =>
    case Split(x, at, a, b) =>
      if r in Panes(a) { PanesInside(a, First(box, x, at), r, axis); }
      else { PanesInside(b, Second(box, x, at), r, axis); }
  }

  /** Some pane touches each side of the box. */
  lemma {:induction false} PanesTouch(t: SplitTree, box: Box, axis: Axis) returns (low: Rect, high: Rect)
    requires Legal(t, box)
    ensures low in Panes(t) && Start(low, axis) == Low(box, axis)
    ensures high in Panes(t) && End(high, axis) == High(box, axis)
  {
    match t
    case Pane(r) => low, high := r, r;
    case Split(x, at, a, b) =>
      var al, ah := PanesTouch(a, First(box, x, at), axis);
      var bl, bh := PanesTouch(b, Second(box, x, at), axis);
      low, high := al, if x == axis then bh else ah;
  }

  // ----- Accepting panes -----

  function Filter(rects: seq<Rect>, p: Rect -> bool): (f: seq<Rect>)
    ensures |f| <= |rects|
  {
    if rects == [] then []
    else (if p(rects[0]) then [rects[0]] else []) + Filter(rects[1..], p)
  }

  lemma {:induction false} FilterCounts(rects: seq<Rect>, p: Rect -> bool, r: Rect)
    ensures multiset(Filter(rects, p))[r] == if p(r) then multiset(rects)[r] else 0
  {
    if rects != [] {
      FilterCounts(rects[1..], p, r);
      assert rects == [rects[0]] + rects[1..];
    }
  }

  /** The panes that end at a divider or before it, and those that begin after it. */
  function UpTo(rects: seq<Rect>, axis: Axis, at: int): seq<Rect> {
    Filter(rects, r => End(r, axis) <= at)
  }

  function Beyond(rects: seq<Rect>, axis: Axis, at: int): seq<Rect> {
    Filter(rects, r => Start(r, axis) >= at + 1)
  }

  lemma SidesCount(rects: seq<Rect>, axis: Axis, at: int, r: Rect)
    ensures multiset(UpTo(rects, axis, at))[r] == if End(r, axis) <= at then multiset(rects)[r] else 0
    ensures multiset(Beyond(rects, axis, at))[r] == if Start(r, axis) >= at + 1 then multiset(rects)[r] else 0
  {
    FilterCounts(rects, r => End(r, axis) <= at, r);
    FilterCounts(rects, r => Start(r, axis) >= at + 1, r);
  }

  function MaxEnd(rects: seq<Rect>, axis: Axis): (m: int)
    requires rects != []
    ensures forall r :: r in rects ==> End(r, axis) <= m
    ensures exists r :: r in rects && End(r, axis) == m
  {
    if |rects| == 1 then End(rects[0], axis)
    else
      var m := MaxEnd(rects[1..], axis);
      if m < End(rects[0], axis) then End(rects[0], axis) else m
  }

  function MinStart(rects: seq<Rect>, axis: Axis): (m: int)
    requires rects != []
    ensures forall r :: r in rects ==> m <= Start(r, axis)
    ensures exists r :: r in rects && Start(r, axis) == m
  {
    if |rects| == 1 then Start(rects[0], axis)
    else
      var m := MinStart(rects[1..], axis);
      if Start(rects[0], axis) < m then Start(rects[0], axis) else m
  }

  predicate Ascending(s: seq<int>) {
    forall i, j :: 0 <= i < j < |s| ==> s[i] < s[j]
  }

  lemma AllAbove(s: seq<int>)
    requires Ascending(s) && s != []
    ensures forall y :: y in s[1..] ==> y > s[0]
  {
    forall y | y in s[1..] ensures y > s[0] {
      var k :| 0 <= k < |s| - 1 && s[1..][k] == y;
      assert s[k + 1] == y;
    }
  }

  /** Put a number into ascending ones, once. */
  function Insert(x: int, s: seq<int>): (r: seq<int>)
    requires Ascending(s)
    ensures forall y :: y in r <==> y == x || y in s
    ensures Ascending(r)
  {
    if s == [] then [x]
    else if x < s[0] then [x] + s
    else if x == s[0] then s
    else
      var r := Insert(x, s[1..]);
      assert forall y :: y in s[1..] ==> y > s[0] by { AllAbove(s); }
      assert forall k :: 0 <= k < |r| ==> r[k] in r;
      assert forall y :: y in r ==> y > s[0];
      [s[0]] + r
  }

  /** The ends of panes within the box, sorted, each once: where a divider may be. */
  function Candidates(rects: seq<Rect>, box: Box, axis: Axis): (s: seq<int>)
    ensures forall x :: x in s <==> Low(box, axis) < x < High(box, axis) && exists r :: r in rects && End(r, axis) == x
    ensures Ascending(s)
  {
    if rects == [] then []
    else
      var s, e := Candidates(rects[1..], box, axis), End(rects[0], axis);
      if Low(box, axis) < e < High(box, axis) then Insert(e, s) else s
  }

  /** The conditions on a divider before the two sides are looked at. */
  predicate SplitsAt(rects: seq<Rect>, axis: Axis, at: int) {
    var a, b := UpTo(rects, axis, at), Beyond(rects, axis, at);
    && a != [] && b != [] && |a| + |b| == |rects|
    && MaxEnd(a, axis) == at && MinStart(b, axis) == at + 1
  }

  /** Whether the layout checker finds nothing wrong in a box. */
  ghost predicate Accepts(rects: seq<Rect>, box: Box)
    decreases |rects|, 2
  {
    if |rects| <= 1 then |rects| == 1 && Fills(rects[0], box)
    else AcceptsAlong(rects, box, Columns) || AcceptsAlong(rects, box, Rows)
  }

  ghost predicate AcceptsAlong(rects: seq<Rect>, box: Box, axis: Axis)
    decreases |rects|, 1
  {
    exists at :: at in Candidates(rects, box, axis) && AcceptsAt(rects, box, axis, at)
  }

  ghost predicate AcceptsAt(rects: seq<Rect>, box: Box, axis: Axis, at: int)
    decreases |rects|, 0
  {
    && SplitsAt(rects, axis, at)
    && Accepts(UpTo(rects, axis, at), First(box, axis, at))
    && Accepts(Beyond(rects, axis, at), Second(box, axis, at))
  }

  // ----- What is accepted -----

  lemma Submultiset(a: multiset<Rect>, b: multiset<Rect>)
    requires a <= b && |a| == |b|
    ensures a == b
  {
    assert b == a + (b - a);
  }

  /** The panes of the two sides are different ones, whatever sizes the rest has. */
  lemma SidesApart(rects: seq<Rect>, box: Box, axis: Axis, at: int, a: SplitTree, b: SplitTree)
    requires SplitsAt(rects, axis, at) && Low(box, axis) < at < High(box, axis)
    requires Legal(a, First(box, axis, at)) && Tight(a, First(box, axis, at))
    requires Legal(b, Second(box, axis, at)) && Tight(b, Second(box, axis, at))
    requires Panes(a) == multiset(UpTo(rects, axis, at)) && Panes(b) == multiset(Beyond(rects, axis, at))
    ensures Panes(a) + Panes(b) == multiset(rects)
  {
    hide SplitsAt, UpTo, Beyond, Panes, Legal, Tight;
    forall r: Rect ensures (Panes(a) + Panes(b))[r] <= multiset(rects)[r] {
      SidesCount(rects, axis, at, r);
      if r in Panes(a) {
        PanesInside(a, First(box, axis, at), r, axis);
      }
    }
    SidesSize(rects, axis, at);
    Submultiset(Panes(a) + Panes(b), multiset(rects));
  }

  lemma SidesSize(rects: seq<Rect>, axis: Axis, at: int)
    requires SplitsAt(rects, axis, at)
    ensures |multiset(UpTo(rects, axis, at)) + multiset(Beyond(rects, axis, at))| == |multiset(rects)|
  {
  }

  lemma AcceptedBy(rects: seq<Rect>, box: Box) returns (axis: Axis, at: int)
    requires Accepts(rects, box) && |rects| > 1
    ensures at in Candidates(rects, box, axis) && AcceptsAt(rects, box, axis, at)
  {
    hide AcceptsAt, Candidates;
    axis := if AcceptsAlong(rects, box, Columns) then Columns else Rows;
    at :| at in Candidates(rects, box, axis) && AcceptsAt(rects, box, axis, at);
  }

  /** What is accepted has a tree. */
  lemma {:induction false} AcceptedHasTree(rects: seq<Rect>, box: Box) returns (t: SplitTree)
    requires Accepts(rects, box)
    ensures Legal(t, box) && Tight(t, box) && Panes(t) == multiset(rects)
    decreases |rects|
  {
    hide UpTo, Beyond, SplitsAt, Candidates;
    if |rects| == 1 {
      t := Pane(rects[0]);
      assert rects == [rects[0]];
    } else {
      var axis, at := AcceptedBy(rects, box);
      hide Accepts;
      SidesShorter(rects, axis, at);
      var a := AcceptedHasTree(UpTo(rects, axis, at), First(box, axis, at));
      var b := AcceptedHasTree(Beyond(rects, axis, at), Second(box, axis, at));
      SidesApart(rects, box, axis, at, a, b);
      t := Split(axis, at, a, b);
    }
  }

  lemma SidesShorter(rects: seq<Rect>, axis: Axis, at: int)
    requires SplitsAt(rects, axis, at)
    ensures |UpTo(rects, axis, at)| < |rects| && |Beyond(rects, axis, at)| < |rects|
  {
  }

  /** The root divider of a tight tree parts the panes of its two subtrees. */
  lemma TreeParts(rects: seq<Rect>, box: Box, axis: Axis, at: int, a: SplitTree, b: SplitTree)
    requires var t := Split(axis, at, a, b); Legal(t, box) && Tight(t, box) && Panes(t) == multiset(rects)
    ensures multiset(UpTo(rects, axis, at)) == Panes(a) && multiset(Beyond(rects, axis, at)) == Panes(b)
  {
    hide UpTo, Beyond;
    assert Panes(a) + Panes(b) == multiset(rects);
    forall r: Rect ensures multiset(UpTo(rects, axis, at))[r] == Panes(a)[r] && multiset(Beyond(rects, axis, at))[r] == Panes(b)[r] {
      SidesCount(rects, axis, at, r);
      if r in Panes(a) { PanesInside(a, First(box, axis, at), r, axis); }
      if r in Panes(b) { PanesInside(b, Second(box, axis, at), r, axis); }
    }
  }

  lemma TreeEnds(t: SplitTree, box: Box, axis: Axis, rects: seq<Rect>)
    requires Legal(t, box) && Tight(t, box) && Low(box, axis) <= High(box, axis)
    requires multiset(rects) == Panes(t)
    ensures rects != [] && MaxEnd(rects, axis) == High(box, axis) && MinStart(rects, axis) == Low(box, axis)
  {
    hide Panes, Legal, Tight, MaxEnd, MinStart;
    var low, high := PanesTouch(t, box, axis);
    assert low in multiset(rects) && high in multiset(rects);
    var most :| most in rects && End(most, axis) == MaxEnd(rects, axis);
    var least :| least in rects && Start(least, axis) == MinStart(rects, axis);
    assert most in multiset(rects) && least in multiset(rects);
    PanesInside(t, box, most, axis);
    PanesInside(t, box, least, axis);
  }

  lemma SidesPass(rects: seq<Rect>, box: Box, axis: Axis, at: int)
    requires Low(box, axis) < at < High(box, axis)
    requires UpTo(rects, axis, at) != [] && Beyond(rects, axis, at) != []
    requires MaxEnd(UpTo(rects, axis, at), axis) == at && MinStart(Beyond(rects, axis, at), axis) == at + 1
    requires multiset(UpTo(rects, axis, at)) + multiset(Beyond(rects, axis, at)) == multiset(rects)
    ensures SplitsAt(rects, axis, at) && at in Candidates(rects, box, axis)
  {
    hide UpTo, Beyond, MaxEnd, MinStart, Candidates;
    var up, down := UpTo(rects, axis, at), Beyond(rects, axis, at);
    assert |up| + |down| == |multiset(up) + multiset(down)| == |rects|;
    var high :| high in up && End(high, axis) == MaxEnd(up, axis);
    assert high in multiset(rects);
  }

  /** That divider passes all conditions of the layout checker. */
  lemma TreeSplitsAt(rects: seq<Rect>, box: Box, axis: Axis, at: int, a: SplitTree, b: SplitTree)
    requires var t := Split(axis, at, a, b); Legal(t, box) && Tight(t, box) && Panes(t) == multiset(rects)
    ensures SplitsAt(rects, axis, at) && at in Candidates(rects, box, axis)
  {
    hide UpTo, Beyond, MaxEnd, MinStart, Candidates;
    var up, down := UpTo(rects, axis, at), Beyond(rects, axis, at);
    assert Panes(a) + Panes(b) == multiset(rects);
    TreeParts(rects, box, axis, at, a, b);
    TreeEnds(a, First(box, axis, at), axis, up);
    TreeEnds(b, Second(box, axis, at), axis, down);
    SidesPass(rects, box, axis, at);
  }

  /** What has a tree is accepted, whichever divider is tried first. */
  lemma {:induction false} TreeIsAccepted(rects: seq<Rect>, box: Box, t: SplitTree)
    requires Legal(t, box) && Tight(t, box) && Panes(t) == multiset(rects)
    ensures Accepts(rects, box)
    decreases t
  {
    assert |rects| == |multiset(rects)|;
    match t
    case Pane(r) => assert rects[0] in multiset(rects);
    case Split(axis, at, a, b) =>
      TreeSplitsAt(rects, box, axis, at, a, b);
      TreeParts(rects, box, axis, at, a, b);
      TreeIsAccepted(UpTo(rects, axis, at), First(box, axis, at), a);
      TreeIsAccepted(Beyond(rects, axis, at), Second(box, axis, at), b);
      assert AcceptsAt(rects, box, axis, at);
      assert AcceptsAlong(rects, box, axis);
  }

  /** The layout checker accepts exactly the panes that some tight split tree of the box has,
      for rectangles of any size, degenerate and negative ones too. */
  lemma AcceptsExactly(rects: seq<Rect>, box: Box)
    ensures Accepts(rects, box) <==> Decomposes(rects, box)
  {
    if Accepts(rects, box) { var t := AcceptedHasTree(rects, box); }
    if Decomposes(rects, box) {
      var t :| Legal(t, box) && Tight(t, box) && Panes(t) == multiset(rects);
      TreeIsAccepted(rects, box, t);
    }
  }

  /** For panes of positive size, any legal tree will do. */
  lemma AcceptsPositive(rects: seq<Rect>, box: Box)
    requires forall r :: r in rects ==> Positive(r)
    ensures Accepts(rects, box) <==> HasTree(rects, box)
  {
    AcceptsExactly(rects, box);
    if t :| Legal(t, box) && Panes(t) == multiset(rects) {
      assert forall r :: r in Panes(t) ==> r in rects;
      PositiveIsTight(t, box);
    }
  }

  /** Without positive sizes a legal tree is not enough: a pane without columns in
      front of the first divider. */
  lemma EmptyPaneRefused()
    ensures var rects, box := [Rect(1, 0, 0, 0, 5), Rect(2, 1, 0, 4, 5)], Box(0, 0, 5, 5);
      && Legal(Split(Columns, 0, Pane(rects[0]), Pane(rects[1])), box)
      && !Accepts(rects, box)
  {
    var rects, box := [Rect(1, 0, 0, 0, 5), Rect(2, 1, 0, 4, 5)], Box(0, 0, 5, 5);
    if Accepts(rects, box) {
      var axis, at := AcceptedBy(rects, box);
    }
  }

  // ----- The checks -----

  datatype Problem =
    | Degenerate(pane: Rect)
    | Overlapping(one: Rect, other: Rect)
    | EmptyBox(box: Box)
    | NotFilled(leaf: Rect, box: Box)
    | NoSplit(box: Box, panes: multiset<Rect>)

  /** What the layout checker says of a box it does not accept. */
  function Complaint(rects: seq<Rect>, box: Box): Problem {
    if rects == [] then EmptyBox(box)
    else if |rects| == 1 then NotFilled(rects[0], box)
    else NoSplit(box, multiset(rects))
  }

  /** `validate_box` */
  method ValidateBox(rects: seq<Rect>, box: Box) returns (errors: seq<Problem>)
    ensures errors == if Accepts(rects, box) then [] else [Complaint(rects, box)]
    decreases |rects|, 1
  {
    if rects == [] { return [EmptyBox(box)]; }
    if |rects| == 1 {
      var r := rects[0];
      if r.left == box.left && r.top == box.top && r.left + r.cols == box.right && r.top + r.rows == box.bottom {
        return [];
      }
      assert !(Start(r, Columns) == box.left && Start(r, Rows) == box.top && End(r, Columns) == box.right && End(r, Rows) == box.bottom);
      return [NotFilled(r, box)];
    }
    var found := TrySplits(rects, box, Columns);
    if found { return []; }
    found := TrySplits(rects, box, Rows);
    if found { return []; }
    return [NoSplit(box, multiset(rects))];
  }

  /** The loop over the candidates for a divider, lowest first. */
  method TrySplits(rects: seq<Rect>, box: Box, axis: Axis) returns (found: bool)
    ensures found == AcceptsAlong(rects, box, axis)
    decreases |rects|, 0
  {
    hide UpTo, Beyond, Accepts, Candidates, MaxEnd, MinStart;
    var candidates := Candidates(rects, box, axis);
    for i := 0 to |candidates|
      invariant forall k :: 0 <= k < i ==> !AcceptsAt(rects, box, axis, candidates[k])
    {
      var at := candidates[i];
      var first, second := UpTo(rects, axis, at), Beyond(rects, axis, at);
      if first == [] || second == [] { continue; }
      if |first| + |second| != |rects| { continue; }
      if MaxEnd(first, axis) != at { continue; }
      if MinStart(second, axis) != at + 1 { continue; }
      var firstErrors := ValidateBox(first, First(box, axis, at));
      if firstErrors != [] { continue; }
      var secondErrors := ValidateBox(second, Second(box, axis, at));
      if secondErrors != [] { continue; }
      assert at in candidates && AcceptsAt(rects, box, axis, at);
      return true;
    }
    return false;
  }

  /** `overlap` */
  predicate Overlap(a: Rect, b: Rect) {
    !(End(a, Columns) <= b.left || End(b, Columns) <= a.left || End(a, Rows) <= b.top || End(b, Rows) <= a.top)
  }

  predicate Within(r: Rect, x: int, y: int) {
    r.left <= x < End(r, Columns) && r.top <= y < End(r, Rows)
  }

  /** Panes of positive size overlap exactly when they share a cell. */
  lemma OverlapIsSharedCell(a: Rect, b: Rect)
    requires Positive(a) && Positive(b)
    ensures Overlap(a, b) <==> exists x, y :: Within(a, x, y) && Within(b, x, y)
  {
    if Overlap(a, b) {
      var x := if a.left < b.left then b.left else a.left;
      var y := if a.top < b.top then b.top else a.top;
      assert Within(a, x, y) && Within(b, x, y);
    }
  }

  /** The overlaps of one pane with the panes behind it. */
  function OverlapsWith(r: Rect, others: seq<Rect>): seq<Problem> {
    if others == [] then []
    else
      var n := |others| - 1;
      OverlapsWith(r, others[..n]) + if Overlap(r, others[n]) then [Overlapping(r, others[n])] else []
  }

  /** The overlaps of the first n panes with the panes behind them. */
  function Overlaps(rects: seq<Rect>, n: nat): seq<Problem>
    requires n <= |rects|
  {
    if n == 0 then [] else Overlaps(rects, n - 1) + OverlapsWith(rects[n - 1], rects[n..])
  }

  lemma {:induction false} NoOverlapsWith(r: Rect, others: seq<Rect>)
    ensures OverlapsWith(r, others) == [] <==> forall i :: 0 <= i < |others| ==> !Overlap(r, others[i])
  {
    hide Overlap;
    if others != [] {
      var n := |others| - 1;
      NoOverlapsWith(r, others[..n]);
      assert forall i :: 0 <= i < n ==> others[..n][i] == others[i];
    }
  }

  /** Nothing is reported exactly when no two panes overlap. */
  lemma {:induction false} NoOverlaps(rects: seq<Rect>, n: nat)
    requires n <= |rects|
    ensures Overlaps(rects, n) == [] <==> forall i, j :: 0 <= i < n && i < j < |rects| ==> !Overlap(rects[i], rects[j])
  {
    hide Overlap, OverlapsWith;
    if n > 0 {
      NoOverlaps(rects, n - 1);
      NoOverlapsWith(rects[n - 1], rects[n..]);
      assert forall j :: n <= j < |rects| ==> rects[j] == rects[n..][j - n];
    }
  }

  lemma OverlapsWithNext(r: Rect, others: seq<Rect>, j: nat)
    requires j < |others|
    ensures OverlapsWith(r, others[..j + 1]) == OverlapsWith(r, others[..j]) + if Overlap(r, others[j]) then [Overlapping(r, others[j])] else []
  {
    hide Overlap;
    assert others[..j + 1][..j] == others[..j];
  }

  /** `pairwise_overlaps`: every pair that overlaps, once, in the order of the list. */
  method PairwiseOverlaps(rects: seq<Rect>) returns (errors: seq<Problem>)
    ensures errors == Overlaps(rects, |rects|)
  {
    hide Overlap, OverlapsWith;
    errors := [];
    for i := 0 to |rects|
      invariant errors == Overlaps(rects, i)
    {
      var others := rects[i + 1..];
      NothingBehind(rects[i]);
      for j := 0 to |others|
        invariant errors == Overlaps(rects, i) + OverlapsWith(rects[i], others[..j])
      {
        OverlapsWithNext(rects[i], others, j);
        if Overlap(rects[i], others[j]) {
          errors := errors + [Overlapping(rects[i], others[j])];
        }
      }
      assert others[..|others|] == others;
    }
  }

  lemma NothingBehind(r: Rect)
    ensures OverlapsWith(r, []) == []
  {
  }

  predicate Small(r: Rect, minCols: int, minRows: int) {
    Positive(r) && (r.cols < minCols || r.rows < minRows)
  }

  function Degenerates(rects: seq<Rect>): (p: seq<Problem>)
    ensures p == [] <==> forall r :: r in rects ==> Positive(r)
  {
    if rects == [] then []
    else
      var n := |rects| - 1;
      assert rects == rects[..n] + [rects[n]];
      Degenerates(rects[..n]) + if Positive(rects[n]) then [] else [Degenerate(rects[n])]
  }

  function Smalls(rects: seq<Rect>, minCols: int, minRows: int): (w: seq<Rect>)
    ensures forall r :: r in w <==> r in rects && Small(r, minCols, minRows)
  {
    if rects == [] then []
    else
      var n := |rects| - 1;
      assert rects == rects[..n] + [rects[n]];
      Smalls(rects[..n], minCols, minRows) + if Small(rects[n], minCols, minRows) then [rects[n]] else []
  }

  lemma {:induction false} SmallsMean(rects: seq<Rect>, minCols: int, minRows: int)
    ensures forall p :: p in Degenerates(rects) <==> p.Degenerate? && p.pane in rects && (p.pane.cols <= 0 || p.pane.rows <= 0)
    ensures forall r :: r in Smalls(rects, minCols, minRows) <==>
      r in rects && 0 < r.cols && 0 < r.rows && (r.cols < minCols || r.rows < minRows)
  {
    if rects != [] {
      var n := |rects| - 1;
      SmallsMean(rects[..n], minCols, minRows);
      assert rects == rects[..n] + [rects[n]];
    }
  }

  lemma OneMorePane(rects: seq<Rect>, i: nat, minCols: int, minRows: int)
    requires i < |rects|
    ensures Degenerates(rects[..i + 1]) == Degenerates(rects[..i]) + if Positive(rects[i]) then [] else [Degenerate(rects[i])]
    ensures Smalls(rects[..i + 1], minCols, minRows) ==
            Smalls(rects[..i], minCols, minRows) + if Small(rects[i], minCols, minRows) then [rects[i]] else []
  {
    assert rects[..i + 1][..i] == rects[..i];
  }

  /** `find_small_panes`: errors for the degenerate panes, warnings for the small ones. */
  method FindSmallPanes(rects: seq<Rect>, minCols: int, minRows: int) returns (errors: seq<Problem>, warnings: seq<Rect>)
    ensures errors == Degenerates(rects)
    ensures warnings == Smalls(rects, minCols, minRows)
    ensures forall p :: p in errors <==> p.Degenerate? && p.pane in rects && (p.pane.cols <= 0 || p.pane.rows <= 0)
    ensures forall r :: r in warnings <==> r in rects && 0 < r.cols && 0 < r.rows && (r.cols < minCols || r.rows < minRows)
  {
    SmallsMean(rects, minCols, minRows);
    errors, warnings := [], [];
    for i := 0 to |rects|
      invariant errors == Degenerates(rects[..i])
      invariant warnings == Smalls(rects[..i], minCols, minRows)
    {
      OneMorePane(rects, i, minCols, minRows);
      hide Degenerates, Smalls;
      var r := rects[i];
      if r.cols <= 0 || r.rows <= 0 {
        errors := errors + [Degenerate(r)];
        continue;
      }
      if r.cols < minCols || r.rows < minRows {
        warnings := warnings + [r];
      }
    }
    assert rects[..|rects|] == rects;
  }

  /** The box that the panes of a tab must fill. */
  function TabBox(rects: seq<Rect>): Box
    requires rects != []
  {
    Box(0, 0, MaxEnd(rects, Columns), MaxEnd(rects, Rows))
  }

  /** What a tab promises: no panes, or panes of positive size that are the leaves of a
      split tree of the box from the origin to their furthest sides. */
  ghost predicate TabOk(rects: seq<Rect>) {
    rects != [] ==>
      && (forall r :: r in rects ==> Positive(r))
      && HasTree(rects, TabBox(rects))
  }

  /** `validate_tab`: no errors exactly for a tab that keeps that promise. The errors
      are the degenerate panes, then the overlaps, then the one about the box. */
  method ValidateTab(rects: seq<Rect>, minCols: int, minRows: int) returns (errors: seq<Problem>, warnings: seq<Rect>)
    ensures errors == [] <==> TabOk(rects)
    ensures errors == Degenerates(rects) + Overlaps(rects, |rects|)
                      + if rects == [] || Accepts(rects, TabBox(rects)) then [] else [Complaint(rects, TabBox(rects))]
    ensures warnings == Smalls(rects, minCols, minRows)
  {
    hide Accepts, Legal, Panes, MaxEnd, Overlap, Smalls;
    errors, warnings := FindSmallPanes(rects, minCols, minRows);
    var overlaps := PairwiseOverlaps(rects);
    errors := errors + overlaps;
    if rects != [] {
      var right, bottom := MaxEnd(rects, Columns), MaxEnd(rects, Rows);
      var boxErrors := ValidateBox(rects, Box(0, 0, right, bottom));
      errors := errors + boxErrors;
      TabOkWhen(rects);
    }
  }

  /** The check for overlaps finds nothing that the check of the box would not. */
  lemma TabOkWhen(rects: seq<Rect>)
    requires rects != []
    ensures TabOk(rects) <==> Degenerates(rects) == [] && Accepts(rects, TabBox(rects))
    ensures TabOk(rects) ==> Overlaps(rects, |rects|) == []
  {
    hide Accepts, HasTree, Overlap;
    if TabOk(rects) {
      AcceptsPositive(rects, TabBox(rects));
      AcceptedDisjoint(rects, TabBox(rects));
    }
    if Degenerates(rects) == [] && Accepts(rects, TabBox(rects)) {
      AcceptsPositive(rects, TabBox(rects));
    }
  }

  // ----- What acceptance means on the screen -----

  lemma {:induction false} PanesDisjoint(t: SplitTree, box: Box, a: Rect, b: Rect)
    requires Legal(t, box) && Tight(t, box) && box.left <= box.right && box.top <= box.bottom
    requires a in Panes(t) && b in Panes(t) && Overlap(a, b)
    ensures a == b && Panes(t)[a] == 1
  {
    match t
    case Pane(_) =>
    case Split(axis, at, l, r) =>
      forall p | p in Panes(l) ensures End(p, axis) <= at { PanesInside(l, First(box, axis, at), p, axis); }
      forall p | p in Panes(r) ensures Start(p, axis) > at { PanesInside(r, Second(box, axis, at), p, axis); }
      hide Legal, Tight;
      if a in Panes(l) && b in Panes(l) { PanesDisjoint(l, First(box, axis, at), a, b); }
      else if a in Panes(r) && b in Panes(r) { PanesDisjoint(r, Second(box, axis, at), a, b); }
  }

  lemma TwiceCounts(rects: seq<Rect>, i: nat, j: nat)
    requires i < j < |rects| && rects[i] == rects[j]
    ensures multiset(rects)[rects[i]] >= 2
  {
    assert rects == rects[..j] + [rects[j]] + rects[j + 1..];
    assert rects[i] in rects[..j];
  }

  /** Panes that are accepted do not overlap, and stay inside the box. */
  lemma AcceptedDisjoint(rects: seq<Rect>, box: Box)
    requires Accepts(rects, box) && forall r :: r in rects ==> Positive(r)
    ensures Overlaps(rects, |rects|) == []
    ensures forall r, axis :: r in rects ==> Low(box, axis) <= Start(r, axis) && End(r, axis) <= High(box, axis)
  {
    hide Overlap, Accepts, Legal, Tight, Panes;
    var t := AcceptedHasTree(rects, box);
    forall r | r in Panes(t) ensures Positive(r) { assert r in multiset(rects); }
    PositiveIsTight(t, box);
    NoOverlaps(rects, |rects|);
    forall i, j | 0 <= i < |rects| && i < j < |rects| ensures !Overlap(rects[i], rects[j]) {
      assert rects[i] in multiset(rects) && rects[j] in multiset(rects);
      if Overlap(rects[i], rects[j]) {
        PanesDisjoint(t, box, rects[i], rects[j]);
        TwiceCounts(rects, i, j);
      }
    }
    forall r, axis | r in rects ensures Low(box, axis) <= Start(r, axis) && End(r, axis) <= High(box, axis) {
      assert r in multiset(rects);
      PanesInside(t, box, r, axis);
    }
  }

  predicate OnDivider(t: SplitTree, x: int, y: int, box: Box) {
    match t
    case Pane(_) => false
    case Split(axis, at, a, b) =>
      var here := if axis == Columns then x else y;
      if here == at then true
      else if here < at then OnDivider(a, x, y, First(box, axis, at))
      else OnDivider(b, x, y, Second(box, axis, at))
  }

  /** Every cell of the box is on a divider or in a pane, and not both. */
  lemma {:induction false} CellsCovered(t: SplitTree, box: Box, x: int, y: int)
    requires Legal(t, box) && Tight(t, box)
    requires box.left <= x < box.right && box.top <= y < box.bottom
    ensures OnDivider(t, x, y, box) <==> forall r :: r in Panes(t) ==> !Within(r, x, y)
  {
    match t
    case Pane(r) =>
      assert Start(r, Columns) == box.left && Start(r, Rows) == box.top;
      assert End(r, Columns) == box.right && End(r, Rows) == box.bottom;
      assert r in Panes(t) && Within(r, x, y);
    case Split(axis, at, a, b) =>
      forall p | p in Panes(a) ensures End(p, axis) <= at { PanesInside(a, First(box, axis, at), p, axis); }
      forall p | p in Panes(b) ensures Start(p, axis) > at { PanesInside(b, Second(box, axis, at), p, axis); }
      var here := if axis == Columns then x else y;
      if here < at { CellsCovered(a, First(box, axis, at), x, y); }
      else if here > at { CellsCovered(b, Second(box, axis, at), x, y); }
  }

  function Area(rects: seq<Rect>): int {
    if rects == [] then 0 else rects[0].cols * rects[0].rows + Area(rects[1..])
  }

  function TreeArea(t: SplitTree): int {
    match t
    case Pane(r) => r.cols * r.rows
    case Split(_, _, a, b) => TreeArea(a) + TreeArea(b)
  }

  function DividerArea(t: SplitTree, box: Box): int {
    match t
    case Pane(_) => 0
    case Split(axis, at, a, b) =>
      (if axis == Columns then box.bottom - box.top else box.right - box.left)
      + DividerArea(a, First(box, axis, at)) + DividerArea(b, Second(box, axis, at))
  }

  function BoxArea(box: Box): int {
    (box.right - box.left) * (box.bottom - box.top)
  }

  lemma {:induction false} TreeFillsBox(t: SplitTree, box: Box)
    requires Legal(t, box)
    ensures TreeArea(t) + DividerArea(t, box) == BoxArea(box)
  {
    match t
    case Pane(r) =>
      assert Start(r, Columns) == box.left && Start(r, Rows) == box.top;
      assert End(r, Columns) == box.right && End(r, Rows) == box.bottom;
    case Split(axis, at, a, b) =>
      hide BoxArea;
      TreeFillsBox(a, First(box, axis, at));
      TreeFillsBox(b, Second(box, axis, at));
      CutBox(box, axis, at);
  }

  lemma CutBox(box: Box, axis: Axis, at: int)
    ensures BoxArea(First(box, axis, at)) + BoxArea(Second(box, axis, at))
            + (if axis == Columns then box.bottom - box.top else box.right - box.left) == BoxArea(box)
  {
    if axis == Columns { CutArea(box.left, at, box.right, box.bottom - box.top); }
    else { CutArea(box.top, at, box.bottom, box.right - box.left); }
  }

  lemma CutArea(low: int, at: int, high: int, across: int)
    ensures (at - low) * across + across + (high - (at + 1)) * across == (high - low) * across
    ensures across * (at - low) + across + across * (high - (at + 1)) == across * (high - low)
  {
  }

  lemma {:induction false} AreaWithout(rects: seq<Rect>, k: nat)
    requires k < |rects|
    ensures Area(rects) == rects[k].cols * rects[k].rows + Area(rects[..k] + rects[k + 1..])
  {
    var rest := rects[..k] + rects[k + 1..];
    if k == 0 {
      assert rest == rects[1..];
    } else {
      AreaWithout(rects[1..], k - 1);
      assert rest[1..] == rects[1..][..k - 1] + rects[1..][k..];
    }
  }

  lemma RestsSame(a: seq<Rect>, b: seq<Rect>, k: nat)
    requires multiset(a) == multiset(b) && a != [] && k < |b| && b[k] == a[0]
    ensures multiset(a[1..]) == multiset(b[..k] + b[k + 1..])
  {
    assert a == [a[0]] + a[1..];
    assert b == b[..k] + [b[k]] + b[k + 1..];
    assert multiset(a[1..]) == multiset(a) - multiset{a[0]};
    assert multiset(b[..k] + b[k + 1..]) == multiset(b) - multiset{b[k]};
  }

  lemma {:induction false} AreaPermutes(a: seq<Rect>, b: seq<Rect>)
    requires multiset(a) == multiset(b)
    ensures Area(a) == Area(b)
  {
    if a == [] {
      assert |b| == |multiset(b)|;
    } else {
      assert a[0] in multiset(a) && a[0] in multiset(b);
      var k :| 0 <= k < |b| && b[k] == a[0];
      RestsSame(a, b, k);
      AreaPermutes(a[1..], b[..k] + b[k + 1..]);
      AreaWithout(b, k);
    }
  }

  /** The panes of a tree in some order. */
  function Listed(t: SplitTree): (s: seq<Rect>)
    ensures multiset(s) == Panes(t)
  {
    match t
    case Pane(r) => [r]
    case Split(_, _, a, b) => Listed(a) + Listed(b)
  }

  lemma {:induction false} AreaConcat(a: seq<Rect>, b: seq<Rect>)
    ensures Area(a + b) == Area(a) + Area(b)
  {
    if a == [] { assert a + b == b; }
    else {
      AreaConcat(a[1..], b);
      assert (a + b)[1..] == a[1..] + b;
    }
  }

  lemma {:induction false} ListedArea(t: SplitTree)
    ensures Area(Listed(t)) == TreeArea(t)
  {
    match t
    case Pane(r) => assert Listed(t)[1..] == [];
    case Split(_, _, a, b) =>
      ListedArea(a);
      ListedArea(b);
      AreaConcat(Listed(a), Listed(b));
  }

  /** The panes and the dividers together have the area of the box. */
  lemma AreaConserved(rects: seq<Rect>, t: SplitTree, box: Box)
    requires Legal(t, box) && Panes(t) == multiset(rects)
    ensures Area(rects) + DividerArea(t, box) == BoxArea(box)
  {
    TreeFillsBox(t, box);
    ListedArea(t);
    AreaPermutes(rects, Listed(t));
  }
}
