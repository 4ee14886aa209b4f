/** Lines on the wire: their hyperlinks are taken out of the cells as runs, each sent
    once, and put back on the other side; their images are only described. */
module Hyperlinks {
  import opened Wrappers

  datatype Hyperlink = Hyperlink(uri: string, params: map<string, string>, implicit: bool)

  /** A shared hyperlink. Two cells have the same one if they have the same object. */
  class Arc {
    const link: Hyperlink

    constructor (link: Hyperlink)
      ensures this.link == link
    {
      this.link := link;
    }
  }

  /** A cell: its text and attributes, its link, and the pieces of images on it. */
  datatype Cell<I> = Cell(text: string, link: Option<Arc>, images: seq<I>)

  type Cells<I> = seq<Cell<I>>

  /** A line with its stable row. */
  datatype Line<I> = Line(row: int, cells: Cells<I>)

  datatype CellCoordinates = CellCoordinates(line: nat, start: nat, end: nat)

  datatype LineHyperlink = LineHyperlink(link: Hyperlink, coords: seq<CellCoordinates>)

  datatype SerializedImage<I> = SerializedImage(row: int, cell: nat, image: I)

  datatype SerializedLines<I> = SerializedLines(
    lines: seq<Line<I>>, hyperlinks: seq<LineHyperlink>, images: seq<SerializedImage<I>>)

  // ----- What is recorded -----

  /** The cells from a to b have one link, and neither neighbour has it. */
  predicate IsRun<I>(cells: Cells<I>, a: int, b: int) {
    && 0 <= a < b <= |cells| && cells[a].link.Some?
    && (forall k :: a <= k < b ==> cells[k].link == cells[a].link)
    && (a > 0 ==> cells[a - 1].link != cells[a].link)
    && (b < |cells| ==> cells[b].link != cells[a].link)
  }

  /** The link of a run of the i-th line, recorded with its one place. */
  predicate RecordsRun<I>(l: LineHyperlink, i: nat, cells: Cells<I>) {
    && |l.coords| == 1 && l.coords[0].line == i
    && IsRun(cells, l.coords[0].start, l.coords[0].end)
    && l.link == cells[l.coords[0].start].link.value.link
  }

  predicate Holds(l: LineHyperlink, i: nat, k: nat) {
    |l.coords| == 1 && l.coords[0].line == i && l.coords[0].start <= k < l.coords[0].end
  }

  /** One place lies before another in reading order, apart from it. */
  predicate Before(l: LineHyperlink, m: LineHyperlink) {
    && |l.coords| == 1 && |m.coords| == 1
    && (l.coords[0].line < m.coords[0].line
        || (l.coords[0].line == m.coords[0].line && l.coords[0].end <= m.coords[0].start))
  }

  predicate InOrder(links: seq<LineHyperlink>) {
    forall g, h :: 0 <= g < h < |links| ==> Before(links[g], links[h])
  }

  ghost predicate Held(links: seq<LineHyperlink>, i: nat, k: nat) {
    exists h :: 0 <= h < |links| && Holds(links[h], i, k)
  }

  /** The links are the maximal runs of the i-th line, in order. */
  ghost predicate LineRecorded<I>(links: seq<LineHyperlink>, i: nat, cells: Cells<I>) {
    && (forall h :: 0 <= h < |links| ==> RecordsRun(links[h], i, cells))
    && InOrder(links)
    && (forall k :: 0 <= k < |cells| && cells[k].link.Some? ==> Held(links, i, k))
  }

  /** The links are the maximal runs of all the lines, in order. */
  ghost predicate Recorded<I>(links: seq<LineHyperlink>, lines: seq<Line<I>>) {
    && (forall h :: 0 <= h < |links| ==>
          |links[h].coords| == 1 && links[h].coords[0].line < |lines|
          && RecordsRun(links[h], links[h].coords[0].line, lines[links[h].coords[0].line].cells))
    && InOrder(links)
    && (forall i, k :: 0 <= i < |lines| && 0 <= k < |lines[i].cells| && lines[i].cells[k].link.Some? ==> Held(links, i, k))
  }

  function Bare<I>(c: Cell<I>): Cell<I> {
    c.(link := None, images := [])
  }

  function BareCells<I>(cells: Cells<I>): (r: Cells<I>)
    ensures |r| == |cells|
  {
    seq(|cells|, k requires 0 <= k < |cells| => Bare(cells[k]))
  }

  function CellImages<I>(row: int, cell: nat, images: seq<I>): (r: seq<SerializedImage<I>>)
    ensures |r| == |images|
  {
    seq(|images|, k requires 0 <= k < |images| => SerializedImage(row, cell, images[k]))
  }

  /** The images of the first n cells of a line, from left to right. */
  function LineImages<I>(row: int, cells: Cells<I>, n: nat): seq<SerializedImage<I>>
    requires n <= |cells|
  {
    if n == 0 then [] else LineImages(row, cells, n - 1) + CellImages(row, n - 1, cells[n - 1].images)
  }

  /** The images of the first n lines, row by row. */
  function AllImages<I>(lines: seq<Line<I>>, n: nat): seq<SerializedImage<I>>
    requires n <= |lines|
  {
    if n == 0 then []
    else
      var l := lines[n - 1];
      AllImages(lines, n - 1) + LineImages(l.row, l.cells, |l.cells|)
  }

  lemma {:induction false} LineImageAt<I>(row: int, cells: Cells<I>, n: nat, k: nat, m: nat)
    requires k < n <= |cells| && m < |cells[k].images|
    ensures var p := |LineImages(row, cells, k)| + m;
      p < |LineImages(row, cells, n)| && LineImages(row, cells, n)[p] == SerializedImage(row, k, cells[k].images[m])
  {
    if k < n - 1 { LineImageAt(row, cells, n - 1, k, m); }
  }

  /** The m-th image on cell k of line i comes after those of the lines and cells before it. */
  lemma {:induction false} ImageAt<I>(lines: seq<Line<I>>, n: nat, i: nat, k: nat, m: nat)
    requires i < n <= |lines| && k < |lines[i].cells| && m < |lines[i].cells[k].images|
    ensures var p := |AllImages(lines, i)| + |LineImages(lines[i].row, lines[i].cells, k)| + m;
      p < |AllImages(lines, n)| && AllImages(lines, n)[p] == SerializedImage(lines[i].row, k, lines[i].cells[k].images[m])
  {
    LineImageAt(lines[i].row, lines[i].cells, |lines[i].cells|, k, m);
    if i < n - 1 { ImageAt(lines, n - 1, i, k, m); }
  }

  lemma {:induction false} LineImagesGrow<I>(row: int, cells: Cells<I>, j: nat, k: nat)
    requires j < k <= |cells|
    ensures |LineImages(row, cells, j)| + |cells[j].images| <= |LineImages(row, cells, k)|
  {
    if j < k - 1 { LineImagesGrow(row, cells, j, k - 1); }
  }

  lemma {:induction false} AllImagesGrow<I>(lines: seq<Line<I>>, i: nat, j: nat)
    requires i < j <= |lines|
    ensures |AllImages(lines, i)| + |LineImages(lines[i].row, lines[i].cells, |lines[i].cells|)| <= |AllImages(lines, j)|
  {
    if i < j - 1 { AllImagesGrow(lines, i, j - 1); }
  }

  /** Every image is listed with its row and cell, in the order of lines, cells and images. */
  lemma ImagesInOrder<I>(lines: seq<Line<I>>, i: nat, k: nat, m: nat, j: nat, l: nat, o: nat) returns (p: nat, q: nat)
    requires i < |lines| && k < |lines[i].cells| && m < |lines[i].cells[k].images|
    requires j < |lines| && l < |lines[j].cells| && o < |lines[j].cells[l].images|
    requires i < j || (i == j && (k < l || (k == l && m < o)))
    ensures var all := AllImages(lines, |lines|);
      && p < q < |all|
      && all[p] == SerializedImage(lines[i].row, k, lines[i].cells[k].images[m])
      && all[q] == SerializedImage(lines[j].row, l, lines[j].cells[l].images[o])
  {
    hide AllImages, LineImages;
    p := |AllImages(lines, i)| + |LineImages(lines[i].row, lines[i].cells, k)| + m;
    q := |AllImages(lines, j)| + |LineImages(lines[j].row, lines[j].cells, l)| + o;
    ImageAt(lines, |lines|, i, k, m);
    ImageAt(lines, |lines|, j, l, o);
    if i < j {
      AllImagesGrow(lines, i, j);
      LineImagesGrow(lines[i].row, lines[i].cells, k, |lines[i].cells|);
    } else if k < l {
      LineImagesGrow(lines[i].row, lines[i].cells, k, l);
    }
  }

  // ----- Taking out -----

  /** `range_union`: the hull of two ranges. */
  function RangeUnion(r: (nat, nat), s: (nat, nat)): (nat, nat) {
    if r.0 == r.1 then s
    else if s.0 == s.1 then r
    else (if r.0 < s.0 then r.0 else s.0, if r.1 < s.1 then s.1 else r.1)
  }

  /** How far a line has been read: the runs before the current one, and the current
      one, which ends where reading has come to. */
  ghost predicate Progress<I>(links: seq<LineHyperlink>, i: nat, cells: Cells<I>, x: nat, current: Option<Arc>, range: (nat, nat)) {
    var a := if current.Some? then range.0 else x;
    && x <= |cells|
    && (current.Some? ==>
          && range.0 < range.1 == x
          && (forall k :: a <= k < x ==> cells[k].link == current)
          && (a > 0 ==> cells[a - 1].link != current))
    && (current.None? ==> x > 0 ==> cells[x - 1].link == None)
    && (forall h :: 0 <= h < |links| ==> RecordsRun(links[h], i, cells) && links[h].coords[0].end <= a)
    && InOrder(links)
    && (forall k :: 0 <= k < a && cells[k].link.Some? ==> Held(links, i, k))
  }

  function RunLink(current: Arc, i: nat, range: (nat, nat)): LineHyperlink {
    LineHyperlink(current.link, [CellCoordinates(i, range.0, range.1)])
  }

  /** The current streak is a maximal run once it ends. */
  lemma StreakIsRun<I>(links: seq<LineHyperlink>, i: nat, cells: Cells<I>, x: nat, current: Option<Arc>, range: (nat, nat))
    requires Progress(links, i, cells, x, current, range) && current.Some?
    requires x < |cells| ==> cells[x].link != current
    ensures IsRun(cells, range.0, range.1) && RecordsRun(RunLink(current.value, i, range), i, cells)
  {
    hide Held, InOrder;
  }

  lemma OrderNext(links: seq<LineHyperlink>, l: LineHyperlink)
    requires InOrder(links) && forall h :: 0 <= h < |links| ==> Before(links[h], l)
    ensures InOrder(links + [l])
  {
    hide Before;
  }

  lemma HeldNext(links: seq<LineHyperlink>, l: LineHyperlink, i: nat, k: nat)
    requires Held(links, i, k) || Holds(l, i, k)
    ensures Held(links + [l], i, k)
  {
    hide Holds;
    var next := links + [l];
    if Held(links, i, k) {
      var h :| 0 <= h < |links| && Holds(links[h], i, k);
      assert Holds(next[h], i, k);
    } else {
      assert Holds(next[|links|], i, k);
    }
  }

  /** Closing the current run. */
  lemma RunCloses<I>(links: seq<LineHyperlink>, i: nat, cells: Cells<I>, x: nat, current: Option<Arc>, range: (nat, nat))
    requires Progress(links, i, cells, x, current, range) && current.Some?
    requires x < |cells| ==> cells[x].link != current
    ensures var next := links + [RunLink(current.value, i, range)];
      && (forall h :: 0 <= h < |next| ==> RecordsRun(next[h], i, cells) && next[h].coords[0].end <= x)
      && InOrder(next)
      && (forall k :: 0 <= k < x && cells[k].link.Some? ==> Held(next, i, k))
  {
    StreakIsRun(links, i, cells, x, current, range);
    var l := RunLink(current.value, i, range);
    hide Held, InOrder, IsRun;
    OrderNext(links, l);
    forall k | 0 <= k < x && cells[k].link.Some? ensures Held(links + [l], i, k) {
      HeldNext(links, l, i, k);
    }
  }

  /** The loop over one line. */
  method TakeOut<I>(i: nat, line: Line<I>) returns (bare: Cells<I>, links: seq<LineHyperlink>, images: seq<SerializedImage<I>>)
    ensures bare == BareCells(line.cells)
    ensures LineRecorded(links, i, line.cells)
    ensures images == LineImages(line.row, line.cells, |line.cells|)
  {
    hide RecordsRun, LineImages, CellImages;
    bare, links, images := line.cells, [], [];
    NothingTaken(line);
    var currentLink: Option<Arc> := None;
    var currentRange: (nat, nat) := (0, 0);
    for x := 0 to |line.cells|
      invariant |bare| == |line.cells|
      invariant forall k :: 0 <= k < |bare| ==> bare[k] == if k < x then Bare(line.cells[k]) else line.cells[k]
      invariant images == LineImages(line.row, line.cells, x)
      invariant Progress(links, i, line.cells, x, currentLink, currentRange)
    {
      var link := bare[x].link;
      if link.Some? {
        bare := bare[x := bare[x].(link := None)];
        if currentLink == link {
          currentRange := RangeUnion(currentRange, (x, x + 1));
        } else {
          if currentLink.Some? {
            RunCloses(links, i, line.cells, x, currentLink, currentRange);
            links := links + [RunLink(currentLink.value, i, currentRange)];
          }
          currentRange := (x, x + 1);
          currentLink := link;
        }
      } else if currentLink.Some? {
        RunCloses(links, i, line.cells, x, currentLink, currentRange);
        links := links + [RunLink(currentLink.value, i, currentRange)];
        currentLink := None;
        currentRange := (0, 0);
      }
      var here := TakeImages(line.row, x, bare[x].images);
      images := images + here;
      MoreImages(line, x);
      bare := bare[x := bare[x].(images := [])];
    }
    if currentLink.Some? {
      RunCloses(links, i, line.cells, |line.cells|, currentLink, currentRange);
      links := links + [RunLink(currentLink.value, i, currentRange)];
    }
  }

  lemma NothingTaken<I>(line: Line<I>)
    ensures LineImages(line.row, line.cells, 0) == []
  {
  }

  lemma MoreImages<I>(line: Line<I>, x: nat)
    requires x < |line.cells|
    ensures LineImages(line.row, line.cells, x + 1) == LineImages(line.row, line.cells, x) + CellImages(line.row, x, line.cells[x].images)
  {
  }

  method TakeImages<I>(row: int, cell: nat, from: seq<I>) returns (images: seq<SerializedImage<I>>)
    ensures images == CellImages(row, cell, from)
  {
    images := [];
    for k := 0 to |from|
      invariant |images| == k && forall j :: 0 <= j < k ==> images[j] == SerializedImage(row, cell, from[j])
    {
      images := images + [SerializedImage(row, cell, from[k])];
    }
  }

  lemma LineJoins<I>(links: seq<LineHyperlink>, more: seq<LineHyperlink>, lines: seq<Line<I>>, i: nat)
    requires i < |lines| && Recorded(links, lines[..i]) && LineRecorded(more, i, lines[i].cells)
    ensures Recorded(links + more, lines[..i + 1])
  {
    hide IsRun;
    var all := links + more;
    forall h | 0 <= h < |all|
      ensures |all[h].coords| == 1 && all[h].coords[0].line <= i && RecordsRun(all[h], all[h].coords[0].line, lines[all[h].coords[0].line].cells)
    {
      if h < |links| { assert all[h] == links[h]; } else { assert all[h] == more[h - |links|]; }
    }
    forall j, k | 0 <= j <= i && 0 <= k < |lines[j].cells| && lines[j].cells[k].link.Some? ensures Held(all, j, k) {
      if j < i {
        assert lines[..i][j] == lines[j];
        var h :| 0 <= h < |links| && Holds(links[h], j, k);
        assert Holds(all[h], j, k);
      } else {
        var h :| 0 <= h < |more| && Holds(more[h], i, k);
        assert Holds(all[|links| + h], i, k);
      }
    }
  }

  /** `From`: the lines bare, the maximal runs of their links in order, and every image
      once, row by row. */
  method Serialize<I>(given: seq<Line<I>>) returns (s: SerializedLines<I>)
    ensures |s.lines| == |given|
    ensures forall i :: 0 <= i < |given| ==> s.lines[i] == Line(given[i].row, BareCells(given[i].cells))
    ensures Recorded(s.hyperlinks, given)
    ensures s.images == AllImages(given, |given|)
  {
    hide LineRecorded, Recorded;
    var lines, hyperlinks, images := given, [], [];
    NothingRecorded(given[..0]);
    for i := 0 to |given|
      invariant |lines| == |given|
      invariant forall j :: 0 <= j < |lines| ==> lines[j] == if j < i then Line(given[j].row, BareCells(given[j].cells)) else given[j]
      invariant Recorded(hyperlinks, given[..i])
      invariant images == AllImages(given, i)
    {
      var bare, links, more := TakeOut(i, lines[i]);
      LineJoins(hyperlinks, links, given, i);
      lines := lines[i := lines[i].(cells := bare)];
      hyperlinks := hyperlinks + links;
      images := images + more;
    }
    assert given[..|given|] == given;
    return SerializedLines(lines, hyperlinks, images);
  }

  lemma NothingRecorded<I>(lines: seq<Line<I>>)
    ensures lines == [] ==> Recorded([], lines)
  {
  }

  // ----- Putting back -----

  /** Coordinates that stay inside their line reach its cells; others reach none. */
  predicate Reaches<I>(c: CellCoordinates, lines: seq<Line<I>>, i: nat, k: nat)
    requires i < |lines|
  {
    c.line == i && c.start <= k < c.end <= |lines[i].cells|
  }

  predicate AnyReaches<I>(coords: seq<CellCoordinates>, lines: seq<Line<I>>, i: nat, k: nat)
    requires i < |lines|
  {
    exists c :: 0 <= c < |coords| && Reaches(coords[c], lines, i, k)
  }

  /** The last of the first n links that reaches a cell. */
  function LastReaching<I>(links: seq<LineHyperlink>, n: nat, lines: seq<Line<I>>, i: nat, k: nat): (h: Option<nat>)
    requires n <= |links| && i < |lines|
    ensures h.Some? ==> h.value < n && AnyReaches(links[h.value].coords, lines, i, k)
    ensures forall g :: 0 <= g < n && (h.None? || g > h.value) ==> !AnyReaches(links[g].coords, lines, i, k)
  {
    if n == 0 then None
    else if AnyReaches(links[n - 1].coords, lines, i, k) then Some(n - 1)
    else LastReaching(links, n - 1, lines, i, k)
  }

  /** A cell after the first n links, where the g-th became the g-th object. */
  function Linked<I>(cell: Cell<I>, reaching: Option<nat>, arcs: seq<Arc>): Cell<I>
    requires reaching.Some? ==> reaching.value < |arcs|
  {
    if reaching.None? then cell else cell.(link := Some(arcs[reaching.value]))
  }

  method SetLinks<I>(given: Cells<I>, start: nat, end: nat, url: Arc) returns (cells: Cells<I>)
    requires start <= end <= |given|
    ensures |cells| == |given|
    ensures forall k :: 0 <= k < |cells| ==> cells[k] == if start <= k < end then given[k].(link := Some(url)) else given[k]
  {
    cells := given;
    for x := start to end
      invariant |cells| == |given|
      invariant forall k :: 0 <= k < |cells| ==> cells[k] == if start <= k < x then given[k].(link := Some(url)) else given[k]
    {
      cells := cells[x := cells[x].(link := Some(url))];
    }
  }

  /** Lines with the rows and the number of cells of others. */
  predicate SameShape<I>(a: seq<Line<I>>, b: seq<Line<I>>) {
    && |a| == |b|
    && forall i :: 0 <= i < |a| ==> a[i].row == b[i].row && |a[i].cells| == |b[i].cells|
  }

  /** The loop over the places of one link. */
  method PutBack<I>(given: seq<Line<I>>, coords: seq<CellCoordinates>, url: Arc) returns (lines: seq<Line<I>>)
    ensures SameShape(lines, given)
    ensures forall i, k :: 0 <= i < |lines| && 0 <= k < |lines[i].cells| ==>
              lines[i].cells[k] == if AnyReaches(coords, given, i, k) then given[i].cells[k].(link := Some(url)) else given[i].cells[k]
  {
    lines := given;
    for c := 0 to |coords|
      invariant SameShape(lines, given)
      invariant forall i, k :: 0 <= i < |lines| && 0 <= k < |lines[i].cells| ==>
        lines[i].cells[k] == if AnyReaches(coords[..c], given, i, k) then given[i].cells[k].(link := Some(url)) else given[i].cells[k]
    {
      var coord := coords[c];
      ghost var before := lines;
      if coord.line < |lines| {
        var line := lines[coord.line];
        if coord.start <= coord.end <= |line.cells| {
          var cells := SetLinks(line.cells, coord.start, coord.end, url);
          lines := lines[coord.line := line.(cells := cells)];
        }
      }
      forall i, k | 0 <= i < |lines| && 0 <= k < |lines[i].cells|
        ensures AnyReaches(coords[..c + 1], given, i, k) <==> AnyReaches(coords[..c], given, i, k) || Reaches(coord, given, i, k)
      {
        OneMorePlace(coords, c, given, i, k);
      }
      hide AnyReaches;
    }
    assert coords[..|coords|] == coords;
  }

  lemma OneMorePlace<I>(coords: seq<CellCoordinates>, c: nat, lines: seq<Line<I>>, i: nat, k: nat)
    requires c < |coords| && i < |lines|
    ensures AnyReaches(coords[..c + 1], lines, i, k) <==> AnyReaches(coords[..c], lines, i, k) || Reaches(coords[c], lines, i, k)
  {
    if AnyReaches(coords[..c], lines, i, k) {
      var d :| 0 <= d < c && Reaches(coords[..c][d], lines, i, k);
      assert coords[..c + 1][d] == coords[d];
    }
    if AnyReaches(coords[..c + 1], lines, i, k) {
      var d :| 0 <= d < c + 1 && Reaches(coords[..c + 1][d], lines, i, k);
      assert d < c ==> coords[..c][d] == coords[d];
    }
    assert coords[..c + 1][c] == coords[c];
  }

  predicate DistinctArcs(arcs: seq<Arc>) {
    forall g, h :: 0 <= g < h < |arcs| ==> arcs[g] != arcs[h]
  }

  /** `extract_data`: every link becomes one new object, and every cell has the last one
      that reaches it. Nothing else of the lines changes. */
  method ExtractData<I>(s: SerializedLines<I>) returns (lines: seq<Line<I>>, images: seq<SerializedImage<I>>, ghost arcs: seq<Arc>)
    ensures images == s.images
    ensures |arcs| == |s.hyperlinks| && DistinctArcs(arcs)
    ensures forall h :: 0 <= h < |arcs| ==> fresh(arcs[h]) && arcs[h].link == s.hyperlinks[h].link
    ensures SameShape(lines, s.lines)
    ensures forall i, k :: 0 <= i < |lines| && 0 <= k < |lines[i].cells| ==>
              lines[i].cells[k] == Linked(s.lines[i].cells[k], LastReaching(s.hyperlinks, |s.hyperlinks|, s.lines, i, k), arcs)
  {
    hide AnyReaches, LastReaching;
    lines, arcs := s.lines, [];
    for h := 0 to |s.hyperlinks|
      invariant |arcs| == h && DistinctArcs(arcs)
      invariant forall g :: 0 <= g < h ==> fresh(arcs[g]) && arcs[g].link == s.hyperlinks[g].link
      invariant SameShape(lines, s.lines)
      invariant forall i, k :: 0 <= i < |lines| && 0 <= k < |lines[i].cells| ==>
        lines[i].cells[k] == Linked(s.lines[i].cells[k], LastReaching(s.hyperlinks, h, s.lines, i, k), arcs)
    {
      var link := s.hyperlinks[h];
      var url := new Arc(link.link);
      ghost var before := lines;
      lines := PutBack(lines, link.coords, url);
      ghost var was := arcs;
      arcs := arcs + [url];
      forall i, k | 0 <= i < |lines| && 0 <= k < |lines[i].cells|
        ensures lines[i].cells[k] == Linked(s.lines[i].cells[k], LastReaching(s.hyperlinks, h + 1, s.lines, i, k), arcs)
      {
        OneMoreLink(s, before, h, i, k);
      }
    }
    images := s.images;
    if s.hyperlinks == [] {
      forall i, k | 0 <= i < |lines| && 0 <= k < |lines[i].cells|
        ensures LastReaching(s.hyperlinks, 0, s.lines, i, k) == None
      {
      }
    }
  }

  lemma OneMoreLink<I>(s: SerializedLines<I>, now: seq<Line<I>>, h: nat, i: nat, k: nat)
    requires h < |s.hyperlinks| && SameShape(now, s.lines) && i < |now|
    ensures AnyReaches(s.hyperlinks[h].coords, now, i, k) == AnyReaches(s.hyperlinks[h].coords, s.lines, i, k)
    ensures LastReaching(s.hyperlinks, h + 1, s.lines, i, k) ==
            if AnyReaches(s.hyperlinks[h].coords, s.lines, i, k) then Some(h) else LastReaching(s.hyperlinks, h, s.lines, i, k)
  {
    hide LastReaching;
    assert forall c :: 0 <= c < |s.hyperlinks[h].coords| ==>
        (Reaches(s.hyperlinks[h].coords[c], now, i, k) <==> Reaches(s.hyperlinks[h].coords[c], s.lines, i, k));
    LastReachingNext(s, h, i, k);
  }

  lemma LastReachingNext<I>(s: SerializedLines<I>, h: nat, i: nat, k: nat)
    requires h < |s.hyperlinks| && i < |s.lines|
    ensures LastReaching(s.hyperlinks, h + 1, s.lines, i, k) ==
            if AnyReaches(s.hyperlinks[h].coords, s.lines, i, k) then Some(h) else LastReaching(s.hyperlinks, h, s.lines, i, k)
  {
  }

  // ----- There and back -----

  /** Two cells of a line are in one run of a link. */
  predicate SameRun<I>(cells: Cells<I>, j: nat, k: nat)
    requires j < |cells| && k < |cells|
  {
    var low, high := if j < k then j else k, if j < k then k else j;
    cells[j].link.Some? && forall m :: low <= m <= high ==> cells[m].link == cells[j].link
  }

  lemma PlacesReach<I>(links: seq<LineHyperlink>, given: seq<Line<I>>, lines: seq<Line<I>>, h: nat, i: nat, k: nat)
    requires Recorded(links, given) && SameShape(lines, given) && h < |links| && i < |lines| && k < |lines[i].cells|
    ensures AnyReaches(links[h].coords, lines, i, k) <==> Holds(links[h], i, k)
  {
    var c := links[h].coords[0];
    assert IsRun(given[c.line].cells, c.start, c.end);
    if Holds(links[h], i, k) { assert Reaches(links[h].coords[0], lines, i, k); }
  }

  lemma RecordAt<I>(links: seq<LineHyperlink>, given: seq<Line<I>>, h: nat, i: nat, k: nat)
    requires Recorded(links, given) && h < |links| && i < |given| && k < |given[i].cells| && Holds(links[h], i, k)
    ensures RecordsRun(links[h], i, given[i].cells) && given[i].cells[k].link.Some?
    ensures links[h].link == given[i].cells[k].link.value.link
  {
    hide InOrder, Held;
    assert RecordsRun(links[h], links[h].coords[0].line, given[links[h].coords[0].line].cells);
  }

  lemma RecordOf<I>(links: seq<LineHyperlink>, given: seq<Line<I>>, i: nat, k: nat) returns (g: nat)
    requires Recorded(links, given) && i < |given| && k < |given[i].cells| && given[i].cells[k].link.Some?
    ensures g < |links| && Holds(links[g], i, k)
  {
    hide InOrder, RecordsRun, Holds;
    assert Held(links, i, k);
    g :| 0 <= g < |links| && Holds(links[g], i, k);
  }

  /** A cell is reached by the record of its own run, and by no other; a cell without a
      link is not reached. */
  lemma ReachedByOwnRun<I>(links: seq<LineHyperlink>, given: seq<Line<I>>, lines: seq<Line<I>>, i: nat, k: nat)
    requires Recorded(links, given) && SameShape(lines, given) && i < |lines| && k < |lines[i].cells|
    ensures var h, cell := LastReaching(links, |links|, lines, i, k), given[i].cells[k];
      && (h.Some? <==> cell.link.Some?)
      && (h.Some? ==> Holds(links[h.value], i, k) && RecordsRun(links[h.value], i, given[i].cells)
                      && links[h.value].link == cell.link.value.link)
  {
    hide AnyReaches, LastReaching, Recorded, RecordsRun, Holds;
    var h, cell := LastReaching(links, |links|, lines, i, k), given[i].cells[k];
    if cell.link.Some? {
      var g := RecordOf(links, given, i, k);
      PlacesReach(links, given, lines, g, i, k);
    }
    if h.Some? {
      PlacesReach(links, given, lines, h.value, i, k);
      RecordAt(links, given, h.value, i, k);
    }
  }

  /** A run ends before any cell of a later one. */
  lemma RunsApart<I>(cells: Cells<I>, a: int, b: int, j: nat, k: nat)
    requires IsRun(cells, a, b) && a <= j < b <= k < |cells|
    ensures !SameRun(cells, j, k) && !SameRun(cells, k, j)
  {
    assert cells[b].link != cells[j].link;
  }

  /** Two records have no run in common. */
  lemma RecordsApart<I>(links: seq<LineHyperlink>, lines: seq<Line<I>>, g: nat, h: nat, i: nat, j: nat, i': nat, k: nat)
    requires Recorded(links, lines) && g < h < |links| && i < |lines| && i' < |lines|
    requires j < |lines[i].cells| && k < |lines[i'].cells| && Holds(links[g], i, j) && Holds(links[h], i', k)
    ensures i == i' ==> !SameRun(lines[i].cells, j, k) && !SameRun(lines[i].cells, k, j)
  {
    hide Held;
    RecordAt(links, lines, g, i, j);
    assert Before(links[g], links[h]);
    if i == i' { RunsApart(lines[i].cells, links[g].coords[0].start, links[g].coords[0].end, j, k); }
  }

  /** The cells of a record are in one run. */
  lemma InOneRecord<I>(links: seq<LineHyperlink>, lines: seq<Line<I>>, g: nat, i: nat, j: nat, i': nat, k: nat)
    requires Recorded(links, lines) && g < |links| && i < |lines| && i' < |lines| && j < |lines[i].cells| && k < |lines[i'].cells|
    requires Holds(links[g], i, j) && Holds(links[g], i', k)
    ensures i == i' && SameRun(lines[i].cells, j, k)
  {
    RecordAt(links, lines, g, i, j);
    hide Recorded;
  }

  /** Two cells get the same object exactly if they are in one run. */
  lemma SameObjectSameRun<I>(links: seq<LineHyperlink>, given: seq<Line<I>>, lines: seq<Line<I>>, i: nat, j: nat, i': nat, k: nat)
    requires Recorded(links, given) && SameShape(lines, given)
    requires i < |lines| && j < |lines[i].cells| && i' < |lines| && k < |lines[i'].cells|
    requires given[i].cells[j].link.Some? && given[i'].cells[k].link.Some?
    ensures LastReaching(links, |links|, lines, i, j) == LastReaching(links, |links|, lines, i', k) <==>
            i == i' && SameRun(given[i].cells, j, k)
  {
    hide AnyReaches, LastReaching, Recorded, RecordsRun, Holds, SameRun;
    ReachedByOwnRun(links, given, lines, i, j);
    ReachedByOwnRun(links, given, lines, i', k);
    var g, h := LastReaching(links, |links|, lines, i, j).value, LastReaching(links, |links|, lines, i', k).value;
    if g == h {
      InOneRecord(links, given, g, i, j, i', k);
    } else if g < h {
      RecordsApart(links, given, g, h, i, j, i', k);
    } else {
      RecordsApart(links, given, h, g, i', k, i, j);
    }
  }

  predicate HasLink<I>(lines: seq<Line<I>>, i: int, k: int) {
    0 <= i < |lines| && 0 <= k < |lines[i].cells| && lines[i].cells[k].link.Some?
  }

  // ----- Identity -----

  /** The link object of a cell. */
  ghost function ArcAt<I>(lines: seq<Line<I>>, i: nat, k: nat): Arc
    requires HasLink(lines, i, k)
  {
    lines[i].cells[k].link.value
  }

  /** The cells of every link object are one stretch of one line. */
  ghost predicate EachInOneRun<I>(lines: seq<Line<I>>) {
    forall i, j, i', k :: HasLink(lines, i, j) && HasLink(lines, i', k) && ArcAt(lines, i, j) == ArcAt(lines, i', k) ==>
      i == i' && SameRun(lines[i].cells, j, k)
  }

  /** Two cells share a link object after exactly if they did before. */
  ghost predicate SameSharing<I>(before: seq<Line<I>>, after: seq<Line<I>>) {
    forall i, j, i', k :: HasLink(before, i, j) && HasLink(before, i', k) ==>
      HasLink(after, i, j) && HasLink(after, i', k)
      && (ArcAt(after, i, j) == ArcAt(after, i', k) <==> ArcAt(before, i, j) == ArcAt(before, i', k))
  }

  /** The link object that the h-th record was made of. */
  ghost function RecordedArc<I>(links: seq<LineHyperlink>, lines: seq<Line<I>>, h: nat): Arc
    requires Recorded(links, lines) && h < |links|
  {
    var c := links[h].coords[0];
    assert RecordsRun(links[h], c.line, lines[c.line].cells);
    lines[c.line].cells[c.start].link.value
  }

  /** Every link object is sent once. */
  ghost predicate SentOnce<I>(links: seq<LineHyperlink>, lines: seq<Line<I>>)
    requires Recorded(links, lines)
  {
    forall g, h :: 0 <= g < h < |links| ==> RecordedArc(links, lines, g) != RecordedArc(links, lines, h)
  }

  /** A record holds the cells of its own link object. */
  lemma HoldsItsArc<I>(links: seq<LineHyperlink>, lines: seq<Line<I>>, h: nat, i: nat, k: nat)
    requires Recorded(links, lines) && h < |links| && i < |lines| && k < |lines[i].cells| && Holds(links[h], i, k)
    ensures HasLink(lines, i, k) && ArcAt(lines, i, k) == RecordedArc(links, lines, h)
  {
    hide InOrder, Held;
    RecordAt(links, lines, h, i, k);
  }

  /** The first cell of a record. */
  lemma FirstHeld<I>(links: seq<LineHyperlink>, lines: seq<Line<I>>, h: nat) returns (i: nat, k: nat)
    requires Recorded(links, lines) && h < |links|
    ensures i < |lines| && k < |lines[i].cells| && Holds(links[h], i, k)
  {
    hide InOrder, Held;
    i, k := links[h].coords[0].line, links[h].coords[0].start;
    assert RecordsRun(links[h], i, lines[i].cells);
  }

  /** One copy of each link object is sent if and only if its cells are one stretch of one
      line. */
  lemma SentOnceExactly<I>(links: seq<LineHyperlink>, lines: seq<Line<I>>)
    requires Recorded(links, lines)
    ensures SentOnce(links, lines) <==> EachInOneRun(lines)
  {
    hide Recorded, SameRun;
    if EachInOneRun(lines) {
      forall g, h | 0 <= g < h < |links| ensures RecordedArc(links, lines, g) != RecordedArc(links, lines, h) {
        var i, j := FirstHeld(links, lines, g);
        var i', k := FirstHeld(links, lines, h);
        HoldsItsArc(links, lines, g, i, j);
        HoldsItsArc(links, lines, h, i', k);
        RecordsApart(links, lines, g, h, i, j, i', k);
      }
    }
    if SentOnce(links, lines) {
      forall i, j, i', k | HasLink(lines, i, j) && HasLink(lines, i', k) && ArcAt(lines, i, j) == ArcAt(lines, i', k)
        ensures i == i' && SameRun(lines[i].cells, j, k)
      {
        var g := RecordOf(links, lines, i, j);
        var h := RecordOf(links, lines, i', k);
        HoldsItsArc(links, lines, g, i, j);
        HoldsItsArc(links, lines, h, i', k);
        InOneRecord(links, lines, g, i, j, i', k);
      }
    }
  }

  /** The same cells have a link. */
  ghost predicate SameLinked<I>(before: seq<Line<I>>, after: seq<Line<I>>) {
    && SameShape(after, before)
    && forall i, k :: 0 <= i < |after| && 0 <= k < |after[i].cells| ==>
         (after[i].cells[k].link.Some? <==> before[i].cells[k].link.Some?)
  }

  /** Within a line a run keeps one object, and any two runs get different ones. */
  ghost predicate SharesRuns<I>(before: seq<Line<I>>, after: seq<Line<I>>) {
    && SameShape(after, before)
    && forall i, j, i', k :: HasLink(after, i, j) && HasLink(after, i', k) ==>
         (ArcAt(after, i, j) == ArcAt(after, i', k) <==> i == i' && SameRun(before[i].cells, j, k))
  }

  /** Identity comes back if and only if the cells of every link object are one stretch of
      one line. */
  lemma SharingKeptExactly<I>(before: seq<Line<I>>, after: seq<Line<I>>)
    requires SameLinked(before, after) && SharesRuns(before, after)
    ensures SameSharing(before, after) <==> EachInOneRun(before)
  {
    forall i, j, k | HasLink(before, i, j) && HasLink(before, i, k) && SameRun(before[i].cells, j, k)
      ensures ArcAt(before, i, j) == ArcAt(before, i, k)
    {
      RunShares(before, i, j, k);
    }
  }

  lemma RunShares<I>(lines: seq<Line<I>>, i: nat, j: nat, k: nat)
    requires HasLink(lines, i, j) && HasLink(lines, i, k) && SameRun(lines[i].cells, j, k)
    ensures ArcAt(lines, i, j) == ArcAt(lines, i, k)
  {
  }

  // ----- A link that wraps -----

  /** The two rows of a link that the terminal has wrapped. */
  function Wrapped<I>(url: Arc): (lines: seq<Line<I>>)
    ensures |lines| == 2
  {
    [Line(0, [Cell("a", Some(url), [])]), Line(1, [Cell("b", Some(url), [])])]
  }

  lemma NotBefore(l: LineHyperlink, m: LineHyperlink, i: nat, k: nat)
    requires Holds(l, i, k) && Holds(m, i, k)
    ensures !Before(l, m)
  {
  }

  /** One record holds a cell. */
  lemma OneHolder<I>(links: seq<LineHyperlink>, lines: seq<Line<I>>, g: nat, h: nat, i: nat, k: nat)
    requires Recorded(links, lines) && g < |links| && h < |links| && Holds(links[g], i, k) && Holds(links[h], i, k)
    ensures g == h
  {
    hide Held, RecordsRun, Before, Holds;
    NotBefore(links[g], links[h], i, k);
    NotBefore(links[h], links[g], i, k);
  }

  /** The record of a row holds its one cell. */
  lemma WrappedRecord(url: Arc, links: seq<LineHyperlink>, l: nat) returns (i: nat)
    requires Recorded(links, Wrapped<int>(url)) && l < |links|
    ensures i < 2 && Holds(links[l], i, 0) && links[l].link == url.link
  {
    hide Held, InOrder;
    i := links[l].coords[0].line;
  }

  lemma WrappedRecords(url: Arc, links: seq<LineHyperlink>, g: nat, h: nat, l: nat)
    requires Recorded(links, Wrapped<int>(url)) && g < |links| && h < |links| && l < |links|
    requires Holds(links[g], 0, 0) && Holds(links[h], 1, 0)
    ensures (l == g || l == h) && links[l].link == url.link
  {
    hide Recorded, Holds;
    var i := WrappedRecord(url, links, l);
    OneHolder(links, Wrapped<int>(url), l, if i == 0 then g else h, i, 0);
  }

  /** Its URL is sent twice, and its two cells come back with two objects. */
  lemma WrappedLinkSplits(url: Arc, links: seq<LineHyperlink>, back: seq<Line<int>>)
    requires Recorded(links, Wrapped<int>(url)) && SameShape(back, Wrapped<int>(url))
    ensures |links| == 2 && links[0].link == links[1].link == url.link
    ensures LastReaching(links, 2, back, 0, 0) != LastReaching(links, 2, back, 1, 0)
    ensures !EachInOneRun(Wrapped<int>(url)) && !SentOnce(links, Wrapped<int>(url))
  {
    hide LastReaching, Recorded;
    var given := Wrapped<int>(url);
    var g := RecordOf(links, given, 0, 0);
    var h := RecordOf(links, given, 1, 0);
    assert g != h;
    WrappedRecords(url, links, g, h, 0);
    WrappedRecords(url, links, g, h, 1);
    if |links| > 2 { WrappedRecords(url, links, g, h, 2); }
    SameObjectSameRun(links, given, back, 0, 0, 1, 0);
    assert HasLink(given, 0, 0) && HasLink(given, 1, 0) && ArcAt(given, 0, 0) == ArcAt(given, 1, 0);
    SentOnceExactly(links, given);
  }

  /** Every cell has the object of the record that reaches it. */
  ghost predicate Restored<I>(links: seq<LineHyperlink>, given: seq<Line<I>>, lines: seq<Line<I>>, back: seq<Line<I>>, arcs: seq<Arc>) {
    && Recorded(links, given) && SameShape(lines, given) && SameShape(back, given) && |arcs| == |links| && DistinctArcs(arcs)
    && forall i, k :: 0 <= i < |back| && 0 <= k < |back[i].cells| ==>
         back[i].cells[k] == Linked(Bare(given[i].cells[k]), LastReaching(links, |links|, lines, i, k), arcs)
  }

  lemma RestoredLink<I>(links: seq<LineHyperlink>, given: seq<Line<I>>, lines: seq<Line<I>>, back: seq<Line<I>>, arcs: seq<Arc>, i: nat, k: nat)
    requires Restored(links, given, lines, back, arcs) && i < |back| && k < |back[i].cells|
    ensures SameShape(back, given) && (back[i].cells[k].link.Some? <==> given[i].cells[k].link.Some?)
  {
    hide Recorded, LastReaching;
    ReachedByOwnRun(links, given, lines, i, k);
  }

  lemma RestoredShares<I>(links: seq<LineHyperlink>, given: seq<Line<I>>, lines: seq<Line<I>>, back: seq<Line<I>>, arcs: seq<Arc>,
                          i: nat, j: nat, i': nat, k: nat)
    requires Restored(links, given, lines, back, arcs) && HasLink(back, i, j) && HasLink(back, i', k)
    ensures SameShape(back, given)
    ensures ArcAt(back, i, j) == ArcAt(back, i', k) <==> i == i' && SameRun(given[i].cells, j, k)
  {
    hide Recorded, LastReaching, SameRun;
    ReachedByOwnRun(links, given, lines, i, j);
    ReachedByOwnRun(links, given, lines, i', k);
    SameObjectSameRun(links, given, lines, i, j, i', k);
  }

  lemma RestoredShape<I>(links: seq<LineHyperlink>, given: seq<Line<I>>, lines: seq<Line<I>>, back: seq<Line<I>>, arcs: seq<Arc>)
    requires Restored(links, given, lines, back, arcs)
    ensures SameShape(back, given)
  {
  }

  lemma RestoredLinked<I>(links: seq<LineHyperlink>, given: seq<Line<I>>, lines: seq<Line<I>>, back: seq<Line<I>>, arcs: seq<Arc>)
    requires Restored(links, given, lines, back, arcs)
    ensures SameLinked(given, back)
  {
    hide Restored;
    RestoredShape(links, given, lines, back, arcs);
    forall i, k | 0 <= i < |back| && 0 <= k < |back[i].cells|
      ensures back[i].cells[k].link.Some? <==> given[i].cells[k].link.Some?
    {
      RestoredLink(links, given, lines, back, arcs, i, k);
    }
  }

  lemma RestoredRuns<I>(links: seq<LineHyperlink>, given: seq<Line<I>>, lines: seq<Line<I>>, back: seq<Line<I>>, arcs: seq<Arc>)
    requires Restored(links, given, lines, back, arcs)
    ensures SharesRuns(given, back)
  {
    hide Restored, SameRun;
    RestoredShape(links, given, lines, back, arcs);
    forall i, j, i', k | HasLink(back, i, j) && HasLink(back, i', k)
      ensures ArcAt(back, i, j) == ArcAt(back, i', k) <==> i == i' && SameRun(given[i].cells, j, k)
    {
      RestoredShares(links, given, lines, back, arcs, i, j, i', k);
    }
  }

  /** Such lines share objects run by run. */
  lemma BackShares<I>(links: seq<LineHyperlink>, given: seq<Line<I>>, lines: seq<Line<I>>, back: seq<Line<I>>, arcs: seq<Arc>)
    requires Restored(links, given, lines, back, arcs)
    ensures SharesRuns(given, back) && (SameSharing(given, back) <==> EachInOneRun(given))
  {
    hide Restored, SameLinked, SharesRuns, SameSharing, EachInOneRun;
    RestoredLinked(links, given, lines, back, arcs);
    RestoredRuns(links, given, lines, back, arcs);
    SharingKeptExactly(given, back);
  }

  /** What comes back: the lines with their links, as values, and without their images;
      within a line a run keeps one object, and any two runs get different ones. So identity
      comes back exactly if the cells of every link object are one run. */
  method RoundTrip<I>(given: seq<Line<I>>) returns (back: seq<Line<I>>, images: seq<SerializedImage<I>>)
    ensures SameShape(back, given) && images == AllImages(given, |given|)
    ensures forall i, k :: 0 <= i < |back| && 0 <= k < |back[i].cells| ==>
              var was, now := given[i].cells[k], back[i].cells[k];
              && now.text == was.text && now.images == []
              && (now.link.Some? <==> was.link.Some?)
              && (now.link.Some? ==> fresh(now.link.value) && now.link.value.link == was.link.value.link)
    ensures SharesRuns(given, back)
    ensures SameSharing(given, back) <==> EachInOneRun(given)
  {
    hide Recorded, LastReaching, AllImages, SharesRuns, SameSharing, EachInOneRun, DistinctArcs;
    var s := Serialize(given);
    ghost var arcs;
    back, images, arcs := ExtractData(s);
    forall i, k | 0 <= i < |back| && 0 <= k < |back[i].cells|
      ensures var h := LastReaching(s.hyperlinks, |s.hyperlinks|, s.lines, i, k);
        && back[i].cells[k] == Linked(Bare(given[i].cells[k]), h, arcs)
        && (h.Some? <==> given[i].cells[k].link.Some?)
        && (h.Some? ==> s.hyperlinks[h.value].link == given[i].cells[k].link.value.link)
    {
      ReachedByOwnRun(s.hyperlinks, given, s.lines, i, k);
    }
    BackShares(s.hyperlinks, given, s.lines, back, arcs);
  }
}
