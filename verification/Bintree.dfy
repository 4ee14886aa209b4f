/** The binary tree and its zipper cursor. */
module Bintree {
  import opened Wrappers

  datatype Tree<L, N> =
    | Empty
    | Node(left: Tree<L, N>, right: Tree<L, N>, data: Option<N>)
    | Leaf(leaf: L)

  datatype Path<L, N> =
    | Top
    | PathLeft(right: Tree<L, N>, data: Option<N>, up: Path<L, N>)
    | PathRight(left: Tree<L, N>, data: Option<N>, up: Path<L, N>)

  datatype Cursor<L, N> = Cursor(it: Tree<L, N>, path: Path<L, N>)

  // ----- What a cursor stands for -----

  /** The whole tree that `it` at `path` is part of. */
  function Plug<L, N>(it: Tree<L, N>, path: Path<L, N>): Tree<L, N>
    decreases path
  {
    match path
    case Top => it
    case PathLeft(right, data, up) => Plug(Node(it, right, data), up)
    case PathRight(left, data, up) => Plug(Node(left, it, data), up)
  }

  function Root<L, N>(c: Cursor<L, N>): Tree<L, N> {
    Plug(c.it, c.path)
  }

  /** Every node has two children, and only a lone root may be empty. */
  predicate Full<L, N>(t: Tree<L, N>) {
    match t
    case Empty => false
    case Leaf(_) => true
    case Node(left, right, _) => Full(left) && Full(right)
  }

  predicate Proper<L, N>(t: Tree<L, N>) {
    t == Empty || Full(t)
  }

  predicate FullPath<L, N>(path: Path<L, N>) {
    match path
    case Top => true
    case PathLeft(right, _, up) => Full(right) && FullPath(up)
    case PathRight(left, _, up) => Full(left) && FullPath(up)
  }

  /** A cursor into a proper tree. */
  predicate ProperCursor<L, N>(c: Cursor<L, N>) {
    FullPath(c.path) && (Full(c.it) || (c.it == Empty && c.path == Top))
  }

  lemma {:induction false} PlugFull<L, N>(it: Tree<L, N>, path: Path<L, N>)
    ensures Full(Plug(it, path)) <==> Full(it) && FullPath(path)
    decreases path
  {
    match path
    case Top =>
    case PathLeft(right, data, up) => PlugFull(Node(it, right, data), up);
    case PathRight(left, data, up) => PlugFull(Node(left, it, data), up);
  }

  lemma {:induction false} PlugEmpty<L, N>(it: Tree<L, N>, path: Path<L, N>)
    ensures Plug(it, path) == Empty <==> it == Empty && path == Top
    decreases path
  {
    match path
    case Top =>
    case PathLeft(right, data, up) => PlugEmpty(Node(it, right, data), up);
    case PathRight(left, data, up) => PlugEmpty(Node(left, it, data), up);
  }

  /** Proper is a property of the tree, wherever the cursor stands in it. */
  lemma ProperAnywhere<L, N>(c: Cursor<L, N>)
    ensures ProperCursor(c) <==> Proper(Root(c))
  {
    PlugFull(c.it, c.path);
    PlugEmpty(c.it, c.path);
  }

  /** The leaves from left to right. */
  function Leaves<L, N>(t: Tree<L, N>): seq<L> {
    match t
    case Empty => []
    case Leaf(l) => [l]
    case Node(left, right, _) => Leaves(left) + Leaves(right)
  }

  function LeavesBefore<L, N>(path: Path<L, N>): seq<L> {
    match path
    case Top => []
    case PathLeft(_, _, up) => LeavesBefore(up)
    case PathRight(left, _, up) => LeavesBefore(up) + Leaves(left)
  }

  function LeavesAfter<L, N>(path: Path<L, N>): seq<L> {
    match path
    case Top => []
    case PathLeft(right, _, up) => Leaves(right) + LeavesAfter(up)
    case PathRight(_, _, up) => LeavesAfter(up)
  }

  lemma {:induction false} LeavesAround<L, N>(it: Tree<L, N>, path: Path<L, N>)
    ensures Leaves(Plug(it, path)) == LeavesBefore(path) + Leaves(it) + LeavesAfter(path)
    decreases path
  {
    match path
    case Top =>
    case PathLeft(right, data, up) =>
      LeavesAround(Node(it, right, data), up);
    case PathRight(left, data, up) =>
      LeavesAround(Node(left, it, data), up);
  }

  function NumLeaves<L, N>(t: Tree<L, N>): (n: nat)
    ensures n == |Leaves(t)|
  {
    match t
    case Empty => 0
    case Leaf(_) => 1
    case Node(left, right, _) => NumLeaves(left) + NumLeaves(right)
  }

  // ----- Moves -----

  type Moved<L, N> = Result<Cursor<L, N>, Cursor<L, N>>

  function GoLeft<L, N>(c: Cursor<L, N>): Moved<L, N> {
    match c.it
    case Node(left, right, data) => Success(Cursor(left, PathLeft(right, data, c.path)))
    case _ => Failure(c)
  }

  function GoRight<L, N>(c: Cursor<L, N>): Moved<L, N> {
    match c.it
    case Node(left, right, data) => Success(Cursor(right, PathRight(left, data, c.path)))
    case _ => Failure(c)
  }

  function GoUp<L, N>(c: Cursor<L, N>): Moved<L, N> {
    match c.path
    case Top => Failure(c)
    case PathRight(left, data, up) => Success(Cursor(Node(left, c.it, data), up))
    case PathLeft(right, data, up) => Success(Cursor(Node(c.it, right, data), up))
  }

  function Where<L, N>(r: Moved<L, N>): Cursor<L, N> {
    match r
    case Success(c) => c
    case Failure(c) => c
  }

  /** A move goes nowhere else than in the same tree, and up undoes down. */
  lemma MovesKeepTree<L, N>(c: Cursor<L, N>)
    ensures Root(Where(GoLeft(c))) == Root(Where(GoRight(c))) == Root(Where(GoUp(c))) == Root(c)
    ensures GoLeft(c).Success? ==> GoUp(GoLeft(c).value) == Success(c)
    ensures GoRight(c).Success? ==> GoUp(GoRight(c).value) == Success(c)
  {
    match c.path
    case Top =>
    case PathLeft(right, data, up) => assert Root(c) == Plug(Node(c.it, right, data), up);
    case PathRight(left, data, up) => assert Root(c) == Plug(Node(left, c.it, data), up);
  }

  /** `tree`: climb to the root. */
  method ToTree<L, N>(start: Cursor<L, N>) returns (t: Tree<L, N>)
    ensures t == Root(start)
  {
    var c := start;
    while true
      invariant Root(c) == Root(start)
      decreases c.path
    {
      match GoUp(c)
      case Success(up) => c := up;
      case Failure(top) => return top.it;
    }
  }

  // ----- Edits -----

  function AssignTop<L, N>(c: Cursor<L, N>, leaf: L): Moved<L, N> {
    if c.it == Empty && c.path == Top then Success(Cursor(Leaf(leaf), c.path)) else Failure(c)
  }

  function AssignNode<L, N>(c: Cursor<L, N>, value: Option<N>): Moved<L, N> {
    match c.it
    case Node(left, right, _) => Success(c.(it := Node(left, right, value)))
    case _ => Failure(c)
  }

  function UnsplitLeaf<L, N>(c: Cursor<L, N>): Result<(Cursor<L, N>, L, Option<N>), Cursor<L, N>> {
    match (c.it, c.path)
    case (Leaf(l), PathLeft(right, data, up)) => Success((Cursor(right, up), l, data))
    case (Leaf(l), PathRight(left, data, up)) => Success((Cursor(left, up), l, data))
    case _ => Failure(c)
  }

  function SplitNodeAndInsertLeft<L, N>(c: Cursor<L, N>, toInsert: L): Moved<L, N> {
    if c.it.Node? then Success(c.(it := Node(Leaf(toInsert), c.it, None))) else Failure(c)
  }

  function SplitNodeAndInsertRight<L, N>(c: Cursor<L, N>, toInsert: L): Moved<L, N> {
    if c.it.Node? then Success(c.(it := Node(c.it, Leaf(toInsert), None))) else Failure(c)
  }

  function SplitLeafAndInsertRight<L, N>(c: Cursor<L, N>, right: L): Moved<L, N> {
    if c.it.Leaf? then Success(c.(it := Node(c.it, Leaf(right), None))) else Failure(c)
  }

  function SplitLeafAndInsertLeft<L, N>(c: Cursor<L, N>, left: L): Moved<L, N> {
    if c.it.Leaf? then Success(c.(it := Node(Leaf(left), c.it, None))) else Failure(c)
  }

  /** `b` is `a` with `x` put in at position `k`. */
  predicate InsertedAt<L(==)>(a: seq<L>, b: seq<L>, k: nat, x: L) {
    k <= |a| && b == a[..k] + [x] + a[k..]
  }

  lemma PutIn<L>(a: seq<L>, m: seq<L>, z: seq<L>, x: L)
    ensures InsertedAt(a + m + z, a + ([x] + m) + z, |a|, x)
    ensures InsertedAt(a + m + z, a + (m + [x]) + z, |a + m|, x)
  {
    assert (a + m + z)[..|a|] == a && (a + m + z)[|a|..] == m + z;
    assert (a + m + z)[..|a + m|] == a + m && (a + m + z)[|a + m|..] == z;
    assert a + ([x] + m) + z == a + [x] + (m + z);
    assert a + (m + [x]) + z == a + m + [x] + z;
  }

  /** A leaf put beside the subtree under the cursor stands next to its leaves, and
      nothing else changes in the order of the leaves. */
  lemma InsertBeside<L, N>(c: Cursor<L, N>, x: L)
    ensures InsertedAt(Leaves(Root(c)), Leaves(Root(c.(it := Node(Leaf(x), c.it, None)))), |LeavesBefore(c.path)|, x)
    ensures InsertedAt(Leaves(Root(c)), Leaves(Root(c.(it := Node(c.it, Leaf(x), None)))), |LeavesBefore(c.path)| + |Leaves(c.it)|, x)
  {
    LeavesAround(c.it, c.path);
    var l, r: Tree<L, N> := Node(Leaf(x), c.it, None), Node(c.it, Leaf(x), None);
    LeavesAround(l, c.path);
    LeavesAround(r, c.path);
    assert Leaves(l) == [x] + Leaves(c.it) && Leaves(r) == Leaves(c.it) + [x];
    PutIn(LeavesBefore(c.path), Leaves(c.it), LeavesAfter(c.path), x);
    hide Leaves, Plug, InsertedAt;
  }

  /** The four splits put the new leaf next to the leaves under the cursor, on the
      side they name, and change nothing else in the order of the leaves. */
  lemma SplitsInsertOne<L, N>(c: Cursor<L, N>, x: L)
    ensures SplitLeafAndInsertLeft(c, x).Success? == SplitLeafAndInsertRight(c, x).Success? == c.it.Leaf?
    ensures SplitNodeAndInsertLeft(c, x).Success? == SplitNodeAndInsertRight(c, x).Success? == c.it.Node?
    ensures forall r | r in {SplitLeafAndInsertLeft(c, x), SplitNodeAndInsertLeft(c, x)} && r.Success? ::
              InsertedAt(Leaves(Root(c)), Leaves(Root(r.value)), |LeavesBefore(c.path)|, x)
    ensures forall r | r in {SplitLeafAndInsertRight(c, x), SplitNodeAndInsertRight(c, x)} && r.Success? ::
              InsertedAt(Leaves(Root(c)), Leaves(Root(r.value)), |LeavesBefore(c.path)| + |Leaves(c.it)|, x)
  {
    hide Leaves, Plug, InsertedAt, LeavesBefore;
    InsertBeside(c, x);
  }

  /** Unsplitting takes the leaf under the cursor out of the order, and only it. */
  lemma UnsplitRemovesOne<L, N>(c: Cursor<L, N>)
    ensures UnsplitLeaf(c).Success? <==> c.it.Leaf? && c.path != Top
    ensures UnsplitLeaf(c).Success? ==>
      var (after, l, data) := UnsplitLeaf(c).value;
      && c.it == Leaf(l) && data == c.path.data
      && InsertedAt(Leaves(Root(after)), Leaves(Root(c)), |LeavesBefore(c.path)|, l)
  {
    if UnsplitLeaf(c).Success? {
      var (after, l, data) := UnsplitLeaf(c).value;
      LeavesAround(c.it, c.path);
      LeavesAround(after.it, after.path);
      var a, m, z := LeavesBefore(after.path), Leaves(after.it), LeavesAfter(after.path);
      assert (a + m + z)[..|a|] == a && (a + m + z)[|a|..] == m + z;
      assert (a + m + z)[..|a + m|] == a + m && (a + m + z)[|a + m|..] == z;
    }
  }

  /** Splitting and then unsplitting the new leaf restores the cursor. */
  lemma SplitUnsplit<L, N>(c: Cursor<L, N>, x: L)
    ensures c.it.Leaf? ==>
      && UnsplitLeaf(GoLeft(SplitLeafAndInsertLeft(c, x).value).value) == Success((c, x, None))
      && UnsplitLeaf(GoRight(SplitLeafAndInsertRight(c, x).value).value) == Success((c, x, None))
    ensures c.it.Node? ==>
      && UnsplitLeaf(GoLeft(SplitNodeAndInsertLeft(c, x).value).value) == Success((c, x, None))
      && UnsplitLeaf(GoRight(SplitNodeAndInsertRight(c, x).value).value) == Success((c, x, None))
  {
  }

  // ----- Reachable cursors -----

  datatype Op<L, N> =
    | OpAssignTop(leaf: L)
    | OpAssignNode(value: Option<N>)
    | OpLeft | OpRight | OpUp
    | OpSplitNodeLeft(leaf: L) | OpSplitNodeRight(leaf: L)
    | OpSplitLeafLeft(leaf: L) | OpSplitLeafRight(leaf: L)
    | OpUnsplit
    | OpSetLeaf(leaf: L)

  /** Any operation of the cursor; where it fails it leaves the cursor as it was. */
  function Do<L, N>(c: Cursor<L, N>, op: Op<L, N>): Cursor<L, N> {
    match op
    case OpAssignTop(l) => Where(AssignTop(c, l))
    case OpAssignNode(v) => Where(AssignNode(c, v))
    case OpLeft => Where(GoLeft(c))
    case OpRight => Where(GoRight(c))
    case OpUp => Where(GoUp(c))
    case OpSplitNodeLeft(l) => Where(SplitNodeAndInsertLeft(c, l))
    case OpSplitNodeRight(l) => Where(SplitNodeAndInsertRight(c, l))
    case OpSplitLeafLeft(l) => Where(SplitLeafAndInsertLeft(c, l))
    case OpSplitLeafRight(l) => Where(SplitLeafAndInsertRight(c, l))
    case OpUnsplit => if UnsplitLeaf(c).Success? then UnsplitLeaf(c).value.0 else c
    case OpSetLeaf(l) => if c.it.Leaf? then c.(it := Leaf(l)) else c
  }

  function DoAll<L, N>(c: Cursor<L, N>, ops: seq<Op<L, N>>): Cursor<L, N> {
    if ops == [] then c else Do(DoAll(c, ops[..|ops| - 1]), ops[|ops| - 1])
  }

  /** Whatever is done to an empty cursor, the tree stays proper. */
  lemma {:induction false} ReachableProper<L, N>(ops: seq<Op<L, N>>)
    ensures var c := DoAll(Cursor(Empty, Top), ops); ProperCursor(c) && Proper(Root(c))
  {
    if ops != [] { ReachableProper(ops[..|ops| - 1]); }
    ProperAnywhere(DoAll(Cursor(Empty, Top), ops));
  }

  // ----- Traversals -----

  type Cursors<L, N> = seq<Cursor<L, N>>

  /** The subtree at `path`, every node before its children, left before right. */
  function Pre<L, N>(it: Tree<L, N>, path: Path<L, N>): Cursors<L, N> {
    [Cursor(it, path)] +
    match it
    case Node(left, right, data) =>
      Pre(left, PathLeft(right, data, path)) + Pre(right, PathRight(left, data, path))
    case _ => []
  }

  /** What preorder still has to visit once the subtree at `path` is done. */
  function PreRest<L, N>(it: Tree<L, N>, path: Path<L, N>): Cursors<L, N>
    decreases path
  {
    match path
    case Top => []
    case PathLeft(right, data, up) =>
      Pre(right, PathRight(it, data, up)) + PreRest(Node(it, right, data), up)
    case PathRight(left, data, up) => PreRest(Node(left, it, data), up)
  }

  /** The current node and everything preorder has after it. */
  function PreFrom<L, N>(c: Cursor<L, N>): Cursors<L, N> {
    Pre(c.it, c.path) + PreRest(c.it, c.path)
  }

  /** The subtree at `path`, every node after its children, left before right. */
  function Post<L, N>(it: Tree<L, N>, path: Path<L, N>): Cursors<L, N> {
    (match it
     case Node(left, right, data) =>
       Post(left, PathLeft(right, data, path)) + Post(right, PathRight(left, data, path))
     case _ => [])
    + [Cursor(it, path)]
  }

  /** What postorder has before the subtree at `path`. */
  function PostRest<L, N>(it: Tree<L, N>, path: Path<L, N>): Cursors<L, N>
    decreases path
  {
    match path
    case Top => []
    case PathLeft(right, data, up) => PostRest(Node(it, right, data), up)
    case PathRight(left, data, up) =>
      PostRest(Node(left, it, data), up) + Post(left, PathLeft(it, data, up))
  }

  /** Postorder up to and including the current node. */
  function PostUpTo<L, N>(c: Cursor<L, N>): Cursors<L, N> {
    PostRest(c.it, c.path) + Post(c.it, c.path)
  }

  lemma PreFromLeft<L, N>(it: Tree<L, N>, right: Tree<L, N>, data: Option<N>, up: Path<L, N>)
    ensures PreRest(it, PathLeft(right, data, up)) == PreFrom(Cursor(right, PathRight(it, data, up)))
  {
    assert PreRest(right, PathRight(it, data, up)) == PreRest(Node(it, right, data), up);
  }

  lemma PreFromNode<L, N>(c: Cursor<L, N>)
    requires c.it.Node?
    ensures PreFrom(c) == [c] + PreFrom(GoLeft(c).value)
  {
    var Node(left, right, data) := c.it;
    var l, r := Pre(left, PathLeft(right, data, c.path)), Pre(right, PathRight(left, data, c.path));
    var z := PreRest(c.it, c.path);
    assert Pre(c.it, c.path) == [c] + (l + r);
    assert PreRest(left, PathLeft(right, data, c.path)) == r + z;
    assert [c] + (l + r) + z == [c] + (l + (r + z));
  }

  lemma PostUpToRight<L, N>(it: Tree<L, N>, left: Tree<L, N>, data: Option<N>, up: Path<L, N>)
    ensures PostRest(it, PathRight(left, data, up)) == PostUpTo(Cursor(left, PathLeft(it, data, up)))
  {
    assert PostRest(left, PathLeft(it, data, up)) == PostRest(Node(left, it, data), up);
  }

  lemma PostUpToNode<L, N>(c: Cursor<L, N>)
    requires c.it.Node?
    ensures PostUpTo(c) == PostUpTo(GoRight(c).value) + [c]
  {
    var Node(left, right, data) := c.it;
    var l, r := Post(left, PathLeft(right, data, c.path)), Post(right, PathRight(left, data, c.path));
    var z := PostRest(c.it, c.path);
    assert Post(c.it, c.path) == l + r + [c];
    assert PostRest(right, PathRight(left, data, c.path)) == z + l;
    assert z + (l + r + [c]) == z + l + r + [c];
  }

  lemma FirstAlone<L, N>(c: Cursor<L, N>)
    requires !c.it.Node?
    ensures Pre(c.it, c.path) == [c] && Post(c.it, c.path) == [c]
  {
  }

  lemma FromRoot<L, N>(t: Tree<L, N>)
    ensures PreFrom(Cursor(t, Top)) == Pre(t, Top) && PostUpTo(Cursor(t, Top)) == Post(t, Top)
  {
    assert PreRest(t, Top) == [] && PostRest(t, Top) == [];
  }

  /** `preorder_next`: on to the node that preorder has next, or back to the root
      after the last. */
  method PreorderNext<L, N>(start: Cursor<L, N>) returns (r: Moved<L, N>)
    requires ProperCursor(start)
    ensures r.Success? ==> PreFrom(start) == [start] + PreFrom(r.value) && ProperCursor(r.value)
    ensures r.Failure? ==> PreFrom(start) == [start] && r.error == Cursor(Root(start), Top)
    ensures Root(Where(r)) == Root(start)
  {
    hide Pre;
    var c := start;
    if !c.it.Leaf? {
      MovesKeepTree(c);
      if c.it.Node? { PreFromNode(c); }
      if c.it.Empty? { FirstAlone(c); }
      return GoLeft(c);
    }
    FirstAlone(c);
    if c.path.PathLeft? {
      PreFromLeft(c.it, c.path.right, c.path.data, c.path.up);
      MovesKeepTree(c);
      MovesKeepTree(GoUp(c).value);
      return GoRight(GoUp(c).value);
    }
    while true
      invariant !c.path.PathLeft?
      invariant ProperCursor(c) && Root(c) == Root(start)
      invariant PreRest(c.it, c.path) == PreRest(start.it, start.path)
      decreases c.path
    {
      MovesKeepTree(c);
      match GoUp(c)
      case Failure(top) => return Failure(top);
      case Success(up) => c := up;
      if c.path.Top? { return Failure(c); }
      if c.path.PathLeft? {
        PreFromLeft(c.it, c.path.right, c.path.data, c.path.up);
        MovesKeepTree(c);
        MovesKeepTree(GoUp(c).value);
        ProperAnywhere(start);
        ProperAnywhere(GoRight(GoUp(c).value).value);
        return GoRight(GoUp(c).value);
      }
    }
  }

  /** `postorder_next`: back to the node that postorder has before this one, or to
      the root before the first. */
  method PostorderNext<L, N>(start: Cursor<L, N>) returns (r: Moved<L, N>)
    requires ProperCursor(start)
    ensures r.Success? ==> PostUpTo(start) == PostUpTo(r.value) + [start] && ProperCursor(r.value)
    ensures r.Failure? ==> PostUpTo(start) == [start] && r.error == Cursor(Root(start), Top)
    ensures Root(Where(r)) == Root(start)
  {
    hide Post;
    var c := start;
    if !c.it.Leaf? {
      MovesKeepTree(c);
      if c.it.Node? { PostUpToNode(c); }
      if c.it.Empty? { FirstAlone(c); }
      return GoRight(c);
    }
    FirstAlone(c);
    if c.path.PathRight? {
      PostUpToRight(c.it, c.path.left, c.path.data, c.path.up);
      MovesKeepTree(c);
      MovesKeepTree(GoUp(c).value);
      return GoLeft(GoUp(c).value);
    }
    while true
      invariant !c.path.PathRight?
      invariant ProperCursor(c) && Root(c) == Root(start)
      invariant PostRest(c.it, c.path) == PostRest(start.it, start.path)
      decreases c.path
    {
      MovesKeepTree(c);
      match GoUp(c)
      case Failure(top) => return Failure(top);
      case Success(up) => c := up;
      if c.path.Top? { return Failure(c); }
      if c.path.PathRight? {
        PostUpToRight(c.it, c.path.left, c.path.data, c.path.up);
        MovesKeepTree(c);
        MovesKeepTree(GoUp(c).value);
        ProperAnywhere(start);
        ProperAnywhere(GoLeft(GoUp(c).value).value);
        return GoLeft(GoUp(c).value);
      }
    }
  }

  // ----- Every node once -----

  function Depth<L, N>(path: Path<L, N>): nat {
    if path == Top then 0 else 1 + Depth(path.up)
  }

  /** `base` is `path` or one of the positions above it. */
  predicate Under<L(==), N(==)>(path: Path<L, N>, base: Path<L, N>) {
    path == base || (path != Top && Under(path.up, base))
  }

  lemma {:induction false} UnderDeeper<L, N>(path: Path<L, N>, base: Path<L, N>)
    requires Under(path, base)
    ensures Depth(path) >= Depth(base)
    ensures Depth(path) == Depth(base) ==> path == base
    ensures base != Top ==> Under(path, base.up)
  {
    if path != base { UnderDeeper(path.up, base); }
  }

  lemma {:induction false} OneAbove<L, N>(path: Path<L, N>, a: Path<L, N>, b: Path<L, N>)
    requires Under(path, a) && Under(path, b) && Depth(a) == Depth(b)
    ensures a == b
  {
    if path == a { UnderDeeper(path, b); }
    else if path == b { UnderDeeper(path, a); }
    else { OneAbove(path.up, a, b); }
  }

  predicate Distinct<T(==)>(s: seq<T>) {
    forall i, j :: 0 <= i < j < |s| ==> s[i] != s[j]
  }

  /** The subtree's preorder stays below `path`, in the same tree. */
  lemma {:induction false} PreInTree<L, N>(it: Tree<L, N>, path: Path<L, N>, c: Cursor<L, N>)
    requires c in Pre(it, path)
    ensures Under(c.path, path) && Root(c) == Plug(it, path)
    ensures c.path == path ==> c.it == it
  {
    match it
    case Node(left, right, data) =>
      if c != Cursor(it, path) {
        if c in Pre(left, PathLeft(right, data, path)) {
          PreInTree(left, PathLeft(right, data, path), c);
          UnderDeeper(c.path, PathLeft(right, data, path));
        } else {
          PreInTree(right, PathRight(left, data, path), c);
          UnderDeeper(c.path, PathRight(left, data, path));
        }
      }
    case _ =>
  }

  lemma {:induction false} PreDistinct<L, N>(it: Tree<L, N>, path: Path<L, N>)
    ensures Distinct(Pre(it, path))
  {
    match it
    case Node(left, right, data) =>
      var pl, pr := PathLeft(right, data, path), PathRight(left, data, path);
      var l, r := Pre(left, pl), Pre(right, pr);
      PreDistinct(left, pl);
      PreDistinct(right, pr);
      forall c | c in l ensures c != Cursor(it, path) && c !in r {
        PreInTree(left, pl, c);
        UnderDeeper(c.path, pl);
        if c in r { PreInTree(right, pr, c); OneAbove(c.path, pl, pr); }
      }
      forall c | c in r ensures c != Cursor(it, path) {
        PreInTree(right, pr, c);
        UnderDeeper(c.path, pr);
      }
      ThreeDistinct(Cursor(it, path), l, r);
    case _ =>
  }

  lemma ThreeDistinct<T>(x: T, l: seq<T>, r: seq<T>)
    requires Distinct(l) && Distinct(r) && x !in l && x !in r
    requires forall c :: c in l ==> c !in r
    ensures Distinct([x] + (l + r))
  {
    var s := [x] + (l + r);
    forall i, j | 0 <= i < j < |s| ensures s[i] != s[j] {
      assert j <= |l| ==> s[j] == l[j - 1] && s[j] in l;
      assert j > |l| ==> s[j] == r[j - 1 - |l|] && s[j] in r;
      assert 1 <= i <= |l| ==> s[i] == l[i - 1] && s[i] in l;
      assert i > |l| ==> s[i] == r[i - 1 - |l|];
    }
  }

  lemma {:induction false} PreHasBelow<L, N>(it: Tree<L, N>, path: Path<L, N>, c: Cursor<L, N>)
    requires c in Pre(it, path)
    ensures c in Pre(Plug(it, path), Top)
    decreases path
  {
    match path
    case Top =>
    case PathLeft(right, data, up) => PreHasBelow(Node(it, right, data), up, c);
    case PathRight(left, data, up) => PreHasBelow(Node(left, it, data), up, c);
  }

  /** Preorder from the root has every position of the tree, and each one once. */
  lemma PreorderIsAll<L, N>(t: Tree<L, N>, c: Cursor<L, N>)
    ensures c in Pre(t, Top) <==> Root(c) == t
    ensures Distinct(Pre(t, Top))
  {
    if c in Pre(t, Top) { PreInTree(t, Top, c); }
    if Root(c) == t { PreHasBelow(c.it, c.path, c); }
    PreDistinct(t, Top);
  }

  lemma SameParts<T>(c: seq<T>, l: seq<T>, r: seq<T>, l': seq<T>, r': seq<T>)
    requires multiset(l) == multiset(l') && multiset(r) == multiset(r')
    ensures multiset(c + (l + r)) == multiset(l' + r' + c)
  {
  }

  /** Postorder has the same positions, as often. */
  lemma {:induction false} PostorderSameNodes<L, N>(it: Tree<L, N>, path: Path<L, N>)
    ensures multiset(Post(it, path)) == multiset(Pre(it, path))
  {
    match it
    case Node(left, right, data) =>
      var pl, pr := PathLeft(right, data, path), PathRight(left, data, path);
      PostorderSameNodes(left, pl);
      PostorderSameNodes(right, pr);
      SameParts([Cursor(it, path)], Pre(left, pl), Pre(right, pr), Post(left, pl), Post(right, pr));
    case _ =>
  }

  /** Iterating `preorder_next` from the root until it fails: every node once, in
      preorder. The cursor ends at the root of the same tree. */
  method PreorderWalk<L, N>(t: Tree<L, N>) returns (visited: Cursors<L, N>, last: Cursor<L, N>)
    requires Proper(t)
    ensures visited == Pre(t, Top) && last == Cursor(t, Top)
  {
    hide Pre, PreRest;
    last := Cursor(t, Top);
    visited := [];
    FromRoot(t);
    while true
      invariant ProperCursor(last) && Root(last) == t
      invariant visited + PreFrom(last) == Pre(t, Top)
      decreases |PreFrom(last)|
    {
      visited := visited + [last];
      var r := PreorderNext(last);
      match r
      case Failure(top) => last := top; return;
      case Success(next) => last := next;
    }
  }

  /** Iterating `postorder_next` from the root until it fails: every node once, in
      the reverse of postorder. */
  method PostorderWalk<L, N>(t: Tree<L, N>) returns (visited: Cursors<L, N>, last: Cursor<L, N>)
    requires Proper(t)
    ensures |visited| == |Post(t, Top)| && last == Cursor(t, Top)
    ensures forall k :: 0 <= k < |visited| ==> visited[k] == Post(t, Top)[|visited| - 1 - k]
  {
    hide Post, PostRest;
    last := Cursor(t, Top);
    visited := [];
    ghost var all := Post(t, Top);
    FromRoot(t);
    while true
      invariant ProperCursor(last) && Root(last) == t
      invariant |visited| + |PostUpTo(last)| == |all|
      invariant PostUpTo(last) == all[..|PostUpTo(last)|]
      invariant forall k :: 0 <= k < |visited| ==> visited[k] == all[|all| - 1 - k]
      decreases |PostUpTo(last)|
    {
      visited := visited + [last];
      var r := PostorderNext(last);
      ghost var n := |PostUpTo(last)|;
      assert PostUpTo(last)[n - 1] == last;
      match r
      case Failure(top) => last := top; return;
      case Success(next) =>
        assert PostUpTo(next) == PostUpTo(last)[..n - 1];
        last := next;
    }
  }

  // ----- The nth leaf -----

  /** The leaves at or after the cursor. */
  function LeavesFrom<L, N>(c: Cursor<L, N>): seq<L> {
    Leaves(c.it) + LeavesAfter(c.path)
  }

  function LeavesIn<L, N>(cs: Cursors<L, N>): seq<L> {
    if cs == [] then []
    else (if cs[0].it.Leaf? then [cs[0].it.leaf] else []) + LeavesIn(cs[1..])
  }

  lemma LeavesInNext<L, N>(cs: Cursors<L, N>)
    requires cs != []
    ensures LeavesIn(cs) == LeavesIn([cs[0]]) + LeavesIn(cs[1..])
  {
    assert LeavesIn([cs[0]][1..]) == [];
  }

  lemma {:induction false} LeavesInConcat<L, N>(a: Cursors<L, N>, b: Cursors<L, N>)
    ensures LeavesIn(a + b) == LeavesIn(a) + LeavesIn(b)
  {
    if a == [] {
      assert a + b == b;
    } else {
      var head, x, y := LeavesIn([a[0]]), LeavesIn(a[1..]), LeavesIn(b);
      LeavesInNext(a);
      LeavesInNext(a + b);
      hide LeavesIn;
      assert (a + b)[0] == a[0] && (a + b)[1..] == a[1..] + b;
      LeavesInConcat(a[1..], b);
      assert head + (x + y) == (head + x) + y;
    }
  }

  lemma {:induction false} LeavesInPre<L, N>(it: Tree<L, N>, path: Path<L, N>)
    ensures LeavesIn(Pre(it, path)) == Leaves(it)
  {
    match it
    case Node(left, right, data) =>
      var l, r := Pre(left, PathLeft(right, data, path)), Pre(right, PathRight(left, data, path));
      LeavesInPre(left, PathLeft(right, data, path));
      LeavesInPre(right, PathRight(left, data, path));
      LeavesInConcat(l, r);
      assert Pre(it, path)[1..] == l + r;
    case _ =>
      assert Pre(it, path)[1..] == [];
  }

  lemma {:induction false} LeavesInRest<L, N>(it: Tree<L, N>, path: Path<L, N>)
    ensures LeavesIn(PreRest(it, path)) == LeavesAfter(path)
    decreases path
  {
    match path
    case Top =>
    case PathLeft(right, data, up) =>
      LeavesInPre(right, PathRight(it, data, up));
      LeavesInRest(Node(it, right, data), up);
      LeavesInConcat(Pre(right, PathRight(it, data, up)), PreRest(Node(it, right, data), up));
    case PathRight(left, data, up) => LeavesInRest(Node(left, it, data), up);
  }

  lemma LeavesInFrom<L, N>(c: Cursor<L, N>)
    ensures LeavesIn(PreFrom(c)) == LeavesFrom(c)
  {
    LeavesInPre(c.it, c.path);
    LeavesInRest(c.it, c.path);
    LeavesInConcat(Pre(c.it, c.path), PreRest(c.it, c.path));
  }

  /** `go_to_nth_leaf`: the leaf that has `n` leaves between the start and itself, or
      the root when the tree has not that many. */
  method GoToNthLeaf<L, N>(start: Cursor<L, N>, n: nat) returns (r: Moved<L, N>)
    requires ProperCursor(start)
    ensures r.Success? <==> n < |LeavesFrom(start)|
    ensures r.Success? ==> r.value.it == Leaf(LeavesFrom(start)[n]) && LeavesFrom(r.value) == LeavesFrom(start)[n..]
    ensures r.Failure? ==> r.error == Cursor(Root(start), Top)
    ensures Root(Where(r)) == Root(start)
  {
    hide Pre, PreRest, PreFrom, Leaves, LeavesAfter;
    var c := start;
    var next := 0;
    while true
      invariant ProperCursor(c) && Root(c) == Root(start)
      invariant next <= n && next <= |LeavesFrom(start)|
      invariant LeavesFrom(c) == LeavesFrom(start)[next..]
      decreases |PreFrom(c)|
    {
      LeavesInFrom(c);
      if c.it.Leaf? {
        LeafFirst(c);
        if next == n { return Success(c); }
        next := next + 1;
      }
      ghost var was := c;
      var m := PreorderNext(c);
      match m
      case Failure(top) => assert LeavesIn([was][1..]) == []; return Failure(top);
      case Success(to) =>
        LeavesInFrom(to);
        assert ([was] + PreFrom(to))[1..] == PreFrom(to);
        c := to;
    }
  }

  lemma LeafFirst<L, N>(c: Cursor<L, N>)
    requires c.it.Leaf?
    ensures |LeavesFrom(c)| > 0 && LeavesFrom(c)[0] == c.it.leaf
  {
  }

  /** From the root it is the nth leaf of the tree, with n leaves to its left. */
  lemma NthLeafFromRoot<L, N>(t: Tree<L, N>, c: Cursor<L, N>, n: nat)
    requires n < NumLeaves(t) && Root(c) == t
    requires LeavesFrom(c) == LeavesFrom(Cursor(t, Top))[n..]
    ensures |LeavesBefore(c.path)| == n
    ensures LeavesFrom(Cursor(t, Top)) == Leaves(t) && LeavesBefore(c.path) == Leaves(t)[..n]
  {
    var l, whole := LeavesBefore(c.path), LeavesFrom(Cursor(t, Top));
    assert Leaves(t) == l + LeavesFrom(c) by {
      LeavesAround(c.it, c.path);
      assert l + Leaves(c.it) + LeavesAfter(c.path) == l + LeavesFrom(c);
    }
    assert whole == Leaves(t);
    hide *;
    assert |whole| - n == |LeavesFrom(c)|;
    assert whole == l + whole[n..];
  }
}
