/** The two orders of a tree by where the positions stand to each other. */
module TreeOrders {
  import opened Wrappers
  import opened Bintree

  datatype Turn = ToLeft | ToRight

  /** The way from the root to a position. */
  function Turns<L, N>(path: Path<L, N>): seq<Turn> {
    match path
    case Top => []
    case PathLeft(_, _, up) => Turns(up) + [ToLeft]
    case PathRight(_, _, up) => Turns(up) + [ToRight]
  }

  /** Where the two ways part, the first goes left and the second right. */
  ghost predicate Parted(s: seq<Turn>, t: seq<Turn>) {
    exists k :: 0 <= k < |s| && k < |t| && s[..k] == t[..k] && s[k] == ToLeft && t[k] == ToRight
  }

  ghost predicate LeftOf<L, N>(a: Path<L, N>, b: Path<L, N>) {
    Parted(Turns(a), Turns(b))
  }

  /** The way to `a` goes on from `b`. */
  predicate Below<L, N>(a: Path<L, N>, b: Path<L, N>) {
    Turns(b) < Turns(a)
  }

  lemma {:induction false} UnderTurns<L, N>(path: Path<L, N>, base: Path<L, N>)
    requires Under(path, base)
    ensures Turns(base) <= Turns(path)
  {
    if path != base { UnderTurns(path.up, base); }
  }

  ghost predicate InPreorder<L, N>(s: seq<Cursor<L, N>>) {
    forall i, j :: 0 <= i < j < |s| ==> Below(s[j].path, s[i].path) || LeftOf(s[i].path, s[j].path)
  }

  ghost predicate InPostorder<L, N>(s: seq<Cursor<L, N>>) {
    forall i, j :: 0 <= i < j < |s| ==> Below(s[i].path, s[j].path) || LeftOf(s[i].path, s[j].path)
  }

  lemma FromPart<T>(p: seq<T>, q: seq<T>, i: nat)
    requires i < |p| + |q|
    ensures if i < |p| then (p + q)[i] == p[i] && p[i] in p else (p + q)[i] == q[i - |p|] && q[i - |p|] in q
  {
  }

  /** Two parts in order, each of the first before each of the second. */
  lemma PreorderJoin<L, N>(p: seq<Cursor<L, N>>, q: seq<Cursor<L, N>>)
    requires InPreorder(p) && InPreorder(q)
    requires forall a, b :: a in p && b in q ==> Below(b.path, a.path) || LeftOf(a.path, b.path)
    ensures InPreorder(p + q)
  {
    hide Below, LeftOf;
    forall i, j | 0 <= i < j < |p + q|
      ensures Below((p + q)[j].path, (p + q)[i].path) || LeftOf((p + q)[i].path, (p + q)[j].path)
    {
      FromPart(p, q, i);
      FromPart(p, q, j);
    }
  }

  lemma PostorderJoin<L, N>(p: seq<Cursor<L, N>>, q: seq<Cursor<L, N>>)
    requires InPostorder(p) && InPostorder(q)
    requires forall a, b :: a in p && b in q ==> Below(a.path, b.path) || LeftOf(a.path, b.path)
    ensures InPostorder(p + q)
  {
    hide Below, LeftOf;
    forall i, j | 0 <= i < j < |p + q|
      ensures Below((p + q)[i].path, (p + q)[j].path) || LeftOf((p + q)[i].path, (p + q)[j].path)
    {
      FromPart(p, q, i);
      FromPart(p, q, j);
    }
  }

  /** The two subtrees of a node. */
  lemma Sides<L, N>(left: Tree<L, N>, right: Tree<L, N>, data: Option<N>, path: Path<L, N>, a: Cursor<L, N>, b: Cursor<L, N>)
    requires a in Pre(left, PathLeft(right, data, path)) && b in Pre(right, PathRight(left, data, path))
    ensures LeftOf(a.path, b.path)
  {
    PreInTree(left, PathLeft(right, data, path), a);
    PreInTree(right, PathRight(left, data, path), b);
    UnderTurns(a.path, PathLeft(right, data, path));
    UnderTurns(b.path, PathRight(left, data, path));
    var k, s, t := |Turns(path)|, Turns(a.path), Turns(b.path);
    assert s[..k] == t[..k] && s[k] == ToLeft && t[k] == ToRight;
  }

  lemma BelowNode<L, N>(it: Tree<L, N>, child: Path<L, N>, path: Path<L, N>, a: Cursor<L, N>)
    requires a in Pre(it, child) && child != Top && child.up == path
    ensures Below(a.path, path)
  {
    PreInTree(it, child, a);
    UnderTurns(a.path, child);
  }

  /** In preorder a position comes before everything below it, and left comes before right. */
  lemma {:induction false} PreOrdered<L, N>(it: Tree<L, N>, path: Path<L, N>)
    ensures InPreorder(Pre(it, path))
  {
    hide Below, LeftOf, InPreorder;
    match it
    case Node(left, right, data) =>
      var pl, pr := PathLeft(right, data, path), PathRight(left, data, path);
      var l, r := Pre(left, pl), Pre(right, pr);
      PreOrdered(left, pl);
      PreOrdered(right, pr);
      forall a, b | a in l && b in r ensures LeftOf(a.path, b.path) { Sides(left, right, data, path, a, b); }
      PreorderJoin(l, r);
      forall b | b in l + r ensures Below(b.path, path) {
        if b in l { BelowNode(left, pl, path, b); } else { BelowNode(right, pr, path, b); }
      }
      Alone(Cursor(it, path));
      PreorderJoin([Cursor(it, path)], l + r);
    case _ =>
      FirstAlone(Cursor(it, path));
      Alone(Cursor(it, path));
  }

  lemma Alone<L, N>(c: Cursor<L, N>)
    ensures InPreorder([c]) && InPostorder([c])
  {
  }

  lemma InBoth<L, N>(it: Tree<L, N>, path: Path<L, N>, c: Cursor<L, N>)
    ensures c in Post(it, path) <==> c in Pre(it, path)
  {
    PostorderSameNodes(it, path);
    hide Pre, Post;
    assert c in Post(it, path) <==> c in multiset(Post(it, path));
    assert c in Pre(it, path) <==> c in multiset(Pre(it, path));
  }

  /** In postorder a position comes after everything below it, and left comes before right. */
  lemma {:induction false} PostOrdered<L, N>(it: Tree<L, N>, path: Path<L, N>)
    ensures InPostorder(Post(it, path))
  {
    hide Below, LeftOf, InPostorder;
    match it
    case Node(left, right, data) =>
      var pl, pr := PathLeft(right, data, path), PathRight(left, data, path);
      var l, r := Post(left, pl), Post(right, pr);
      PostOrdered(left, pl);
      PostOrdered(right, pr);
      forall a, b | a in l && b in r ensures LeftOf(a.path, b.path) {
        InBoth(left, pl, a);
        InBoth(right, pr, b);
        Sides(left, right, data, path, a, b);
      }
      PostorderJoin(l, r);
      forall a | a in l + r ensures Below(a.path, path) {
        InBoth(left, pl, a);
        InBoth(right, pr, a);
        if a in l { BelowNode(left, pl, path, a); } else { BelowNode(right, pr, path, a); }
      }
      Alone(Cursor(it, path));
      PostorderJoin(l + r, [Cursor(it, path)]);
    case _ =>
      FirstAlone(Cursor(it, path));
      Alone(Cursor(it, path));
  }
}
