/** rb_insert_color (src/kernel/lib/rbtree.c): after a red leaf was linked. */
module RbInsert {
  import opened Prelude
  import opened RbNodes
  import opened RbRotate
  import opened RbBalance

  /** The in-order walk of the whole tree, seen from the hole. */
  ghost function Line(c: Path, t: Tree): seq<Task> { Before(c) + Walk(t) + After(c) }

  ghost function All(c: Path, t: Tree): set<Task> { Nodes(t) + PathNodes(c) }

  /** A red subtree under a path: all the rules hold but for its own root. */
  ghost predicate RedAtHole(c: Path, t: Tree) {
    t.Branch? && !t.black && Fair(t) && FairPath(c, Height(t))
  }

  /** Case 1: parent and uncle turn black, the grandparent turns red. */
  method PushRedUp(parent: Task, uncle: Task, gparent: Task, root: Root, ghost c: Path, ghost t: Tree)
    requires Placed(c, t, gparent, root) && t.Branch? && t.l.Branch? && t.r.Branch?
    requires (gparent.left == parent && gparent.right == uncle) || (gparent.left == uncle && gparent.right == parent)
    modifies {parent, uncle, gparent}`black
    ensures Placed(c, Branch(Branch(t.l.l, t.l.x, true, t.l.r), t.x, false, Branch(t.r.l, t.r.x, true, t.r.r)),
                   gparent, root)
  {
    FocusLeft(c, t, gparent, root);
    var left, right := gparent.left, gparent.right;
    SetColor(left, true, root, LeftOf(c, t), t.l);
    ghost var l1 := Branch(t.l.l, left, true, t.l.r);
    FocusUp(LeftOf(c, t), l1, left, root);
    ghost var t1 := Branch(l1, t.x, t.black, t.r);
    FocusRight(c, t1, gparent, root);
    SetColor(right, true, root, RightOf(c, t1), t.r);
    ghost var r1 := Branch(t.r.l, right, true, t.r.r);
    FocusUp(RightOf(c, t1), r1, right, root);
    SetColor(gparent, false, root, c, Branch(l1, t.x, t.black, r1));
  }

  /** The subtree at the grandparent. */
  ghost function Clan(c: Path, t: Tree): Tree
    requires !c.Top? && !c.up.Top?
  {
    Up(c.up, Up(c, t))
  }

  /** t2 can stand for the grandparent's subtree: the same nodes in the same order
      and height, with a black top if done and a red one otherwise. */
  ghost predicate Settles(c: Path, t: Tree, t2: Tree, done: bool)
    requires !c.Top? && !c.up.Top?
  {
    && t2.Branch? && Walk(t2) == Walk(Clan(c, t)) && Nodes(t2) == Nodes(Clan(c, t))
    && Fair(t2) && Height(t2) == Height(Clan(c, t)) && (t2.black <==> done)
  }

  /** The shape after cases 2 and 3: the middle one of node, parent and
      grandparent is on top, black, over the other two, red. */
  ghost function Balanced(c: Path, t: Tree): Tree
    requires t.Branch? && !c.Top? && !c.up.Top?
  {
    if c.up.GoLeft? then
      if c.GoLeft? then Branch(t, c.x, true, Branch(c.sib, c.up.x, false, c.up.sib))
      else Branch(Branch(c.sib, c.x, false, t.l), t.x, true, Branch(t.r, c.up.x, false, c.up.sib))
    else
      if c.GoRight? then Branch(Branch(c.up.sib, c.up.x, false, c.sib), c.x, true, t)
      else Branch(Branch(c.up.sib, c.up.x, false, t.l), t.x, true, Branch(t.r, c.x, false, c.sib))
  }

  lemma WalkOf(l: Tree, x: Task, b: bool, r: Tree)
    ensures Walk(Branch(l, x, b, r)) == Walk(l) + [x] + Walk(r)
  {
  }

  lemma Regroup<A>(a: seq<A>, p: A, b: seq<A>, x: A, d: seq<A>)
    ensures (a + [p] + b) + [x] + d == a + [p] + (b + [x] + d)
  {
  }

  /** Rotating two nodes leaves the order alone. */
  lemma RotationWalk(a: Tree, p: Task, pb: bool, pb2: bool, b: Tree, x: Task, xb: bool, xb2: bool, d: Tree)
    ensures Walk(Branch(Branch(a, p, pb, b), x, xb, d)) == Walk(Branch(a, p, pb2, Branch(b, x, xb2, d)))
  {
    WalkOf(Branch(a, p, pb, b), x, xb, d);
    WalkOf(a, p, pb2, Branch(b, x, xb2, d));
    Regroup(Walk(a), p, Walk(b), x, Walk(d));
  }

  lemma BalancedWalk(c: Path, t: Tree)
    requires t.Branch? && !c.Top? && !c.up.Top?
    ensures Walk(Balanced(c, t)) == Walk(Clan(c, t))
  {
    var g, u, p, s := c.up.x, c.up.sib, c.x, c.sib;
    if c.up.GoLeft? && c.GoLeft? {
      RotationWalk(t, p, c.black, true, s, g, c.up.black, false, u);
    } else if c.up.GoLeft? {
      RotationWalk(s, p, false, c.black, t.l, t.x, true, t.black, t.r);
      RotationWalk(Branch(s, p, false, t.l), t.x, true, true, t.r, g, c.up.black, false, u);
    } else if c.GoRight? {
      RotationWalk(u, g, false, c.up.black, s, p, true, c.black, t);
    } else {
      RotationWalk(t.l, t.x, t.black, true, t.r, p, c.black, false, s);
      RotationWalk(u, g, false, c.up.black, t.l, t.x, true, true, Branch(t.r, p, false, s));
    }
  }

  lemma BalancedNodes(c: Path, t: Tree)
    requires t.Branch? && !c.Top? && !c.up.Top?
    ensures Nodes(Balanced(c, t)) == Nodes(Clan(c, t))
  {
    var b := Balanced(c, t);
    assert Nodes(b) == Nodes(b.l) + {b.x} + Nodes(b.r);
    assert Nodes(Clan(c, t)) == Nodes(Up(c, t)) + {c.up.x} + Nodes(c.up.sib);
    assert Nodes(Up(c, t)) == Nodes(t) + {c.x} + Nodes(c.sib);
    assert Nodes(t) == Nodes(t.l) + {t.x} + Nodes(t.r);
  }

  lemma BalancedSettles(c: Path, t: Tree)
    requires RedAtHole(c, t) && !c.Top? && !c.black && Black(c.up.sib)
    ensures Settles(c, t, Balanced(c, t), true)
  {
    BalancedWalk(c, t);
    BalancedNodes(c, t);
    BalancedFair(c, t);
  }

  lemma BalancedFair(c: Path, t: Tree)
    requires RedAtHole(c, t) && !c.Top? && !c.black && Black(c.up.sib)
    ensures Fair(Balanced(c, t)) && Height(Balanced(c, t)) == Height(Clan(c, t))
  {
    assert FairPath(c.up, Height(t));
    assert Fair(c.sib) && Fair(c.up.sib) && Height(c.sib) == Height(t) && Height(c.up.sib) == Height(t);
  }

  /** The shape after case 1. */
  ghost function Recolored(c: Path, t: Tree): Tree
    requires !c.Top? && !c.up.Top? && c.up.sib.Branch?
  {
    var p := Up(c, t);
    var p1 := Branch(p.l, p.x, true, p.r);
    var u1 := Branch(c.up.sib.l, c.up.sib.x, true, c.up.sib.r);
    if c.up.GoLeft? then Branch(p1, c.up.x, false, u1) else Branch(u1, c.up.x, false, p1)
  }

  lemma RecoloredOrder(c: Path, t: Tree)
    requires !c.Top? && !c.up.Top? && c.up.sib.Branch?
    ensures Walk(Recolored(c, t)) == Walk(Clan(c, t)) && Nodes(Recolored(c, t)) == Nodes(Clan(c, t))
  {
    var b := Recolored(c, t);
    assert Walk(b) == Walk(b.l) + [b.x] + Walk(b.r) && Nodes(b) == Nodes(b.l) + {b.x} + Nodes(b.r);
  }

  lemma RecoloredSettles(c: Path, t: Tree)
    requires RedAtHole(c, t) && !c.Top? && !c.black && !Black(c.up.sib)
    ensures Settles(c, t, Recolored(c, t), false)
  {
    RecoloredOrder(c, t);
    RecoloredFair(c, t);
  }

  lemma RecoloredFair(c: Path, t: Tree)
    requires RedAtHole(c, t) && !c.Top? && !c.black && !Black(c.up.sib)
    ensures Fair(Recolored(c, t)) && Height(Recolored(c, t)) == Height(Clan(c, t))
  {
    assert FairPath(c.up, Height(t));
    assert Fair(c.sib) && Fair(c.up.sib) && Height(c.sib) == Height(t) && Height(c.up.sib) == Height(t);
  }

  /** Cases 2 and 3 with the parent on the left: at most one rotation brings the
      red pair in line, then the grandparent is rotated down. */
  method RotateRedsRight(node: Task, parent: Task, gparent: Task, root: Root, ghost c: Path, ghost t: Tree)
    returns (top: Task)
    requires Placed(c, t, node, root) && t.Branch?
    requires !c.Top? && c.x == parent && c.up.GoLeft? && c.up.x == gparent
    requires !c.black && !t.black
    modifies Nodes(Clan(c, t))`left, Nodes(Clan(c, t))`right, Nodes(Clan(c, t))`parent, Nodes(Clan(c, t))`black,
             PathNodes(c.up.up)`left, PathNodes(c.up.up)`right, root`node
    ensures Placed(c.up.up, Balanced(c, t), top, root)
  {
    FocusUp(c, t, node, root);
    ghost var p := Up(c, t);
    var par := parent;
    if node == parent.right {
      assert c.GoRight?;
      RotateLeft(parent, root, c.up, p);
      p := Branch(Branch(p.l, p.x, p.black, p.r.l), p.r.x, p.r.black, p.r.r);
      par := node;
    }
    SetColor(par, true, root, c.up, p);
    p := Branch(p.l, par, true, p.r);
    FocusUp(c.up, p, par, root);
    ghost var g := Up(c.up, p);
    SetColor(gparent, false, root, c.up.up, g);
    g := Branch(g.l, gparent, false, g.r);
    RotateRight(gparent, root, c.up.up, g);
    top := par;
  }

  /** Cases 2 and 3 with the parent on the right. */
  method RotateRedsLeft(node: Task, parent: Task, gparent: Task, root: Root, ghost c: Path, ghost t: Tree)
    returns (top: Task)
    requires Placed(c, t, node, root) && t.Branch?
    requires !c.Top? && c.x == parent && c.up.GoRight? && c.up.x == gparent
    requires !c.black && !t.black
    modifies Nodes(Clan(c, t))`left, Nodes(Clan(c, t))`right, Nodes(Clan(c, t))`parent, Nodes(Clan(c, t))`black,
             PathNodes(c.up.up)`left, PathNodes(c.up.up)`right, root`node
    ensures Placed(c.up.up, Balanced(c, t), top, root)
  {
    FocusUp(c, t, node, root);
    ghost var p := Up(c, t);
    var par := parent;
    if node == parent.left {
      assert c.GoLeft?;
      RotateRight(parent, root, c.up, p);
      p := Branch(p.l.l, p.l.x, p.l.black, Branch(p.l.r, p.x, p.black, p.r));
      par := node;
    }
    SetColor(par, true, root, c.up, p);
    p := Branch(p.l, par, true, p.r);
    FocusUp(c.up, p, par, root);
    ghost var g := Up(c.up, p);
    SetColor(gparent, false, root, c.up.up, g);
    g := Branch(g.l, gparent, false, g.r);
    RotateLeft(gparent, root, c.up.up, g);
    top := par;
  }

  lemma LineUp(c: Path, t: Tree)
    requires !c.Top?
    ensures Line(c.up, Up(c, t)) == Line(c, t) && All(c.up, Up(c, t)) == All(c, t)
  {
  }

  /** One round: the parent is red, so it has a (black) parent of its own. */
  method FixRound(node: Task, parent: Task, root: Root, ghost c: Path, ghost t: Tree)
    returns (top: Task, done: bool, ghost t2: Tree)
    requires Placed(c, t, node, root) && RedAtHole(c, t)
    requires !c.Top? && !c.black && c.x == parent
    modifies All(c, t)`left, All(c, t)`right, All(c, t)`parent, All(c, t)`black, root`node
    ensures Placed(c.up.up, t2, top, root) && Settles(c, t, t2, done)
    ensures All(c.up.up, t2) == All(c, t) && Line(c.up.up, t2) == Line(c, t)
  {
    LineUp(c, t);
    LineUp(c.up, Up(c, t));
    FocusUp(c, t, node, root);
    var gparent := parent.parent;
    var uncle := if parent == gparent.left then gparent.right else gparent.left;
    if uncle != null && !uncle.black {
      RecoloredSettles(c, t);
      FocusUp(c.up, Up(c, t), parent, root);
      PushRedUp(parent, uncle, gparent, root, c.up.up, Clan(c, t));
      return gparent, false, Recolored(c, t);
    }
    BalancedSettles(c, t);
    if parent == gparent.left {
      top := RotateRedsRight(node, parent, gparent, root, c, t);
    } else {
      top := RotateRedsLeft(node, parent, gparent, root, c, t);
    }
    return top, true, Balanced(c, t);
  }

  /** root holds the red-black tree of shape t. */
  ghost predicate Rooted(t: Tree, root: Root)
    reads Nodes(t), root
  {
    At(t, root.node, null) && Distinct(t) && RedBlack(t)
  }

  lemma FocusTop(c: Path, t: Tree, n: Task?, root: Root)
    requires Placed(c, t, n, root)
    ensures Placed(Top, Plug(c, t), root.node, root)
    ensures Walk(Plug(c, t)) == Line(c, t) && Nodes(Plug(c, t)) == All(c, t)
  {
    PlugAt(c, t, root);
    PlugDistinct(c, t);
    PlugWalk(c, t);
    PlugNodes(c, t);
  }

  /** A tree whose only offence is a red root. */
  lemma {:induction false} PlugNearlyRedBlack(c: Path, t: Tree)
    requires Fair(t) && FairPath(c, Height(t)) && (Black(t) || BlackBottom(c) || c.Top?)
    ensures Fair(Plug(c, t))
  {
    if !c.Top? {
      PlugNearlyRedBlack(c.up, Up(c, t));
    }
  }

  /** The body of the loop below. */
  method Round(node: Task, root: Root, ghost c: Path, ghost t: Tree) returns (top: Task, done: bool, ghost t2: Tree)
    requires Placed(c, t, node, root) && RedAtHole(c, t) && node.parent != null && !node.parent.black
    modifies All(c, t)`left, All(c, t)`right, All(c, t)`parent, All(c, t)`black, root`node
    ensures !c.Top? && !c.up.Top? && Placed(c.up.up, t2, top, root)
    ensures t2.Branch? && Fair(t2) && FairPath(c.up.up, Height(t2)) && (t2.black <==> done)
    ensures All(c.up.up, t2) == All(c, t) && Line(c.up.up, t2) == Line(c, t)
  {
    top, done, t2 := FixRound(node, node.parent, root, c, t);
    assert FairPath(c.up, Height(Up(c, t)));
  }

  /** rb_insert_color: node has just been linked, red, where path c leads. */
  method InsertColor(node0: Task, root: Root, ghost c0: Path, ghost t0: Tree) returns (ghost t: Tree)
    requires Placed(c0, t0, node0, root) && RedAtHole(c0, t0)
    modifies All(c0, t0)`left, All(c0, t0)`right, All(c0, t0)`parent, All(c0, t0)`black, root`node
    ensures Rooted(t, root) && Walk(t) == Line(c0, t0) && Nodes(t) == All(c0, t0)
  {
    hide At, Around, Distinct, PathDistinct, Walk, Before, After;
    var node := node0;
    ghost var c, s := c0, t0;
    var done := false;
    while !done && node.parent != null && !node.parent.black
      invariant Placed(c, s, node, root) && s.Branch? && Fair(s) && FairPath(c, Height(s)) && (s.black <==> done)
      invariant Line(c, s) == Line(c0, t0) && All(c, s) == All(c0, t0)
      decreases c
    {
      ghost var t2;
      node, done, t2 := Round(node, root, c, s);
      c, s := c.up.up, t2;
    }
    ParentAt(c, s, node, root);
    t := BlackenRoot(node, root, c, s);
  }

  lemma ParentAt(c: Path, t: Tree, n: Task, root: Root)
    requires Placed(c, t, n, root) && t.Branch?
    ensures n.parent == Bottom(c) && (!c.Top? ==> c.x.black == c.black)
  {
  }

  /** The last statement of rb_insert_color. */
  method BlackenRoot(node: Task, root: Root, ghost c: Path, ghost s: Tree) returns (ghost t: Tree)
    requires Placed(c, s, node, root) && s.Branch? && Fair(s) && FairPath(c, Height(s))
    requires Black(s) || BlackBottom(c) || c.Top?
    modifies All(c, s)`black
    ensures Rooted(t, root) && Walk(t) == Line(c, s) && Nodes(t) == All(c, s)
  {
    FocusTop(c, s, node, root);
    PlugNearlyRedBlack(c, s);
    t := Plug(c, s);
    assert node in Nodes(t);
    SetColor(root.node, true, root, Top, t);
    t := Branch(t.l, t.x, true, t.r);
  }
}
