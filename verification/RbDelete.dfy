/** rb_first, rb_last, rb_next, rb_prev, rb_replace_node and rb_erase
    (src/kernel/lib/rbtree.c). */
module RbDelete {
  import opened Prelude
  import opened RbNodes
  import opened RbRotate
  import opened RbBalance
  import opened RbInsert
  import opened RbErase

  // ---- paths within subtrees -----------------------------------------------------

  /** The path c2, continued above by c. */
  ghost function Join(c2: Path, c: Path): Path {
    match c2
    case Top => c
    case GoLeft(up, x, b, s) => GoLeft(Join(up, c), x, b, s)
    case GoRight(up, s, x, b) => GoRight(Join(up, c), s, x, b)
  }

  lemma {:induction false} JoinPlug(c2: Path, c: Path, t: Tree)
    ensures Plug(Join(c2, c), t) == Plug(c, Plug(c2, t))
    decreases c2
  {
    match c2
    case Top =>
    case GoLeft(up, x, b, s) => JoinPlug(up, c, Branch(t, x, b, s));
    case GoRight(up, s, x, b) => JoinPlug(up, c, Branch(s, x, b, t));
  }

  lemma FocusDown(c: Path, t: Tree, root: Root)
    requires Placed(Top, Plug(c, t), root.node, root)
    ensures Placed(c, t, Ptr(t), root)
    ensures Walk(Plug(c, t)) == Line(c, t) && Nodes(Plug(c, t)) == All(c, t)
  {
    PlugAt(c, t, root);
    PlugDistinct(c, t);
    PlugWalk(c, t);
    PlugNodes(c, t);
  }

  lemma FocusJoin(c2: Path, c: Path, t: Tree, n: Task?, root: Root)
    requires Placed(c, Plug(c2, t), n, root)
    ensures Placed(Join(c2, c), t, Ptr(t), root)
  {
    FocusTop(c, Plug(c2, t), n, root);
    JoinPlug(c2, c, t);
    FocusDown(Join(c2, c), t, root);
  }

  lemma FocusSplit(c2: Path, c: Path, t: Tree, n: Task?, root: Root)
    requires Placed(Join(c2, c), t, n, root)
    ensures Placed(c, Plug(c2, t), Ptr(Plug(c2, t)), root)
  {
    FocusTop(Join(c2, c), t, n, root);
    JoinPlug(c2, c, t);
    FocusDown(c, Plug(c2, t), root);
  }

  /** Where a node sits in a tree. */
  lemma {:induction false} Locate(t: Tree, x: Task) returns (c: Path, s: Tree)
    requires x in Nodes(t)
    ensures Plug(c, s) == t && s.Branch? && s.x == x
  {
    if t.x == x {
      return Top, t;
    } else if x in Nodes(t.l) {
      var c2;
      c2, s := Locate(t.l, x);
      c := Join(c2, GoLeft(Top, t.x, t.black, t.r));
      JoinPlug(c2, GoLeft(Top, t.x, t.black, t.r), s);
    } else {
      var c2;
      c2, s := Locate(t.r, x);
      c := Join(c2, GoRight(Top, t.l, t.x, t.black));
      JoinPlug(c2, GoRight(Top, t.l, t.x, t.black), s);
    }
  }

  // ---- the ends and the neighbours -------------------------------------------------

  lemma {:induction false} WalkNodes(t: Tree)
    ensures (forall x | x in Walk(t) :: x in Nodes(t)) && (forall x | x in Nodes(t) :: x in Walk(t))
  {
    if t.Branch? {
      WalkNodes(t.l);
      WalkNodes(t.r);
    }
  }

  /** The leftmost node below node, with the path to it. */
  method Leftmost(node0: Task, ghost t: Tree, ghost p: Task?) returns (node: Task, ghost c: Path, ghost s: Tree)
    requires At(t, node0, p)
    ensures Plug(c, s) == t && s.Branch? && s.l.Leaf? && s.x == node && Before(c) == []
    ensures Walk(t)[0] == node && node.left == null
  {
    node := node0;
    c, s := Top, t;
    ghost var q := p;
    while node.left != null
      invariant Plug(c, s) == t && Before(c) == [] && At(s, node, q)
      decreases s
    {
      q := node;
      node := node.left;
      c, s := GoLeft(c, s.x, s.black, s.r), s.l;
    }
    PlugWalk(c, s);
  }

  method Rightmost(node0: Task, ghost t: Tree, ghost p: Task?) returns (node: Task)
    requires At(t, node0, p)
    ensures Walk(t) != [] && Walk(t)[|Walk(t)| - 1] == node
  {
    node := node0;
    ghost var c, s, q := Top, t, p;
    while node.right != null
      invariant Plug(c, s) == t && After(c) == [] && At(s, node, q)
      decreases s
    {
      q := node;
      node := node.right;
      c, s := GoRight(c, s.l, s.x, s.black), s.r;
    }
    PlugWalk(c, s);
    assert s.r.Leaf?;
    assert Walk(t) == (Before(c) + Walk(s.l)) + [node];
  }

  /** rb_first: the first node in order, or null for the empty tree. */
  method First(root: Root, ghost t: Tree) returns (r: Task?)
    requires At(t, root.node, null)
    ensures if t.Leaf? then r == null else r != null && Walk(t) != [] && r == Walk(t)[0]
  {
    if root.node == null { return null; }
    ghost var c, s;
    r, c, s := Leftmost(root.node, t, null);
    PlugWalk(c, s);
  }

  /** rb_last */
  method Last(root: Root, ghost t: Tree) returns (r: Task?)
    requires At(t, root.node, null)
    ensures if t.Leaf? then r == null else r != null && Walk(t) != [] && r == Walk(t)[|Walk(t)| - 1]
  {
    if root.node == null { return null; }
    r := Rightmost(root.node, t, null);
  }

  /** rb_next: the node that follows in order, or null after the last one. */
  method Next(node0: Task, root: Root, ghost c0: Path, ghost t0: Tree)
    returns (r: Task?, ghost c2: Path, ghost s: Tree)
    requires t0.Branch? && Placed(c0, t0, node0, root)
    ensures var rest := Walk(t0.r) + After(c0);
            if rest == [] then r == null else r == rest[0]
    ensures t0.r.Branch? ==> Plug(c2, s) == t0.r && s.Branch? && s.l.Leaf? && s.x == r && Before(c2) == []
  {
    if node0.right != null {
      r, c2, s := Leftmost(node0.right, t0.r, node0);
      PlugWalk(c2, s);
      return;
    }
    assert At(t0.r, node0.right, node0) && t0.r.Leaf?;
    var node := node0;
    ghost var c, t := c0, t0;
    var parent := node.parent;
    while parent != null && node == parent.right
      invariant Placed(c, t, node, root) && t.Branch? && parent == Bottom(c) && After(c) == After(c0)
      decreases c
    {
      FocusUp(c, t, node, root);
      assert c.GoRight?;
      c, t := c.up, Up(c, t);
      node := parent;
      parent := node.parent;
    }
    assert Walk(t0.r) + After(c0) == After(c);
    return parent, Top, Leaf;
  }

  /** rb_prev */
  method Prev(node0: Task, root: Root, ghost c0: Path, ghost t0: Tree) returns (r: Task?)
    requires t0.Branch? && Placed(c0, t0, node0, root)
    ensures var rest := Before(c0) + Walk(t0.l);
            if rest == [] then r == null else r == rest[|rest| - 1]
  {
    if node0.left != null {
      r := Rightmost(node0.left, t0.l, node0);
      return;
    }
    assert At(t0.l, node0.left, node0) && t0.l.Leaf?;
    var node := node0;
    ghost var c, t := c0, t0;
    var parent := node.parent;
    while parent != null && node == parent.left
      invariant Placed(c, t, node, root) && t.Branch? && parent == Bottom(c) && Before(c) == Before(c0)
      decreases c
    {
      FocusUp(c, t, node, root);
      assert c.GoLeft?;
      c, t := c.up, Up(c, t);
      node := parent;
      parent := node.parent;
    }
    assert Before(c0) + Walk(t0.l) == Before(c);
    return parent;
  }

  // ---- taking a node out -----------------------------------------------------------

  /** rb_replace_node: any subtree k from outside the path, wherever it hung, takes the victim's place. */
  method ReplaceNode(victim: Task, n: Task?, root: Root, ghost c: Path, ghost t: Tree, ghost k: Tree, ghost p: Task?)
    requires t.Branch? && Placed(c, t, victim, root)
    requires At(k, n, p) && Distinct(k) && Nodes(k) !! PathNodes(c)
    modifies PathNodes(c)`left, PathNodes(c)`right, root`node, Nodes(k)`parent
    ensures Placed(c, k, n, root)
  {
    var parent := victim.parent;
    assert victim !in PathNodes(c);
    {
      hide At, Around;
      assert allocated(Nodes(k)) && allocated(PathNodes(c));
      Relink(parent, victim, n, root, c);
      SetParent(n, parent, p, k);
    }
  }

  /** A subtree below the victim is such a one. */
  lemma BelowVictim(victim: Task, root: Root, c: Path, t: Tree, k: Tree, n: Task?)
    requires t.Branch? && Placed(c, t, victim, root)
    requires (k == t.r && n == victim.right) || (k == t.l && n == victim.left)
    ensures At(k, n, victim) && Distinct(k) && Nodes(k) !! PathNodes(c)
  {
  }

  /** Steps 5a to 5d of rb_erase: reap takes node's place, colour and children. */
  method TakePlace(node: Task, reap: Task, root: Root, ghost c: Path, ghost t: Tree)
    requires t.Branch? && Placed(c, t, node, root) && reap !in All(c, t)
    modifies reap`left, reap`right, reap`parent, reap`black, PathNodes(c)`left, PathNodes(c)`right, root`node,
             Nodes(t)`parent
    ensures Placed(c, Branch(t.l, reap, t.black, t.r), reap, root)
  {
    ghost var l, r := t.l, t.r;
    assert At(l, node.left, node) && At(r, node.right, node) && Nodes(l) !! Nodes(r);
    assert node !in PathNodes(c) && Nodes(l) !! PathNodes(c) && Nodes(r) !! PathNodes(c);
    assert reap !in Nodes(l) && reap !in Nodes(r) && node !in Nodes(l) && node !in Nodes(r);
    TakeLinks(node, reap, root, c, l, r);
  }

  method TakeLinks(node: Task, reap: Task, root: Root, ghost c: Path, ghost l: Tree, ghost r: Tree)
    requires At(l, node.left, node) && At(r, node.right, node) && Around(c, node, root) && node.parent == Bottom(c)
    requires Distinct(l) && Distinct(r) && Nodes(l) !! Nodes(r) && PathDistinct(c)
    requires node !in PathNodes(c) && Nodes(l) !! PathNodes(c) && Nodes(r) !! PathNodes(c)
    requires node !in Nodes(l) && node !in Nodes(r) && reap !in Nodes(l) && reap !in Nodes(r)
    requires reap !in PathNodes(c) && reap != node
    modifies reap`left, reap`right, reap`parent, reap`black, PathNodes(c)`left, PathNodes(c)`right, root`node,
             Nodes(l)`parent, Nodes(r)`parent
    ensures At(l, reap.left, reap) && At(r, reap.right, reap) && Around(c, reap, root)
    ensures reap.parent == Bottom(c) && reap.black == old(node.black)
  {
    hide At, Around, Distinct, PathDistinct, Nodes, PathNodes;
    assert allocated(Nodes(l)) && allocated(Nodes(r)) && allocated(PathNodes(c));
    reap.parent, reap.black := node.parent, node.black;
    reap.left := node.left;
    reap.right := node.right;
    SetParent(reap.left, reap, node, l);
    SetParent(reap.right, reap, node, r);
    Relink(node.parent, node, reap, root, c);
  }

  function AnyChild(n: Task): Task?
    reads n
  {
    if n.left != null then n.left else n.right
  }

  /** The one subtree that is left of a node with at most one child. */
  ghost function Rest(s: Tree): Tree
    requires s.Branch?
  {
    if s.l.Leaf? then s.r else s.l
  }

  ghost predicate InRedBlack(c: Path, t: Tree) {
    Fair(t) && FairPath(c, Height(t)) && (Black(t) || BlackBottom(c))
  }

  lemma RestFair(c: Path, s: Tree)
    requires s.Branch? && InRedBlack(c, s) && (s.l.Leaf? || s.r.Leaf?)
    ensures s.black ==> Short(c, Rest(s))
    ensures !s.black ==> InRedBlack(c, Rest(s))
  {
    assert Fair(s.l) && Fair(s.r);
  }

  /** Step 6 of rb_erase: the colours are mended if a black node went. */
  method Mend(black: bool, child: Task?, parent: Task?, root: Root, ghost c: Path, ghost k: Tree)
    returns (ghost t: Tree)
    requires Placed(c, k, child, root) && parent == Bottom(c)
    requires if black then Short(c, k) else InRedBlack(c, k)
    modifies All(c, k)`left, All(c, k)`right, All(c, k)`parent, All(c, k)`black, root`node
    ensures Rooted(t, root) && Walk(t) == Line(c, k) && Nodes(t) == All(c, k)
  {
    if black {
      t := EraseColor(child, parent, root, c, k);
    } else {
      FocusTop(c, k, child, root);
      PlugRedBlack(c, k);
      t := Plug(c, k);
    }
  }

  /** rb_erase on a node with at most one child. */
  method EraseSimple(node: Task, root: Root, ghost c: Path, ghost s: Tree) returns (ghost t: Tree)
    requires s.Branch? && Placed(c, s, node, root) && InRedBlack(c, s) && (s.l.Leaf? || s.r.Leaf?)
    modifies All(c, s)`left, All(c, s)`right, All(c, s)`parent, All(c, s)`black, root`node
    ensures Rooted(t, root) && Walk(t) == Line(c, Rest(s)) && Nodes(t) == All(c, Rest(s))
  {
    assert At(s.l, node.left, node) && At(s.r, node.right, node);
    var child := AnyChild(node);
    var parent, color := node.parent, node.black;
    RestFair(c, s);
    BelowVictim(node, root, c, s, Rest(s), child);
    ReplaceNode(node, child, root, c, s, Rest(s), node);
    t := Mend(color, child, parent, root, c, Rest(s));
  }

  /** Which node sits at one place of a path has no bearing on its colours. */
  lemma {:induction false} SwapFair(c2: Path, c: Path, l: Tree, x: Task, y: Task, b: bool, h: int)
    requires FairPath(Join(c2, GoRight(c, l, x, b)), h)
    ensures FairPath(Join(c2, GoRight(c, l, y, b)), h)
    ensures BlackBottom(Join(c2, GoRight(c, l, x, b))) == BlackBottom(Join(c2, GoRight(c, l, y, b)))
  {
    if !c2.Top? {
      SwapFair(c2.up, c, l, x, y, b, h + One(c2.black));
    }
  }

  lemma {:induction false} JoinNodes(c2: Path, c: Path)
    ensures PathNodes(Join(c2, c)) == PathNodes(c2) + PathNodes(c)
  {
    if !c2.Top? {
      JoinNodes(c2.up, c);
    }
  }

  lemma {:induction false} JoinOrder(c2: Path, c: Path)
    ensures Before(Join(c2, c)) == Before(c) + Before(c2) && After(Join(c2, c)) == After(c2) + After(c)
  {
    match c2
    case Top =>
    case GoLeft(up, x, b, s) =>
      JoinOrder(up, c);
      assert [x] + Walk(s) + (After(up) + After(c)) == ([x] + Walk(s) + After(up)) + After(c);
    case GoRight(up, s, x, b) =>
      JoinOrder(up, c);
      assert (Before(c) + Before(up)) + Walk(s) + [x] == Before(c) + (Before(up) + Walk(s) + [x]);
  }

  lemma {:induction false} JoinRedBlack(c2: Path, c: Path, t: Tree)
    requires InRedBlack(c, Plug(c2, t))
    ensures InRedBlack(Join(c2, c), t)
  {
    PlugRedBlack(c, Plug(c2, t));
    JoinPlug(c2, c, t);
    PlugRedBlack(Join(c2, c), t);
  }

  /** Steps 4 and 5 of rb_erase for a node with two children: the next node,
      reap, is cut out below and put in node's place.  Afterwards the path cc
      leads to where reap was. */
  method Transplant(node: Task, reap: Task, child: Task?, root: Root,
                    ghost c: Path, ghost s: Tree, ghost c2: Path, ghost s2: Tree)
    requires s.Branch? && Placed(c, s, node, root)
    requires Plug(c2, s2) == s.r && s2.Branch? && s2.l.Leaf? && s2.x == reap && child == reap.right
    modifies All(c, s)`left, All(c, s)`right, All(c, s)`parent, All(c, s)`black, root`node
    ensures Placed(Join(c2, GoRight(c, s.l, reap, s.black)), s2.r, child, root)
  {
    FocusRight(c, s, node, root);
    ghost var k := RightOf(c, s);
    FocusJoin(c2, k, s2, node.right, root);
    JoinNodes(c2, k);
    PlugNodes(c2, s2);
    BelowVictim(reap, root, Join(c2, k), s2, s2.r, child);
    ReplaceNode(reap, child, root, Join(c2, k), s2, s2.r, reap);
    FocusSplit(c2, k, s2.r, child, root);
    ghost var r := Plug(c2, s2.r);
    PlugNodes(c2, s2.r);
    FocusUp(k, r, Ptr(r), root);
    TakePlace(node, reap, root, c, Branch(s.l, node, s.black, r));
    ghost var t := Branch(s.l, reap, s.black, r);
    FocusRight(c, t, reap, root);
    FocusJoin(c2, RightOf(c, t), s2.r, reap.right, root);
  }

  /** The order after a transplant is the order before without node. */
  lemma TransplantOrder(c: Path, s: Tree, c2: Path, s2: Tree) returns (pre: seq<Task>, post: seq<Task>)
    requires s.Branch? && Plug(c2, s2) == s.r && s2.Branch? && s2.l.Leaf? && Before(c2) == []
    ensures Line(c, s) == pre + [s.x] + post
    ensures Line(Join(c2, GoRight(c, s.l, s2.x, s.black)), s2.r) == pre + post
  {
    var k := GoRight(c, s.l, s2.x, s.black);
    PlugWalk(c2, s2);
    JoinOrder(c2, k);
    pre := Before(c) + Walk(s.l);
    post := [s2.x] + Walk(s2.r) + After(c2) + After(c);
    assert Walk(s2) == [s2.x] + Walk(s2.r);
    assert Walk(s.r) == [s2.x] + Walk(s2.r) + After(c2);
    SeqSplit(Before(c), Walk(s.l), s.x, Walk(s.r), After(c));
    assert Before(Join(c2, k)) == pre + [s2.x];
    hide Walk, Join, Plug;
    SeqJoin(pre, s2.x, Walk(s2.r), After(c2), After(c));
  }

  lemma SeqSplit(a: seq<Task>, b: seq<Task>, x: Task, r: seq<Task>, d: seq<Task>)
    ensures a + (b + [x] + r) + d == (a + b) + [x] + (r + d)
  {
  }

  lemma SeqJoin(p: seq<Task>, x: Task, w: seq<Task>, a: seq<Task>, d: seq<Task>)
    ensures (p + [x]) + w + (a + d) == p + ([x] + w + a + d)
  {
  }

  /** rb_erase on a node with two children. */
  method EraseInner(node: Task, root: Root, ghost c: Path, ghost s: Tree)
    returns (ghost t: Tree, ghost pre: seq<Task>, ghost post: seq<Task>)
    requires s.Branch? && Placed(c, s, node, root) && InRedBlack(c, s) && s.l.Branch? && s.r.Branch?
    modifies All(c, s)`left, All(c, s)`right, All(c, s)`parent, All(c, s)`black, root`node
    ensures Rooted(t, root) && Line(c, s) == pre + [node] + post && Walk(t) == pre + post
    ensures Nodes(t) == All(c, s) - {node}
  {
    ghost var c2, s2;
    var reap;
    assert allocated(Nodes(s)) && allocated(PathNodes(c));
    reap, c2, s2 := Next(node, root, c, s);
    FocusRight(c, s, node, root);
    FocusJoin(c2, RightOf(c, s), s2, node.right, root);
    assert At(s2.l, reap.left, reap);
    var child := AnyChild(reap);
    var parent, color := reap.parent, reap.black;
    TransplantFair(c, s, c2, s2);
    TransplantNodes(c, s, c2, s2);
    JoinBottom(c2, GoRight(c, s.l, reap, s.black));
    JoinBottom(c2, RightOf(c, s));
    BottomInside(c2, s2);
    pre, post := TransplantOrder(c, s, c2, s2);
    Transplant(node, reap, child, root, c, s, c2, s2);
    if parent == node {
      parent := reap;
    }
    t := Mend(color, child, parent, root, Join(c2, GoRight(c, s.l, reap, s.black)), s2.r);
  }

  lemma TransplantFair(c: Path, s: Tree, c2: Path, s2: Tree)
    requires s.Branch? && InRedBlack(c, s) && Plug(c2, s2) == s.r && s2.Branch? && s2.l.Leaf?
    ensures var cc := Join(c2, GoRight(c, s.l, s2.x, s.black));
            if s2.black then Short(cc, s2.r) else InRedBlack(cc, s2.r)
  {
    var k := RightOf(c, s);
    assert InRedBlack(k, s.r);
    JoinRedBlack(c2, k, s2);
    RestFair(Join(c2, k), s2);
    SwapFair(c2, c, s.l, s.x, s2.x, s.black, Height(s2));
  }

  lemma TransplantNodes(c: Path, s: Tree, c2: Path, s2: Tree)
    requires s.Branch? && Plug(c2, s2) == s.r && s2.Branch? && s2.l.Leaf?
    requires s.x !in Nodes(s.l) && s.x !in Nodes(s.r) && s.x !in PathNodes(c)
    ensures All(Join(c2, GoRight(c, s.l, s2.x, s.black)), s2.r) == All(c, s) - {s.x}
  {
    JoinNodes(c2, GoRight(c, s.l, s2.x, s.black));
    PlugNodes(c2, s2);
    assert Nodes(s2) == {s2.x} + Nodes(s2.r);
    assert Nodes(s) == Nodes(s.l) + {s.x} + (PathNodes(c2) + ({s2.x} + Nodes(s2.r)));
  }

  lemma JoinBottom(c2: Path, c: Path)
    ensures Bottom(Join(c2, c)) == if c2.Top? then Bottom(c) else Bottom(c2)
  {
  }

  lemma BottomInside(c2: Path, t: Tree)
    ensures c2.Top? || Bottom(c2) in Nodes(Plug(c2, t))
  {
    PlugNodes(c2, t);
  }

  lemma SimpleOrder(c: Path, s: Tree)
    requires s.Branch? && (s.l.Leaf? || s.r.Leaf?)
    ensures Line(c, s) == (Before(c) + Walk(s.l)) + [s.x] + (Walk(s.r) + After(c))
    ensures Line(c, Rest(s)) == (Before(c) + Walk(s.l)) + (Walk(s.r) + After(c))
  {
  }

  /** rb_erase: exactly node goes, and the tree is red-black again. */
  method Erase(node: Task, root: Root, ghost t0: Tree)
    returns (ghost t: Tree, ghost pre: seq<Task>, ghost post: seq<Task>)
    requires Rooted(t0, root) && node in Nodes(t0)
    modifies Nodes(t0)`left, Nodes(t0)`right, Nodes(t0)`parent, Nodes(t0)`black, root`node
    ensures Rooted(t, root) && Walk(t0) == pre + [node] + post && Walk(t) == pre + post
    ensures Nodes(t) == Nodes(t0) - {node}
  {
    ghost var c, s := Locate(t0, node);
    FocusDown(c, s, root);
    PlugRedBlack(c, s);
    assert At(s.l, node.left, node) && At(s.r, node.right, node);
    if node.left != null && node.right != null {
      t, pre, post := EraseInner(node, root, c, s);
    } else {
      SimpleOrder(c, s);
      t := EraseSimple(node, root, c, s);
      pre, post := Before(c) + Walk(s.l), Walk(s.r) + After(c);
      assert All(c, Rest(s)) == All(c, s) - {node};
    }
  }
}
