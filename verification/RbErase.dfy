/** __rb_erase_color (src/kernel/lib/rbtree.c). */
module RbErase {
  import opened Prelude
  import opened RbNodes
  import opened RbRotate
  import opened RbBalance
  import opened RbInsert

  /** Fair once its root is black. */
  ghost predicate NearlyFair(t: Tree) {
    Even(t) && (t.Branch? ==> NoRedRed(t.l) && NoRedRed(t.r))
  }

  /** The subtree in the hole is one black node short of what its path expects. */
  ghost predicate Short(c: Path, t: Tree) {
    NearlyFair(t) && FairPath(c, Height(t) + 1)
  }

  /** All the rules hold, but the root may be red. */
  ghost predicate Repaired(c: Path, t: Tree) {
    Fair(t) && FairPath(c, Height(t)) && (Black(t) || BlackBottom(c) || c.Top?)
  }

  /** The sibling is there: a short subtree has a sibling of height at least one. */
  lemma SiblingExists(c: Path, t: Tree)
    requires Short(c, t) && !c.Top?
    ensures c.sib.Branch?
  {
  }

  // ---- the shapes of the four cases --------------------------------------------------

  /** Case 1: a red sibling is rotated over the parent. */
  ghost function Lowered(c: Path): Path
    requires !c.Top? && c.sib.Branch?
  {
    var s := c.sib;
    if c.GoLeft? then GoLeft(GoLeft(c.up, s.x, true, s.r), c.x, false, s.l)
    else GoRight(GoRight(c.up, s.l, s.x, true), s.r, c.x, false)
  }

  /** Case 2: the sibling turns red and the shortage moves to the parent. */
  ghost function Sunk(c: Path, t: Tree): Tree
    requires !c.Top? && c.sib.Branch?
  {
    var s := Branch(c.sib.l, c.sib.x, false, c.sib.r);
    if c.GoLeft? then Branch(t, c.x, c.black, s) else Branch(s, c.x, c.black, t)
  }

  /** Near and far child of the sibling, seen from the hole. */
  ghost function Near(c: Path): Tree
    requires !c.Top? && c.sib.Branch?
  {
    if c.GoLeft? then c.sib.l else c.sib.r
  }

  ghost function Far(c: Path): Tree
    requires !c.Top? && c.sib.Branch?
  {
    if c.GoLeft? then c.sib.r else c.sib.l
  }

  /** Case 3: the red near child is rotated over the sibling. */
  ghost function Turned(c: Path): Path
    requires !c.Top? && c.sib.Branch? && Near(c).Branch?
  {
    var s, n := c.sib, Near(c);
    if c.GoLeft? then GoLeft(c.up, c.x, c.black, Branch(n.l, n.x, true, Branch(n.r, s.x, false, s.r)))
    else GoRight(c.up, Branch(Branch(s.l, s.x, false, n.l), n.x, true, n.r), c.x, c.black)
  }

  /** Case 4: the sibling takes the parent's place and colour. */
  ghost function Closed(c: Path, t: Tree): Tree
    requires !c.Top? && c.sib.Branch? && Far(c).Branch?
  {
    var s, f := c.sib, Branch(Far(c).l, Far(c).x, true, Far(c).r);
    if c.GoLeft? then Branch(Branch(t, c.x, true, s.l), s.x, c.black, f)
    else Branch(f, s.x, c.black, Branch(s.r, c.x, true, t))
  }

  lemma LoweredShort(c: Path, t: Tree)
    requires Short(c, t) && !c.Top? && !Black(c.sib)
    ensures Short(Lowered(c), t) && Black(Lowered(c).sib) && !Lowered(c).black
    ensures Lowered(c).up.up == c.up
  {
    assert Fair(c.sib.l) && Fair(c.sib.r) && Height(c.sib.l) == Height(c.sib.r) == Height(c.sib);
    assert FairPath(c.up, Height(t) + 2);
    assert FairPath(Lowered(c).up, Height(t) + 1);
  }

  lemma SunkShort(c: Path, t: Tree)
    requires Short(c, t) && !c.Top? && c.sib.Branch? && Black(c.sib) && Black(c.sib.l) && Black(c.sib.r) && Black(t)
    ensures Short(c.up, Sunk(c, t))
  {
    assert Fair(c.sib.l) && Fair(c.sib.r) && Height(c.sib.l) == Height(c.sib.r) == Height(t);
    assert Fair(Branch(c.sib.l, c.sib.x, false, c.sib.r));
  }

  lemma TurnedShort(c: Path, t: Tree)
    requires Short(c, t) && !c.Top? && c.sib.Branch? && Black(c.sib) && !Black(Near(c)) && Black(Far(c))
    ensures Short(Turned(c), t) && Black(Turned(c).sib) && !Black(Far(Turned(c)))
  {
    var s, n := c.sib, Near(c);
    FairParts(s);
    FairParts(n);
    if c.GoLeft? {
      FairJoin(n.r, s.x, false, s.r);
      FairJoin(n.l, n.x, true, Branch(n.r, s.x, false, s.r));
    } else {
      FairJoin(s.l, s.x, false, n.l);
      FairJoin(Branch(s.l, s.x, false, n.l), n.x, true, n.r);
    }
  }

  lemma FairParts(t: Tree)
    requires t.Branch? && Fair(t)
    ensures Fair(t.l) && Fair(t.r) && Height(t.l) == Height(t.r) == Height(t) - (if t.black then 1 else 0)
    ensures !t.black ==> Black(t.l) && Black(t.r)
  {
  }

  lemma FairJoin(l: Tree, x: Task, black: bool, r: Tree)
    requires Fair(l) && Fair(r) && Height(l) == Height(r) && (black || (Black(l) && Black(r)))
    ensures Fair(Branch(l, x, black, r)) && Height(Branch(l, x, black, r)) == Height(l) + (if black then 1 else 0)
  {
  }

  lemma ClosedRepaired(c: Path, t: Tree)
    requires Short(c, t) && !c.Top? && c.sib.Branch? && Black(c.sib) && !Black(Far(c)) && Black(t)
    ensures Repaired(c.up, Closed(c, t))
  {
    var f := Far(c);
    assert Fair(c.sib.l) && Fair(c.sib.r) && Height(c.sib.l) == Height(c.sib.r) == Height(t);
    assert Fair(f.l) && Fair(f.r) && Height(f.l) == Height(f.r) == Height(f);
    assert Fair(t) && Fair(Branch(f.l, f.x, true, f.r)) && Height(Branch(f.l, f.x, true, f.r)) == Height(t) + 1;
    var k := Closed(c, t);
    assert Fair(k.l) && Fair(k.r) && Height(k.l) == Height(k.r) == Height(t) + 1;
    assert Fair(k);
  }

  // ---- order and nodes stay -----------------------------------------------------------

  lemma LoweredWalk(c: Path)
    requires !c.Top? && c.sib.Branch?
    ensures Before(Lowered(c)) == Before(c) && After(Lowered(c)) == After(c)
  {
    var s := c.sib;
    if c.GoLeft? {
      assert After(Lowered(c)) == [c.x] + Walk(s.l) + ([s.x] + Walk(s.r) + After(c.up));
      LaterGroup(c.x, Walk(s.l), s.x, Walk(s.r), After(c.up));
    } else {
      assert Before(Lowered(c)) == Before(c.up) + Walk(s.l) + [s.x] + Walk(s.r) + [c.x];
      EarlierGroup(Before(c.up), Walk(s.l), s.x, Walk(s.r), c.x);
    }
  }

  lemma LoweredOrder(c: Path, t: Tree)
    requires !c.Top? && c.sib.Branch?
    ensures Line(Lowered(c), t) == Line(c, t) && All(Lowered(c), t) == All(c, t)
  {
    hide Before, After, Walk;
    LoweredWalk(c);
    assert PathNodes(Lowered(c)) == PathNodes(c);
  }

  lemma LaterGroup(x: Task, l: seq<Task>, y: Task, r: seq<Task>, z: seq<Task>)
    ensures [x] + l + ([y] + r + z) == [x] + (l + [y] + r) + z
  {
  }

  lemma EarlierGroup(a: seq<Task>, l: seq<Task>, y: Task, r: seq<Task>, x: Task)
    ensures a + l + [y] + r + [x] == a + (l + [y] + r) + [x]
  {
  }

  lemma TurnedOrder(c: Path, t: Tree)
    requires !c.Top? && c.sib.Branch? && Near(c).Branch?
    ensures Line(Turned(c), t) == Line(c, t) && All(Turned(c), t) == All(c, t)
  {
    var s, n := c.sib, Near(c);
    if c.GoLeft? {
      RotationWalk(n.l, n.x, n.black, true, n.r, s.x, s.black, false, s.r);
    } else {
      RotationWalk(s.l, s.x, false, s.black, n.l, n.x, true, n.black, n.r);
    }
    assert Walk(Turned(c).sib) == Walk(c.sib);
    assert Nodes(Turned(c).sib) == Nodes(c.sib);
  }

  lemma SunkOrder(c: Path, t: Tree)
    requires !c.Top? && c.sib.Branch?
    ensures Line(c.up, Sunk(c, t)) == Line(c, t) && All(c.up, Sunk(c, t)) == All(c, t)
  {
    assert Walk(Sunk(c, t)) == Walk(Up(c, t)) && Nodes(Sunk(c, t)) == Nodes(Up(c, t));
    LineUp(c, t);
  }

  lemma ClosedOrder(c: Path, t: Tree)
    requires !c.Top? && c.sib.Branch? && Far(c).Branch?
    ensures Line(c.up, Closed(c, t)) == Line(c, t) && All(c.up, Closed(c, t)) == All(c, t)
  {
    var s, f := c.sib, Branch(Far(c).l, Far(c).x, true, Far(c).r);
    assert Walk(f) == Walk(Far(c)) && Nodes(f) == Nodes(Far(c));
    if c.GoLeft? {
      RotationWalk(t, c.x, true, c.black, s.l, s.x, c.black, s.black, f);
      assert Walk(Branch(s.l, s.x, s.black, f)) == Walk(s);
    } else {
      RotationWalk(f, s.x, s.black, c.black, s.r, c.x, c.black, true, t);
      assert Walk(Branch(f, s.x, s.black, s.r)) == Walk(s);
    }
    assert Walk(Closed(c, t)) == Walk(Up(c, t));
    assert Nodes(Closed(c, t)) == Nodes(Up(c, t));
    LineUp(c, t);
  }

  // ---- the four cases, hole on the left ------------------------------------------------

  method LowerLeft(parent: Task, sibling: Task, root: Root, ghost c: Path, ghost t: Tree, ghost n: Task?)
    requires Placed(c, t, n, root) && c.GoLeft? && c.sib.Branch? && c.x == parent && parent.right == sibling
    modifies All(c, t)`left, All(c, t)`right, All(c, t)`parent, All(c, t)`black, root`node
    ensures Placed(Lowered(c), t, n, root)
  {
    FocusUp(c, t, n, root);
    ghost var p := Up(c, t);
    FocusRight(c.up, p, parent, root);
    SetColor(sibling, true, root, RightOf(c.up, p), c.sib);
    ghost var s := Branch(c.sib.l, sibling, true, c.sib.r);
    FocusUp(RightOf(c.up, p), s, sibling, root);
    p := Branch(t, parent, c.black, s);
    SetColor(parent, false, root, c.up, p);
    p := Branch(t, parent, false, s);
    RotateLeft(parent, root, c.up, p);
    ghost var q := Branch(Branch(t, parent, false, s.l), sibling, true, s.r);
    FocusLeft(c.up, q, sibling, root);
    FocusLeft(LeftOf(c.up, q), q.l, parent, root);
  }

  method SinkLeft(parent: Task, sibling: Task, root: Root, ghost c: Path, ghost t: Tree, ghost n: Task?)
    requires Placed(c, t, n, root) && c.GoLeft? && c.sib.Branch? && c.x == parent && parent.right == sibling
    modifies All(c, t)`black
    ensures Placed(c.up, Sunk(c, t), parent, root)
  {
    FocusUp(c, t, n, root);
    ghost var p := Up(c, t);
    FocusRight(c.up, p, parent, root);
    SetColor(sibling, false, root, RightOf(c.up, p), c.sib);
    FocusUp(RightOf(c.up, p), Branch(c.sib.l, sibling, false, c.sib.r), sibling, root);
  }

  method TurnLeft(parent: Task, sibling: Task, root: Root, ghost c: Path, ghost t: Tree, ghost n: Task?)
    requires Placed(c, t, n, root) && c.GoLeft? && c.sib.Branch? && c.sib.l.Branch? && c.x == parent
             && parent.right == sibling
    modifies All(c, t)`left, All(c, t)`right, All(c, t)`parent, All(c, t)`black, root`node
    ensures Placed(Turned(c), t, n, root)
  {
    FocusUp(c, t, n, root);
    ghost var p := Up(c, t);
    FocusRight(c.up, p, parent, root);
    ghost var k := RightOf(c.up, p);
    FocusLeft(k, c.sib, sibling, root);
    var near := sibling.left;
    SetColor(near, true, root, LeftOf(k, c.sib), c.sib.l);
    ghost var nb := Branch(c.sib.l.l, near, true, c.sib.l.r);
    FocusUp(LeftOf(k, c.sib), nb, near, root);
    ghost var s := Branch(nb, sibling, c.sib.black, c.sib.r);
    SetColor(sibling, false, root, k, s);
    s := Branch(nb, sibling, false, c.sib.r);
    RotateRight(sibling, root, k, s);
    s := Branch(nb.l, near, true, Branch(nb.r, sibling, false, c.sib.r));
    FocusUp(k, s, near, root);
    p := Branch(t, parent, c.black, s);
    FocusLeft(c.up, p, parent, root);
  }

  method CloseLeft(parent: Task, sibling: Task, root: Root, ghost c: Path, ghost t: Tree, ghost n: Task?)
    requires Placed(c, t, n, root) && c.GoLeft? && c.sib.Branch? && c.sib.r.Branch? && c.x == parent
             && parent.right == sibling
    modifies All(c, t)`left, All(c, t)`right, All(c, t)`parent, All(c, t)`black, root`node
    ensures Placed(c.up, Closed(c, t), sibling, root)
  {
    FocusUp(c, t, n, root);
    ghost var p := Up(c, t);
    FocusRight(c.up, p, parent, root);
    ghost var k := RightOf(c.up, p);
    SetColor(sibling, parent.black, root, k, c.sib);
    ghost var s := Branch(c.sib.l, sibling, c.black, c.sib.r);
    FocusUp(k, s, sibling, root);
    p := Branch(t, parent, c.black, s);
    SetColor(parent, true, root, c.up, p);
    p := Branch(t, parent, true, s);
    FocusRight(c.up, p, parent, root);
    k := RightOf(c.up, p);
    FocusRight(k, s, sibling, root);
    if sibling.right != null {
      SetColor(sibling.right, true, root, RightOf(k, s), s.r);
    }
    ghost var far := Branch(s.r.l, s.r.x, true, s.r.r);
    FocusUp(RightOf(k, s), far, sibling.right, root);
    s := Branch(s.l, sibling, c.black, far);
    FocusUp(k, s, sibling, root);
    RotateLeft(parent, root, c.up, Branch(t, parent, true, s));
  }

  // ---- the four cases, hole on the right -----------------------------------------------

  method LowerRight(parent: Task, sibling: Task, root: Root, ghost c: Path, ghost t: Tree, ghost n: Task?)
    requires Placed(c, t, n, root) && c.GoRight? && c.sib.Branch? && c.x == parent && parent.left == sibling
    modifies All(c, t)`left, All(c, t)`right, All(c, t)`parent, All(c, t)`black, root`node
    ensures Placed(Lowered(c), t, n, root)
  {
    FocusUp(c, t, n, root);
    ghost var p := Up(c, t);
    FocusLeft(c.up, p, parent, root);
    SetColor(sibling, true, root, LeftOf(c.up, p), c.sib);
    ghost var s := Branch(c.sib.l, sibling, true, c.sib.r);
    FocusUp(LeftOf(c.up, p), s, sibling, root);
    p := Branch(s, parent, c.black, t);
    SetColor(parent, false, root, c.up, p);
    p := Branch(s, parent, false, t);
    RotateRight(parent, root, c.up, p);
    ghost var q := Branch(s.l, sibling, true, Branch(s.r, parent, false, t));
    FocusRight(c.up, q, sibling, root);
    FocusRight(RightOf(c.up, q), q.r, parent, root);
  }

  method SinkRight(parent: Task, sibling: Task, root: Root, ghost c: Path, ghost t: Tree, ghost n: Task?)
    requires Placed(c, t, n, root) && c.GoRight? && c.sib.Branch? && c.x == parent && parent.left == sibling
    modifies All(c, t)`black
    ensures Placed(c.up, Sunk(c, t), parent, root)
  {
    FocusUp(c, t, n, root);
    ghost var p := Up(c, t);
    FocusLeft(c.up, p, parent, root);
    SetColor(sibling, false, root, LeftOf(c.up, p), c.sib);
    FocusUp(LeftOf(c.up, p), Branch(c.sib.l, sibling, false, c.sib.r), sibling, root);
  }

  method TurnRight(parent: Task, sibling: Task, root: Root, ghost c: Path, ghost t: Tree, ghost n: Task?)
    requires Placed(c, t, n, root) && c.GoRight? && c.sib.Branch? && c.sib.r.Branch? && c.x == parent
             && parent.left == sibling
    modifies All(c, t)`left, All(c, t)`right, All(c, t)`parent, All(c, t)`black, root`node
    ensures Placed(Turned(c), t, n, root)
  {
    FocusUp(c, t, n, root);
    ghost var p := Up(c, t);
    FocusLeft(c.up, p, parent, root);
    ghost var k := LeftOf(c.up, p);
    FocusRight(k, c.sib, sibling, root);
    var near := sibling.right;
    SetColor(near, true, root, RightOf(k, c.sib), c.sib.r);
    ghost var nb := Branch(c.sib.r.l, near, true, c.sib.r.r);
    FocusUp(RightOf(k, c.sib), nb, near, root);
    ghost var s := Branch(c.sib.l, sibling, c.sib.black, nb);
    SetColor(sibling, false, root, k, s);
    s := Branch(c.sib.l, sibling, false, nb);
    RotateLeft(sibling, root, k, s);
    s := Branch(Branch(c.sib.l, sibling, false, nb.l), near, true, nb.r);
    FocusUp(k, s, near, root);
    p := Branch(s, parent, c.black, t);
    FocusRight(c.up, p, parent, root);
  }

  method CloseRight(parent: Task, sibling: Task, root: Root, ghost c: Path, ghost t: Tree, ghost n: Task?)
    requires Placed(c, t, n, root) && c.GoRight? && c.sib.Branch? && c.sib.l.Branch? && c.x == parent
             && parent.left == sibling
    modifies All(c, t)`left, All(c, t)`right, All(c, t)`parent, All(c, t)`black, root`node
    ensures Placed(c.up, Closed(c, t), sibling, root)
  {
    FocusUp(c, t, n, root);
    ghost var p := Up(c, t);
    FocusLeft(c.up, p, parent, root);
    ghost var k := LeftOf(c.up, p);
    SetColor(sibling, parent.black, root, k, c.sib);
    ghost var s := Branch(c.sib.l, sibling, c.black, c.sib.r);
    FocusUp(k, s, sibling, root);
    p := Branch(s, parent, c.black, t);
    SetColor(parent, true, root, c.up, p);
    p := Branch(s, parent, true, t);
    FocusLeft(c.up, p, parent, root);
    k := LeftOf(c.up, p);
    FocusLeft(k, s, sibling, root);
    if sibling.left != null {
      SetColor(sibling.left, true, root, LeftOf(k, s), s.l);
    }
    ghost var far := Branch(s.l.l, s.l.x, true, s.l.r);
    FocusUp(LeftOf(k, s), far, sibling.left, root);
    s := Branch(far, sibling, c.black, s.r);
    FocusUp(k, s, sibling, root);
    RotateRight(parent, root, c.up, Branch(s, parent, true, t));
  }

  // ---- the loop -----------------------------------------------------------------------

  predicate IsBlack(n: Task?)
    reads n
  {
    n == null || n.black
  }

  lemma ColorSeen(t: Tree, n: Task?, p: Task?)
    requires At(t, n, p)
    ensures IsBlack(n) <==> Black(t)
  {
  }

  /** One round with the hole on the left: c1 and t1 describe the tree after it,
      closed, or short one level up. */
  method EraseRoundLeft(node: Task?, parent: Task, root: Root, ghost c: Path, ghost t: Tree)
    returns (n1: Task, done: bool, ghost c1: Path, ghost t1: Tree)
    requires Placed(c, t, node, root) && Short(c, t) && Black(t) && c.GoLeft? && c.x == parent
    modifies All(c, t)`left, All(c, t)`right, All(c, t)`parent, All(c, t)`black, root`node
    ensures Placed(c1, t1, n1, root) && Line(c1, t1) == Line(c, t) && All(c1, t1) == All(c, t)
    ensures if done then Repaired(c1, t1) else Short(c1, t1)
    ensures !done ==> c1 == c.up || !Black(t1)
  {
    SiblingExists(c, t);
    ghost var k := c;
    assert At(c.sib, parent.right, parent);
    var sibling := parent.right;
    if sibling != null && !sibling.black {
      LoweredShort(c, t);
      LoweredOrder(c, t);
      LowerLeft(parent, sibling, root, c, t, node);
      k := Lowered(c);
      assert At(k.sib, parent.right, parent);
      sibling := parent.right;
      SiblingExists(k, t);
    }
    ColorSeen(k.sib.l, sibling.left, sibling);
    ColorSeen(k.sib.r, sibling.right, sibling);
    if IsBlack(sibling.left) && IsBlack(sibling.right) {
      SunkShort(k, t);
      SunkOrder(k, t);
      SinkLeft(parent, sibling, root, k, t, node);
      return parent, false, k.up, Sunk(k, t);
    }
    if IsBlack(sibling.right) {
      TurnedShort(k, t);
      TurnedOrder(k, t);
      TurnLeft(parent, sibling, root, k, t, node);
      k := Turned(k);
      assert At(k.sib, parent.right, parent);
      sibling := parent.right;
    }
    ClosedRepaired(k, t);
    ClosedOrder(k, t);
    CloseLeft(parent, sibling, root, k, t, node);
    return sibling, true, k.up, Closed(k, t);
  }

  /** One round with the hole on the right. */
  method EraseRoundRight(node: Task?, parent: Task, root: Root, ghost c: Path, ghost t: Tree)
    returns (n1: Task, done: bool, ghost c1: Path, ghost t1: Tree)
    requires Placed(c, t, node, root) && Short(c, t) && Black(t) && c.GoRight? && c.x == parent
    modifies All(c, t)`left, All(c, t)`right, All(c, t)`parent, All(c, t)`black, root`node
    ensures Placed(c1, t1, n1, root) && Line(c1, t1) == Line(c, t) && All(c1, t1) == All(c, t)
    ensures if done then Repaired(c1, t1) else Short(c1, t1)
    ensures !done ==> c1 == c.up || !Black(t1)
  {
    SiblingExists(c, t);
    ghost var k := c;
    assert At(c.sib, parent.left, parent);
    var sibling := parent.left;
    if sibling != null && !sibling.black {
      LoweredShort(c, t);
      LoweredOrder(c, t);
      LowerRight(parent, sibling, root, c, t, node);
      k := Lowered(c);
      assert At(k.sib, parent.left, parent);
      sibling := parent.left;
      SiblingExists(k, t);
    }
    ColorSeen(k.sib.l, sibling.left, sibling);
    ColorSeen(k.sib.r, sibling.right, sibling);
    if IsBlack(sibling.left) && IsBlack(sibling.right) {
      SunkShort(k, t);
      SunkOrder(k, t);
      SinkRight(parent, sibling, root, k, t, node);
      return parent, false, k.up, Sunk(k, t);
    }
    if IsBlack(sibling.left) {
      TurnedShort(k, t);
      TurnedOrder(k, t);
      TurnRight(parent, sibling, root, k, t, node);
      k := Turned(k);
      assert At(k.sib, parent.left, parent);
      sibling := parent.left;
    }
    ClosedRepaired(k, t);
    ClosedOrder(k, t);
    CloseRight(parent, sibling, root, k, t, node);
    return sibling, true, k.up, Closed(k, t);
  }

  /** The root is on the path, unless the path is empty. */
  lemma {:induction false} RootAbove(c: Path, n: Task?, root: Root)
    requires Around(c, n, root)
    ensures !c.Top? ==> root.node != null && root.node in PathNodes(c)
    ensures c.Top? ==> root.node == n
  {
    if !c.Top? {
      RootAbove(c.up, c.x, root);
    }
  }

  /** The root of a repaired tree turns black, if it is not. */
  method BlackenRoot(n: Task?, root: Root, ghost c: Path, ghost t: Tree) returns (ghost t2: Tree)
    requires Placed(c, t, n, root) && Repaired(c, t)
    modifies All(c, t)`black
    ensures Rooted(t2, root) && Walk(t2) == Line(c, t) && Nodes(t2) == All(c, t)
  {
    FocusTop(c, t, n, root);
    PlugNearlyRedBlack(c, t);
    t2 := Plug(c, t);
    if root.node != null {
      assert t2.Branch? && root.node in Nodes(t2);
      SetColor(root.node, true, root, Top, t2);
      t2 := Branch(t2.l, t2.x, true, t2.r);
    }
  }

  /** The subtree that is short turns black, which mends it. */
  method BlackenShort(n: Task, root: Root, ghost c: Path, ghost t: Tree) returns (ghost t2: Tree)
    requires Placed(c, t, n, root) && Short(c, t) && t.Branch? && (c.Top? || !t.black)
    modifies All(c, t)`black
    ensures Rooted(t2, root) && Walk(t2) == Line(c, t) && Nodes(t2) == All(c, t)
  {
    SetColor(n, true, root, c, t);
    ghost var k := Branch(t.l, n, true, t.r);
    assert Walk(k) == Walk(t) && Nodes(k) == Nodes(t);
    assert Fair(k) && FairPath(c, Height(k));
    PlugRedBlack(c, k);
    FocusTop(c, k, n, root);
    t2 := Plug(c, k);
  }

  /** __rb_erase_color: the subtree at node lost a black node. */
  method EraseColor(node0: Task?, parent0: Task?, root: Root, ghost c0: Path, ghost t0: Tree) returns (ghost t: Tree)
    requires Placed(c0, t0, node0, root) && Short(c0, t0) && parent0 == Bottom(c0)
    modifies All(c0, t0)`left, All(c0, t0)`right, All(c0, t0)`parent, All(c0, t0)`black, root`node
    ensures Rooted(t, root) && Walk(t) == Line(c0, t0) && Nodes(t) == All(c0, t0)
  {
    var node, parent := node0, parent0;
    ghost var c, s := c0, t0;
    RootAbove(c, node, root);
    while IsBlack(node) && node != root.node
      invariant Placed(c, s, node, root) && Short(c, s) && parent == Bottom(c)
      invariant Line(c, s) == Line(c0, t0) && All(c, s) == All(c0, t0)
      invariant if c.Top? then root.node == node else root.node != null && root.node in PathNodes(c)
      decreases Black(s), c
    {
      ColorSeen(s, node, parent);
      ghost var c1, s1;
      var done;
      if node == parent.left {
        node, done, c1, s1 := EraseRoundLeft(node, parent, root, c, s);
      } else {
        node, done, c1, s1 := EraseRoundRight(node, parent, root, c, s);
      }
      c, s := c1, s1;
      if done {
        t := BlackenRoot(node, root, c, s);
        return;
      }
      parent := node.parent;
      RootAbove(c, node, root);
    }
    ColorSeen(s, node, parent);
    if node != null {
      t := BlackenShort(node, root, c, s);
    } else {
      t := Leaf;
    }
  }
}
