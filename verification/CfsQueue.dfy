/**
 The ready queue of sched.c: a red-black tree of tasks with its counters.  Every
 method does to the list of ready tasks what CfsModel says.
 */
module CfsQueue {
  import opened Prelude
  import opened RbNodes
  import opened RbRotate
  import opened RbBalance
  import opened RbInsert
  import opened RbErase
  import opened RbDelete
  import opened CfsModel
  import CfsAccounting

  /** The empty link at the end of path c gets node n. */
  method Attach(parent: Task?, goLeft: bool, n: Task, root: Root, ghost c: Path)
    requires Around(c, null, root) && PathDistinct(c) && n !in PathNodes(c) && parent == Bottom(c)
    requires parent != null ==> (goLeft <==> c.GoLeft?)
    modifies PathNodes(c)`left, PathNodes(c)`right, root`node, n`left, n`right, n`parent, n`black
    ensures Placed(c, Branch(Leaf, n, false, Leaf), n, root)
  {
    n.parent := parent;
    n.left := null;
    n.right := null;
    n.black := false;
    if parent == null {
      root.node := n;
    } else if goLeft {
      parent.left := n;
    } else {
      parent.right := n;
    }
  }

  /** The tasks of t are in order of vruntime. */
  ghost predicate InOrder(q: seq<Task>)
    reads q
  {
    forall i, j | 0 <= i < j < |q| :: q[i].vruntime <= q[j].vruntime
  }

  /** The descent of __sched_enqueue_rbt: to the empty link behind every task that
      is due no later than v, before all the others. */
  method FindSlot(v: nat, root: Root, ghost t: Tree) returns (parent: Task?, goLeft: bool, ghost c: Path)
    requires At(t, root.node, null) && Distinct(t) && InOrder(Walk(t))
    ensures Plug(c, Leaf) == t && parent == Bottom(c) && (parent != null ==> (goLeft <==> c.GoLeft?))
    ensures Walk(t) == Before(c) + After(c)
    ensures forall x | x in Before(c) :: x.vruntime <= v
    ensures forall x | x in After(c) :: v < x.vruntime
  {
    var link := root.node;
    parent, goLeft, c := null, false, Top;
    ghost var s := t;
    while link != null
      invariant Plug(c, s) == t && At(s, link, parent) && parent == Bottom(c)
      invariant parent != null ==> (goLeft <==> c.GoLeft?)
      invariant InOrder(Walk(t))
      invariant forall x | x in Before(c) :: x.vruntime <= v
      invariant forall x | x in After(c) :: v < x.vruntime
      decreases s
    {
      parent := link;
      if v < parent.vruntime {
        EarlierSide(c, s, v);
        link, goLeft := parent.left, true;
        c, s := GoLeft(c, s.x, s.black, s.r), s.l;
      } else {
        LaterSide(c, s, v);
        link, goLeft := parent.right, false;
        c, s := GoRight(c, s.l, s.x, s.black), s.r;
      }
    }
    PlugWalk(c, s);
  }

  lemma OrderAround(a: seq<Task>, l: seq<Task>, x: Task, r: seq<Task>, b: seq<Task>)
    requires InOrder(a + (l + [x] + r) + b)
    ensures forall y | y in l :: y.vruntime <= x.vruntime
    ensures forall y | y in r :: x.vruntime <= y.vruntime
  {
    var w := a + (l + [x] + r) + b;
    var k := |a| + |l|;
    assert w[k] == x;
    forall i | 0 <= i < |l| ensures l[i].vruntime <= x.vruntime {
      assert w[|a| + i] == l[i];
    }
    forall i | 0 <= i < |r| ensures x.vruntime <= r[i].vruntime {
      assert w[k + 1 + i] == r[i];
    }
  }

  lemma EarlierSide(c: Path, s: Tree, v: nat)
    requires s.Branch? && InOrder(Walk(Plug(c, s))) && v < s.x.vruntime
    requires forall x | x in After(c) :: v < x.vruntime
    ensures forall x | x in After(GoLeft(c, s.x, s.black, s.r)) :: v < x.vruntime
  {
    PlugWalk(c, s);
    OrderAround(Before(c), Walk(s.l), s.x, Walk(s.r), After(c));
  }

  lemma LaterSide(c: Path, s: Tree, v: nat)
    requires s.Branch? && InOrder(Walk(Plug(c, s))) && s.x.vruntime <= v
    requires forall x | x in Before(c) :: x.vruntime <= v
    ensures forall x | x in Before(GoRight(c, s.l, s.x, s.black)) :: x.vruntime <= v
  {
    PlugWalk(c, s);
    OrderAround(Before(c), Walk(s.l), s.x, Walk(s.r), After(c));
  }

  class Sched {
    const root: Root
    var taskCount: nat
    var minVruntime: nat
    var totalWeight: nat
    var current: Task?            // the running task; null while idle runs
    ghost var tree: Tree
    ghost var known: set<Task>    // every task there is, idle apart

    ghost function Vr(): map<Task, nat>
      reads this, known
    {
      map t | t in known :: t.vruntime
    }

    ghost function Wt(): map<Task, nat>
      reads this, known
    {
      map t | t in known :: t.weight
    }

    ghost function View(): Cfs
      reads this, known, current
    {
      Cfs(Walk(tree), Vr(), Wt(), minVruntime,
          if current == null then None else Some(current),
          if current == null then 0 else current.slice,
          if current == null then 0 else current.ticks)
    }

    /** The tree is in order, and the counters agree with it. */
    ghost predicate Linked()
      reads this, root, known
    {
      && Nodes(tree) <= known && Rooted(tree, root)
      && taskCount == |Walk(tree)|
      && (forall t | t in Walk(tree) :: t in known)
      && totalWeight == TotalWeight(Walk(tree), Wt())
    }

    /** sched_init */
    constructor ()
      ensures Linked() && fresh(root)
      ensures View() == Cfs([], map[], map[], 0, None, 0, 0)
    {
      root := new Root();
      taskCount, minVruntime, totalWeight, current := 0, 0, 0, null;
      tree, known := Leaf, {};
    }

    /** The clamp of __sched_enqueue_rbt. */
    method Clamp(task: Task)
      requires Linked() && InOrder(Walk(tree)) && task in known && task !in Nodes(tree)
      modifies task`vruntime
      ensures Linked() && InOrder(Walk(tree)) && task.vruntime >= minVruntime
      ensures View() == old(View()).(vr := old(Vr())[task := Max(old(task.vruntime), minVruntime)])
    {
      hide At, Distinct, Walk, RedBlack, TotalWeight;
      WalkNodes(tree);
      assert allocated(Walk(tree)) && allocated(known) && allocated(Nodes(tree));
      if task.vruntime < minVruntime {
        task.vruntime := minVruntime;
      }
      assert Vr() == old(Vr())[task := Max(old(task.vruntime), minVruntime)];
      assert Wt() == old(Wt());
    }

    /** The tree part, which changes no key and no weight. */
    method InsertTree(task: Task) returns (ghost pre: seq<Task>, ghost post: seq<Task>)
      requires Linked() && InOrder(Walk(tree)) && task in known && task !in Nodes(tree)
      modifies this`tree, root, known`left, known`right, known`parent, known`black
      ensures Nodes(tree) <= known && Rooted(tree, root)
      ensures old(Walk(tree)) == pre + post && View() == old(View()).(queue := pre + [task] + post)
      ensures forall x | x in pre :: x in known && x.vruntime <= task.vruntime
      ensures forall x | x in post :: x in known && task.vruntime < x.vruntime
    {
      hide At, Distinct, Walk, RedBlack, TotalWeight, InOrder;
      ghost var m := View();
      assert forall x | x in Walk(tree) :: x in known;
      tree, pre, post := InsertInto(task, root, tree);
      assert Vr() == m.vr && Wt() == m.wt;
      assert forall x | x in pre :: x in pre + post;
      assert forall x | x in post :: x in pre + post;
    }

    /** The insertion of __sched_enqueue_rbt, with its counters. */
    method InsertTask(task: Task)
      requires Linked() && InOrder(Walk(tree)) && task in known && task !in Nodes(tree)
      requires Shaped(View()) && task.vruntime >= minVruntime
      modifies this`tree, this`taskCount, this`totalWeight, root, known`left, known`right, known`parent, known`black
      ensures Linked() && View() == CfsModel.Enqueue(old(View()), task)
    {
      hide Rooted, Walk, CfsModel.Enqueue, TotalWeight, InOrder;
      ghost var m := View();
      ghost var pre, post := InsertTree(task);
      taskCount := taskCount + 1;
      totalWeight := totalWeight + task.weight;
      assert m.vr == m.vr[task := Max(m.vr[task], m.min)];
      EnqueueSplit(m, View(), task, pre, post);
    }

    /** __sched_enqueue_rbt */
    method Enqueue(task: Task)
      requires Linked() && Shaped(View()) && InOrder(Walk(tree)) && task in known && task !in Nodes(tree)
      modifies this`tree, this`taskCount, this`totalWeight, root, task`vruntime,
               known`left, known`right, known`parent, known`black
      ensures Linked() && View() == CfsModel.Enqueue(old(View()), task)
    {
      hide At, Distinct, Walk, RedBlack, CfsModel.Enqueue, TotalWeight, Linked;
      ClampFirst(View(), task);
      Clamp(task);
      InsertTask(task);
    }

    /** cfs_dequeue */
    method Dequeue(task: Task) returns (ghost pre: seq<Task>, ghost post: seq<Task>)
      requires Linked() && task in Walk(tree)
      modifies this`tree, this`taskCount, this`totalWeight, root, known`left, known`right, known`parent, known`black
      ensures Linked() && old(Walk(tree)) == pre + [task] + post && View() == old(View()).(queue := pre + post)
      ensures task !in Nodes(tree)
    {
      hide At, Distinct, RedBlack, TotalWeight, Walk, Rooted;
      ghost var m := View();
      ghost var q := Walk(tree);
      Inside(tree, task);
      assert taskCount > 0;
      tree, pre, post := Remove(task, root, tree);
      WeightAround(pre, task, post, m.wt);
      taskCount := taskCount - 1;
      totalWeight := totalWeight - task.weight;
      assert Vr() == m.vr && Wt() == m.wt;
      assert forall x | x in pre + post :: x in q;
    }

    /** cfs_pick_next */
    method PickNext() returns (task: Task?)
      requires Linked()
      modifies this`minVruntime
      ensures Linked()
      ensures if Walk(tree) == [] then task == null && View() == old(View())
              else task == Walk(tree)[0] && View() == old(View()).(min := task.vruntime)
    {
      hide At, Distinct, RedBlack, TotalWeight, Walk;
      assert allocated(Nodes(tree)) && allocated(known) && allocated(Walk(tree));
      task := First(root, tree);
      if task != null {
        minVruntime := task.vruntime;
      }
      LeafWalk(tree);
      assert Vr() == old(Vr()) && Wt() == old(Wt());
    }

    /** set_timeslice */
    method SetTimeslice(task: Task, total: nat)
      modifies task`slice, task`ticks
      ensures task.slice == Slice(task.weight, total) && task.ticks == Ticks(task.slice)
    {
      var ms := MIN_TIMESLICE_MS;
      if total > 0 {
        ms := task.weight * SCHED_LATENCY_MS / total;
      }
      if ms < MIN_TIMESLICE_MS {
        ms := MIN_TIMESLICE_MS;
      }
      task.slice := ms;
      var ticks := ms / JIFFY;
      task.ticks := if ticks == 0 then 1 else ticks;
    }

    /** The first step of schedule. */
    method Charge(task: Task)
      requires Linked() && Fairly(View()) && task == current
      modifies task`vruntime
      ensures Linked() && View() == CfsModel.Charge(old(View()))
      ensures CfsAccounting.Pays(task.weight, task.vruntime - old(task.vruntime), 10 * (Ticks(task.slice) - task.ticks))
    {
      hide CfsAccounting.Pays, At, Distinct, Walk, RedBlack, TotalWeight, Sorted, NoDup;
      WalkNodes(tree);
      assert allocated(Walk(tree)) && allocated(known) && allocated(Nodes(tree));
      var ms := (Ticks(task.slice) - task.ticks) * JIFFY;
      CfsAccounting.Paying(task.weight, ms);
      if ms > 0 {
        task.vruntime := task.vruntime + ms * NICE_0_WEIGHT / task.weight;
      }
      assert Wt() == old(Wt());
      assert Vr() == old(Vr())[task := task.vruntime];
    }

    ghost predicate Valid()
      reads this, root, known, current
    {
      Linked() && Fairly(View())
    }

    /** The later steps of schedule: the first task in order leaves the queue and
        gets its slice of the weight that was ready with it. */
    method SwitchToFirst()
      requires Linked() && Shaped(View())
      modifies this, root, known
      ensures known == old(known) && Linked() && View() == Pick(old(View()))
    {
      hide At, Distinct, Walk, RedBlack, TotalWeight;
      ghost var m := View();
      WalkNoDup(tree);
      assert allocated(known);
      var candidate := PickNext();
      var total := totalWeight;
      if candidate != null {
        ghost var pre, post := Dequeue(candidate);
        WalkNoDupAt(m.queue, pre, candidate, post);
        assert allocated(Walk(tree)) && allocated(known) && allocated(Nodes(tree));
        SetTimeslice(candidate, total);
        assert Rooted(tree, root);
        assert Vr() == m.vr && Wt() == m.wt;
        assert Linked();
      }
      current := candidate;
      assert Vr() == m.vr && Wt() == m.wt;
    }

    /** schedule: runnable says whether the running task is still RUNNING. */
    method Schedule(runnable: bool)
      requires Valid()
      modifies this, root, known
      ensures known == old(known) && Valid() && View() == CfsModel.Schedule(old(View()), runnable)
      ensures minVruntime >= old(minVruntime)
    {
      hide At, Distinct, Walk, RedBlack, TotalWeight, Pick, CfsModel.Enqueue, Rooted;
      ScheduleFairly(View(), runnable);
      if current != null {
        ChargeFairly(View());
        Outside(tree, current);
        Charge(current);
        if runnable {
          OrderSeen();
          Enqueue(current);
        }
      }
      SwitchToFirst();
    }

    /** Sortedness read off the tasks themselves. */
    lemma OrderSeen()
      requires (forall x | x in Walk(tree) :: x in known) && Sorted(Walk(tree), Vr())
      ensures InOrder(Walk(tree))
    {
      hide Walk;
      forall i, j | 0 <= i < j < |Walk(tree)| ensures Walk(tree)[i].vruntime <= Walk(tree)[j].vruntime {
        assert Vr()[Walk(tree)[i]] <= Vr()[Walk(tree)[j]];
      }
    }

    /** The bonus that task_unblock and sched_wakeup_task take off a sleeper. */
    method TakeBonus(task: Task)
      requires Linked() && InOrder(Walk(tree)) && task in known && task !in Nodes(tree) && task.weight > 0
      modifies task`vruntime
      ensures Linked() && InOrder(Walk(tree))
      ensures View() == old(View()).(vr := old(Vr())[task := LessBonus(old(task.vruntime), Bonus(task.weight))])
    {
      hide At, Distinct, Walk, RedBlack, TotalWeight;
      WalkNodes(tree);
      assert allocated(Walk(tree)) && allocated(known) && allocated(Nodes(tree));
      var bonus := SCHED_WAKEUP_GRAN_MS * NICE_0_WEIGHT / task.weight;
      if task.vruntime > bonus {
        task.vruntime := task.vruntime - bonus;
      } else {
        task.vruntime := 0;
      }
      assert Wt() == old(Wt());
      assert Vr() == old(Vr())[task := task.vruntime];
    }

    /** task_unblock, which leads to sched_wakeup_task: each takes the bonus off. */
    method Wakeup(task: Task)
      requires Valid() && task in known && task !in Walk(tree) && task != current
      modifies this`tree, this`taskCount, this`totalWeight, root, known
      ensures known == old(known) && Valid() && View() == Wake(old(View()), task)
    {
      hide At, Distinct, Walk, RedBlack, TotalWeight, CfsModel.Enqueue, Linked;
      ghost var m := View();
      WakeFairly(m, task);
      Outside(tree, task);
      Known();
      OrderSeen();
      TakeBonus(task);
      TakeBonus(task);
      ghost var b := Bonus(m.wt[task]);
      assert View() == m.(vr := m.vr[task := LessBonus(LessBonus(m.vr[task], b), b)]);
      Enqueue(task);
    }

    lemma Known()
      requires Linked()
      ensures forall x | x in Walk(tree) :: x in known
    {
    }

    /** task_create and task_fork: a task that did not exist yet joins. */
    method Spawn(task: Task)
      requires Valid() && task !in known && task.weight >= MIN_WEIGHT
      modifies this`tree, this`taskCount, this`totalWeight, this`known, root, known, task
      ensures known == old(known) + {task} && Valid() && View() == CfsModel.Spawn(old(View()), task, old(task.weight))
    {
      hide At, Distinct, Walk, RedBlack, CfsModel.Enqueue;
      ghost var m := View();
      SpawnFairly(m, task, task.weight);
      Join(task);
      Known();
      OrderSeen();
      Enqueue(task);
    }

    method Join(task: Task)
      requires Linked() && Shaped(View()) && task !in known
      modifies this`known, task`vruntime
      ensures known == old(known) + {task} && Linked() && task !in Nodes(tree)
      ensures View() == old(View()).(vr := old(Vr())[task := minVruntime], wt := old(Wt())[task := task.weight])
    {
      hide At, Distinct, Walk, RedBlack;
      assert allocated(Walk(tree)) && allocated(known) && allocated(Nodes(tree));
      task.vruntime := minVruntime;
      known := known + {task};
      assert Vr() == old(Vr())[task := minVruntime];
      assert Wt() == old(Wt())[task := task.weight];
      WeightSame(Walk(tree), old(Wt()), Wt());
    }

    /** clock_handler, after timer_wakeup said whether a sleeper woke. */
    method ClockTick(wokenUp: bool)
      requires Valid() && (current != null ==> current.ticks > 0)
      modifies this, root, known
      ensures known == old(known) && Valid()
      ensures old(current) == null ==>
                View() == if old(View()).queue != [] then CfsModel.Schedule(old(View()), true) else old(View())
      ensures old(current) != null ==>
                var s := old(View()).(ticks := old(View()).ticks - 1);
                && Fairly(s)
                && View() == if s.ticks <= 0 || (wokenUp && s.queue != []) then CfsModel.Schedule(s, true) else s
    {
      hide At, Distinct, Walk, RedBlack, TotalWeight;
      if current == null {
        if taskCount > 0 {
          Schedule(true);
        }
        return;
      }
      TakeTick();
      if current.ticks <= 0 || (wokenUp && taskCount > 0) {
        Schedule(true);
      }
    }

    method TakeTick()
      requires Valid() && current != null && current.ticks > 0
      modifies known`ticks
      ensures Valid() && View() == old(View()).(ticks := old(View()).ticks - 1)
    {
      hide At, Distinct, Walk, RedBlack, TotalWeight;
      Outside(tree, current);
      assert allocated(Walk(tree)) && allocated(known) && allocated(Nodes(tree));
      current.ticks := current.ticks - 1;
      assert Vr() == old(Vr()) && Wt() == old(Wt());
    }
  }

  lemma ClampFirst(m: Cfs, t: Task)
    requires Shaped(m) && t in m.vr
    ensures var k := m.(vr := m.vr[t := Max(m.vr[t], m.min)]);
            Shaped(k) && CfsModel.Enqueue(k, t) == CfsModel.Enqueue(m, t)
  {
    var k := m.(vr := m.vr[t := Max(m.vr[t], m.min)]);
    assert k.vr[t := Max(k.vr[t], m.min)] == k.vr;
  }

  lemma EnqueueSplit(m: Cfs, n: Cfs, task: Task, pre: seq<Task>, post: seq<Task>)
    requires Shaped(m) && task in m.vr
    requires m.queue == pre + post && n == m.(queue := pre + [task] + post, vr := m.vr[task := Max(m.vr[task], m.min)])
    requires (forall x | x in pre :: x in m.vr && n.vr[x] <= n.vr[task])
             && (forall x | x in post :: x in m.vr && n.vr[task] < n.vr[x])
    ensures n == CfsModel.Enqueue(m, task)
    ensures forall x | x in n.queue :: x in n.wt
    ensures TotalWeight(n.queue, n.wt) == TotalWeight(m.queue, m.wt) + m.wt[task]
  {
    InsertUnique(pre, post, n.vr, task);
    WeightSplit(pre, post, m.wt);
    WeightSplit(pre + [task], post, m.wt);
    WeightSplit(pre, [task], m.wt);
  }

  /** The tree half of __sched_enqueue_rbt. */
  method InsertInto(task: Task, root: Root, ghost t: Tree)
    returns (ghost t2: Tree, ghost pre: seq<Task>, ghost post: seq<Task>)
    requires Rooted(t, root) && InOrder(Walk(t)) && task !in Nodes(t)
    modifies root`node, Nodes(t)`left, Nodes(t)`right, Nodes(t)`parent, Nodes(t)`black,
             task`left, task`right, task`parent, task`black
    ensures Rooted(t2, root) && Nodes(t2) == Nodes(t) + {task}
    ensures Walk(t) == pre + post && Walk(t2) == pre + [task] + post
    ensures forall x | x in pre :: x.vruntime <= task.vruntime
    ensures forall x | x in post :: task.vruntime < x.vruntime
  {
    hide At, Around, Fair, FairPath, Walk, Distinct, PathDistinct, Plug;
    assert allocated(Nodes(t));
    ghost var c;
    var parent, goLeft;
    parent, goLeft, c := FindSlot(task.vruntime, root, t);
    EmptyHole(c, t, task, root);
    pre, post := Before(c), After(c);
    assert allocated(pre) && allocated(post);
    Attach(parent, goLeft, task, root, c);
    t2 := InsertColor(task, root, c, Branch(Leaf, task, false, Leaf));
  }

  /** A hole at the end of a red-black tree takes a red leaf. */
  lemma EmptyHole(c: Path, t: Tree, task: Task, root: Root)
    requires Rooted(t, root) && Plug(c, Leaf) == t
    ensures Around(c, null, root) && PathDistinct(c) && PathNodes(c) == Nodes(t)
    ensures var s := Branch(Leaf, task, false, Leaf);
            && RedAtHole(c, s) && All(c, s) == Nodes(t) + {task}
            && Line(c, s) == Before(c) + [task] + After(c)
  {
    hide Fair, FairPath, Height, Walk;
    FocusDown(c, Leaf, root);
    EmptyHoleShape(c, t, task);
  }

  lemma EmptyHoleShape(c: Path, t: Tree, task: Task)
    requires RedBlack(t) && Plug(c, Leaf) == t
    ensures var s := Branch(Leaf, task, false, Leaf);
            && RedAtHole(c, s) && All(c, s) == Nodes(t) + {task} && PathNodes(c) == Nodes(t)
            && Line(c, s) == Before(c) + [task] + After(c)
  {
    PlugRedBlack(c, Leaf);
    PlugNodes(c, Leaf);
    assert Walk(Branch(Leaf, task, false, Leaf)) == [task];
  }

  lemma OneWeight(t: Task, wt: map<Task, nat>)
    requires t in wt
    ensures TotalWeight([t], wt) == wt[t]
  {
  }

  lemma NoDupAround(a: seq<Task>, x: Task, b: seq<Task>)
    requires NoDup(a) && NoDup(b) && x !in a && x !in b && forall y | y in a :: y !in b
    ensures NoDup(a + [x] + b)
  {
    var w := a + [x] + b;
    forall i, j | 0 <= i < j < |w| ensures w[i] != w[j] {
      if i < |a| && j > |a| {
        assert w[i] in a && w[j] in b;
      } else if i < |a| && j == |a| {
        assert w[i] in a;
      } else if i == |a| {
        assert w[j] in b;
      }
    }
  }

  lemma {:induction false} WalkNoDup(t: Tree)
    requires Distinct(t)
    ensures NoDup(Walk(t))
  {
    if t.Branch? {
      WalkNoDup(t.l);
      WalkNoDup(t.r);
      WalkNodes(t.l);
      WalkNodes(t.r);
      forall y | y in Walk(t.l) ensures y !in Walk(t.r) {
        assert y in Nodes(t.l);
      }
      NoDupAround(Walk(t.l), t.x, Walk(t.r));
    }
  }

  lemma Inside(t: Tree, x: Task)
    requires x in Walk(t)
    ensures x in Nodes(t)
  {
    WalkNodes(t);
  }

  lemma WeightAround(pre: seq<Task>, t: Task, post: seq<Task>, wt: map<Task, nat>)
    requires forall x | x in pre + [t] + post :: x in wt
    ensures forall x | x in pre + post :: x in pre + [t] + post
    ensures t in wt && TotalWeight(pre + [t] + post, wt) == TotalWeight(pre + post, wt) + wt[t]
  {
    assert t in pre + [t] + post;
    assert forall x | x in pre :: x in pre + [t] + post;
    assert forall x | x in post :: x in pre + [t] + post;
    WeightSplit(pre + [t], post, wt);
    WeightSplit(pre, [t], wt);
    WeightSplit(pre, post, wt);
    OneWeight(t, wt);
  }

  /** The tree half of cfs_dequeue: the node leaves the tree and its links are cleared. */
  method Remove(task: Task, root: Root, ghost t: Tree)
    returns (ghost t2: Tree, ghost pre: seq<Task>, ghost post: seq<Task>)
    requires Rooted(t, root) && task in Nodes(t)
    modifies root`node, Nodes(t)`left, Nodes(t)`right, Nodes(t)`parent, Nodes(t)`black
    ensures Rooted(t2, root) && Walk(t) == pre + [task] + post && Walk(t2) == pre + post
            && Nodes(t2) == Nodes(t) - {task}
  {
    hide At, Distinct, RedBlack, Walk;
    t2, pre, post := Erase(task, root, t);
    assert allocated(Nodes(t2));
    task.parent, task.black := null, false;
    task.left := null;
    task.right := null;
  }

  lemma WalkNoDupAt(q: seq<Task>, pre: seq<Task>, t: Task, post: seq<Task>)
    requires NoDup(q) && q == pre + [t] + post && q[0] == t
    ensures pre + post == q[1..]
  {
    assert q[|pre|] == t;
  }

  lemma LeafWalk(t: Tree)
    ensures Walk(t) == [] <==> t.Leaf?
  {
  }

  lemma Outside(t: Tree, x: Task)
    requires x !in Walk(t)
    ensures x !in Nodes(t)
  {
    WalkNodes(t);
  }

  lemma {:induction false} WeightSame(q: seq<Task>, w1: map<Task, nat>, w2: map<Task, nat>)
    requires forall t | t in q :: t in w1 && t in w2 && w1[t] == w2[t]
    ensures TotalWeight(q, w1) == TotalWeight(q, w2)
  {
    if q != [] {
      WeightSame(q[1..], w1, w2);
    }
  }
}
