/** Fork and exit keep the invariant. */
module PageFork {
  import opened PageTables
  import opened PageTableProofs

  /** The process whose address space q has after p forked c. */
  function Origin(p: Pid, c: Pid, q: Pid): Pid { if q == c then p else q }

  lemma ForkShape(m: Mem, p: Pid, c: Pid)
    requires Shape(m) && p in m.procs && c !in m.procs
    ensures Shape(ForkSpace(m, p, c))
  {
    var n := ForkSpace(m, p, c);
    assert forall f | 0 <= f < |n.tables| :: |n.tables[f]| == ENTRIES;
  }

  lemma ForkDent(m: Mem, p: Pid, c: Pid, q: Pid, e: int)
    requires Shape(m) && p in m.procs && c !in m.procs && Shape(ForkSpace(m, p, c))
    requires (q in m.procs || q == c) && UserSlot(e)
    ensures Dent(ForkSpace(m, p, c), q, e)
         == if q == p || q == c then ReadOnly(Dent(m, p, e)) else Dent(m, q, e)
  {
  }

  lemma ForkTent(m: Mem, p: Pid, c: Pid, q: Pid, e: int, t: int)
    requires Shape(m) && Roles(m) && p in m.procs && c !in m.procs && Shape(ForkSpace(m, p, c))
    ensures Maps(ForkSpace(m, p, c), q, e, t) <==> (q in m.procs || q == c) && Maps(m, Origin(p, c, q), e, t)
    ensures Maps(ForkSpace(m, p, c), q, e, t) ==>
              Tent(ForkSpace(m, p, c), q, e, t)
              == var x := Tent(m, Origin(p, c, q), e, t);
                 if Holds(m, p, Dent(m, Origin(p, c, q), e).index) then ReadOnly(x) else x
  {
    if (q in m.procs || q == c) && UserPage(e, t) {
      ForkDent(m, p, c, q, e);
    }
  }

  lemma ForkHolders(m: Mem, p: Pid, c: Pid, g: nat)
    requires Shape(m) && Roles(m) && p in m.procs && c !in m.procs && Shape(ForkSpace(m, p, c))
    requires g < |m.uses|
    ensures Holders(ForkSpace(m, p, c), g) == Holders(m, g) + if p in Holders(m, g) then {c} else {}
    ensures c !in Holders(m, g)
  {
    var n := ForkSpace(m, p, c);
    forall q
      ensures q in Holders(n, g) <==> (q in m.procs || q == c) && Origin(p, c, q) in Holders(m, g)
    {
      match m.uses[g]
      case Unused =>
      case TableOf(d) =>
        if (q in m.procs || q == c) && UserSlot(d) {
          ForkDent(m, p, c, q, d);
        }
      case DataOf(d, t) =>
        ForkTent(m, p, c, q, d, t);
    }
  }

  lemma ForkRoles(m: Mem, p: Pid, c: Pid)
    requires Shape(m) && Roles(m) && p in m.procs && c !in m.procs && Shape(ForkSpace(m, p, c))
    ensures Roles(ForkSpace(m, p, c))
  {
    var n := ForkSpace(m, p, c);
    forall q, e | q in n.procs && UserSlot(e) && Dent(n, q, e).present
      ensures KERNEL_FRAMES <= Dent(n, q, e).index < |n.uses| && n.uses[Dent(n, q, e).index] == TableOf(e)
    {
      ForkDent(m, p, c, q, e);
    }
    forall q, e, s | Maps(n, q, e, s)
      ensures KERNEL_FRAMES <= Walk(n, q, e, s) < |n.uses| && n.uses[Walk(n, q, e, s)] == DataOf(e, s)
    {
      ForkTent(m, p, c, q, e, s);
    }
  }

  lemma ForkExclusiveTable(m: Mem, p: Pid, c: Pid, q: Pid, e: int)
    requires Shape(m) && Roles(m) && Exact(m) && Exclusive(m)
    requires p in m.procs && c !in m.procs && Shape(ForkSpace(m, p, c))
    requires q in ForkSpace(m, p, c).procs && UserSlot(e)
    requires Dent(ForkSpace(m, p, c), q, e).present && Dent(ForkSpace(m, p, c), q, e).write
    ensures var i := Dent(ForkSpace(m, p, c), q, e).index; i < |m.counts| && ForkSpace(m, p, c).counts[i] == 1
  {
    ForkDent(m, p, c, q, e);
    var i := Dent(m, q, e).index;
    assert q in Holders(m, i);
    SingletonHolder(Holders(m, i), q);
  }

  lemma ForkExclusivePage(m: Mem, p: Pid, c: Pid, q: Pid, e: int, t: int)
    requires Shape(m) && Roles(m) && Exact(m) && Exclusive(m)
    requires p in m.procs && c !in m.procs && Shape(ForkSpace(m, p, c))
    requires Maps(ForkSpace(m, p, c), q, e, t) && Tent(ForkSpace(m, p, c), q, e, t).write
    ensures var i := Walk(ForkSpace(m, p, c), q, e, t); i < |m.counts| && ForkSpace(m, p, c).counts[i] == 1
    ensures !Tent(ForkSpace(m, p, c), q, e, t).readonly
  {
    ForkTent(m, p, c, q, e, t);
    var o := Origin(p, c, q);
    var i := Walk(m, o, e, t);
    assert o in Holders(m, i);
    SingletonHolder(Holders(m, i), o);
    assert o in Holders(m, Dent(m, o, e).index);
  }

  lemma ForkInv(m: Mem, p: Pid, c: Pid)
    requires Inv(m) && p in m.procs && c !in m.procs
    ensures Inv(ForkSpace(m, p, c))
  {
    var n := ForkSpace(m, p, c);
    ForkShape(m, p, c);
    ForkRoles(m, p, c);
    forall g | KERNEL_FRAMES <= g < |m.counts|
      ensures n.counts[g] == |Holders(n, g)|
      ensures n.uses[g] == Unused <==> n.counts[g] == 0
    {
      ForkHolders(m, p, c, g);
    }
    assert Exact(n);
    forall q, e | q in n.procs && UserSlot(e) && Dent(n, q, e).present && Dent(n, q, e).write
      ensures Dent(n, q, e).index < |n.counts| && n.counts[Dent(n, q, e).index] == 1
    {
      ForkExclusiveTable(m, p, c, q, e);
    }
    forall q, e, s | Maps(n, q, e, s) && Tent(n, q, e, s).write
      ensures Walk(n, q, e, s) < |n.counts| && n.counts[Walk(n, q, e, s)] == 1 && !Tent(n, q, e, s).readonly
    {
      ForkExclusivePage(m, p, c, q, e, s);
    }
    ZerosSame(m.counts, n.counts);
  }

  lemma {:induction false} ZerosSame(a: seq<nat>, b: seq<nat>)
    requires |a| == |b| && forall i | 0 <= i < |a| :: a[i] == 0 <==> b[i] == 0
    ensures Zeros(a) == Zeros(b)
  {
    if a != [] {
      ZerosSame(a[..|a| - 1], b[..|b| - 1]);
    }
  }

  // ---- exit -------------------------------------------------------------------

  lemma HeldIsCounted(m: Mem, p: Pid)
    requires Shape(m) && Exact(m)
    ensures forall f | 0 <= f < |m.counts| && Holds(m, p, f) :: m.counts[f] > 0
  {
  }

  lemma ExitTent(m: Mem, p: Pid, q: Pid, e: int, t: int)
    requires Shape(m) && p in m.procs
    requires forall f | 0 <= f < |m.counts| && Holds(m, p, f) :: m.counts[f] > 0
    ensures Shape(ExitSpace(m, p))
    ensures Maps(ExitSpace(m, p), q, e, t) <==> q != p && Maps(m, q, e, t)
    ensures Maps(ExitSpace(m, p), q, e, t) ==> Tent(ExitSpace(m, p), q, e, t) == Tent(m, q, e, t)
  {
  }

  lemma ExitKeepsHolders(m: Mem, n: Mem, p: Pid, g: nat)
    requires Shape(m) && Shape(n) && g < |m.uses| == |n.uses|
    requires n.procs == m.procs - {p} && n.tables == m.tables && n.uses[g] == m.uses[g]
    ensures Holders(n, g) == Holders(m, g) - {p}
  {
    assert forall q, e, s :: Maps(n, q, e, s) <==> q != p && Maps(m, q, e, s);
  }

  lemma ExitHolders(m: Mem, p: Pid, g: nat)
    requires Shape(m) && p in m.procs && KERNEL_FRAMES <= g < |m.counts| && m.counts[g] == |Holders(m, g)|
    requires forall f | 0 <= f < |m.counts| && Holds(m, p, f) :: m.counts[f] > 0
    requires Shape(ExitSpace(m, p))
    ensures Holders(ExitSpace(m, p), g) == Holders(m, g) - {p}
    ensures ExitSpace(m, p).counts[g] == |Holders(ExitSpace(m, p), g)|
  {
    var n := ExitSpace(m, p);
    assert n.counts[g] == |Holders(m, g) - {p}|;
    if n.uses[g] == m.uses[g] {
      ExitKeepsHolders(m, n, p, g);
    } else {
      assert |Holders(m, g) - {p}| == 0;
    }
  }

  /** A frame somebody else holds keeps its use. */
  lemma ExitKeepsUse(m: Mem, p: Pid, q: Pid, i: nat)
    requires Shape(m) && p in m.procs && KERNEL_FRAMES <= i < |m.counts| && m.counts[i] == |Holders(m, i)|
    requires forall f | 0 <= f < |m.counts| && Holds(m, p, f) :: m.counts[f] > 0
    requires Shape(ExitSpace(m, p)) && q != p && q in Holders(m, i)
    ensures ExitSpace(m, p).uses[i] == m.uses[i]
  {
    assert q in Holders(m, i) - {p};
    assert ExitSpace(m, p).counts[i] == |Holders(m, i) - {p}|;
  }

  lemma ExitTableRole(m: Mem, p: Pid, q: Pid, e: int)
    requires Shape(m) && Roles(m) && Exact(m) && p in m.procs
    requires forall f | 0 <= f < |m.counts| && Holds(m, p, f) :: m.counts[f] > 0
    requires Shape(ExitSpace(m, p)) && q != p && q in m.procs && UserSlot(e) && Dent(m, q, e).present
    ensures ExitSpace(m, p).uses[Dent(m, q, e).index] == TableOf(e)
  {
    ExitKeepsUse(m, p, q, Dent(m, q, e).index);
  }

  lemma ExitPageRole(m: Mem, p: Pid, q: Pid, e: int, t: int)
    requires Shape(m) && Roles(m) && Exact(m) && p in m.procs
    requires forall f | 0 <= f < |m.counts| && Holds(m, p, f) :: m.counts[f] > 0
    requires Shape(ExitSpace(m, p)) && q != p && Maps(m, q, e, t)
    ensures ExitSpace(m, p).uses[Walk(m, q, e, t)] == DataOf(e, t)
  {
    ExitKeepsUse(m, p, q, Walk(m, q, e, t));
  }

  lemma ExitRoles(m: Mem, p: Pid)
    requires Shape(m) && Roles(m) && Exact(m) && p in m.procs
    requires forall f | 0 <= f < |m.counts| && Holds(m, p, f) :: m.counts[f] > 0
    requires Shape(ExitSpace(m, p))
    ensures Roles(ExitSpace(m, p))
  {
    hide Exact;
    var n := ExitSpace(m, p);
    assert n.procs == m.procs - {p} && |n.uses| == |m.uses|;
    hide ExitSpace;
    forall q, e | q in n.procs && UserSlot(e) && Dent(n, q, e).present
      ensures n.uses[Dent(n, q, e).index] == TableOf(e)
    {
      ExitTableRole(m, p, q, e);
    }
    forall q, e, s | Maps(n, q, e, s)
      ensures KERNEL_FRAMES <= Walk(n, q, e, s) < |n.uses| && n.uses[Walk(n, q, e, s)] == DataOf(e, s)
    {
      ExitTent(m, p, q, e, s);
      ExitPageRole(m, p, q, e, s);
    }
  }

  lemma ExitExclusive(m: Mem, p: Pid)
    requires Shape(m) && Roles(m) && Exact(m) && Exclusive(m) && p in m.procs
    requires forall f | 0 <= f < |m.counts| && Holds(m, p, f) :: m.counts[f] > 0
    requires Shape(ExitSpace(m, p)) && Roles(ExitSpace(m, p))
    ensures Exclusive(ExitSpace(m, p))
  {
    var n := ExitSpace(m, p);
    forall q, e | q in n.procs && UserSlot(e) && Dent(n, q, e).present && Dent(n, q, e).write
      ensures Dent(n, q, e).index < |n.counts| && n.counts[Dent(n, q, e).index] == 1
    {
      var i := Dent(m, q, e).index;
      assert q in Holders(m, i);
      SingletonHolder(Holders(m, i), q);
    }
    forall q, e, s | Maps(n, q, e, s) && Tent(n, q, e, s).write
      ensures Walk(n, q, e, s) < |n.counts| && n.counts[Walk(n, q, e, s)] == 1 && !Tent(n, q, e, s).readonly
    {
      ExitTent(m, p, q, e, s);
      var i := Walk(m, q, e, s);
      assert q in Holders(m, i);
      SingletonHolder(Holders(m, i), q);
    }
  }

  lemma ExitInv(m: Mem, p: Pid)
    requires Inv(m) && p in m.procs
    requires forall f | 0 <= f < |m.counts| && Holds(m, p, f) :: m.counts[f] > 0
    ensures Inv(ExitSpace(m, p))
  {
    var n := ExitSpace(m, p);
    assert Shape(n);
    ExitRoles(m, p);
    ExitExclusive(m, p);
    forall g | KERNEL_FRAMES <= g < |m.counts|
      ensures n.counts[g] == |Holders(n, g)|
      ensures n.uses[g] == Unused <==> n.counts[g] == 0
    {
      ExitHolders(m, p, g);
    }
    assert Exact(n);
  }
}
