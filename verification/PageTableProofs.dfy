/** Every single update of PageTables keeps the invariant. */
module PageTableProofs {
  import opened Prelude
  import opened PageTables

  // ---- counting -----------------------------------------------------------

  lemma {:induction false} ZerosUpdate(s: seq<nat>, i: nat, v: nat)
    requires i < |s|
    ensures Zeros(s[i := v])
         == Zeros(s) + (if v == 0 then 1 else 0) - (if s[i] == 0 then 1 else 0)
  {
    if i == |s| - 1 {
      assert s[i := v][..|s| - 1] == s[..|s| - 1];
    } else {
      assert s[i := v][..|s| - 1] == s[..|s| - 1][i := v];
      ZerosUpdate(s[..|s| - 1], i, v);
    }
  }

  lemma SingletonHolder(s: set<Pid>, p: Pid)
    requires |s| == 1 && p in s
    ensures s == {p}
  {
    assert |s - {p}| == 0;
    assert s == {p} + (s - {p});
  }

  lemma SubsetCard<T>(a: set<T>, b: set<T>)
    requires a <= b
    ensures |a| <= |b|
  {
    assert b == a + (b - a);
  }

  // ---- changing one directory entry ---------------------------------------------

  ghost predicate NamesTable(m: Mem, p: Pid, d: int, g: nat)
    requires Shape(m)
  {
    p in m.procs && UserSlot(d) && Dent(m, p, d).present && Dent(m, p, d).index == g
  }

  /** n differs from m in the directory entry (p, d) only, and every process
      still sees the same table entries. */
  ghost predicate TableStep(m: Mem, n: Mem, p: Pid, d: int)
    requires Shape(m) && Shape(n)
  {
    && n.procs.Keys == m.procs.Keys && p in m.procs && UserSlot(d)
    && |n.counts| == |m.counts|
    && (Dent(n, p, d).present ==> Dent(n, p, d).index < |n.counts|)
    && (forall q, e | q in m.procs && UserSlot(e) && (q != p || e != d) :: Dent(n, q, e) == Dent(m, q, e))
    && (forall q, e, t :: Maps(n, q, e, t) <==> Maps(m, q, e, t))
    && (forall q, e, t | Maps(m, q, e, t) && Maps(n, q, e, t) :: Tent(n, q, e, t) == Tent(m, q, e, t))
  }

  /** The bookkeeping for frame g that goes with a TableStep. */
  ghost predicate TableBook(m: Mem, n: Mem, p: Pid, d: int, g: nat)
    requires Shape(m) && Shape(n) && g < |n.counts| == |m.counts|
  {
    && n.counts[g] == m.counts[g] - One(NamesTable(m, p, d, g)) + One(NamesTable(n, p, d, g))
    && (n.uses[g] == m.uses[g] || (m.uses[g] == Unused && n.uses[g] == TableOf(d)))
    && (KERNEL_FRAMES <= g ==> (n.uses[g] == Unused <==> n.counts[g] == 0))
    && (NamesTable(n, p, d, g) ==>
          && KERNEL_FRAMES <= g && n.uses[g] == TableOf(d)
          && (m.uses[g] == Unused || NamesTable(m, p, d, g))
          && (Dent(n, p, d).write ==> n.counts[g] == 1))
  }

  ghost predicate TableBooks(m: Mem, n: Mem, p: Pid, d: int)
    requires Shape(m) && Shape(n) && |n.counts| == |m.counts|
  {
    forall g | 0 <= g < |m.counts| :: TableBook(m, n, p, d, g)
  }

  lemma TableStepHolders(m: Mem, n: Mem, p: Pid, d: int, g: nat)
    requires Shape(m) && Shape(n) && TableStep(m, n, p, d) && g < |m.uses| && n.uses[g] == m.uses[g]
    ensures m.uses[g] != TableOf(d) ==> Holders(n, g) == Holders(m, g)
    ensures m.uses[g] == TableOf(d) ==>
              Holders(n, g) == Holders(m, g) - {p} + if NamesTable(n, p, d, g) then {p} else {}
  {
    if m.uses[g] == TableOf(d) {
      assert Holders(n, g) == Holders(m, g) - {p} + if NamesTable(n, p, d, g) then {p} else {};
    } else {
      assert Holders(n, g) == Holders(m, g);
    }
  }

  lemma TableStepRoles(m: Mem, n: Mem, p: Pid, d: int)
    requires Shape(m) && Shape(n) && TableStep(m, n, p, d) && TableBooks(m, n, p, d)
    requires Roles(m)
    ensures Roles(n)
  {
    forall q, e | q in n.procs && UserSlot(e) && Dent(n, q, e).present
      ensures KERNEL_FRAMES <= Dent(n, q, e).index < |n.uses| && n.uses[Dent(n, q, e).index] == TableOf(e)
    {
      assert TableBook(m, n, p, d, Dent(n, q, e).index);
    }
    forall q, e, s | Maps(n, q, e, s)
      ensures KERNEL_FRAMES <= Walk(n, q, e, s) < |n.uses| && n.uses[Walk(n, q, e, s)] == DataOf(e, s)
    {
      assert TableBook(m, n, p, d, Walk(m, q, e, s));
    }
    forall f | 0 <= f < |n.uses|
      ensures n.uses[f].TableOf? ==> UserSlot(n.uses[f].d)
      ensures n.uses[f].DataOf? ==> UserPage(n.uses[f].d, n.uses[f].t)
    {
      assert TableBook(m, n, p, d, f);
    }
  }

  lemma TableStepCount(m: Mem, n: Mem, p: Pid, d: int, g: nat)
    requires Shape(m) && Shape(n) && TableStep(m, n, p, d)
    requires KERNEL_FRAMES <= g < |m.counts| && TableBook(m, n, p, d, g)
    requires m.counts[g] == |Holders(m, g)|
    requires forall q | NamesTable(m, q, d, g) :: m.uses[g] == TableOf(d)
    ensures n.counts[g] == |Holders(n, g)|
  {
    if n.uses[g] == m.uses[g] {
      TableStepHolders(m, n, p, d, g);
      if m.uses[g] == TableOf(d) {
        assert NamesTable(m, p, d, g) <==> p in Holders(m, g);
      }
    } else {
      forall q | q in Holders(n, g) ensures q == p {
        assert NamesTable(n, q, d, g);
        assert q != p ==> NamesTable(m, q, d, g);
      }
      assert Holders(n, g) == if NamesTable(n, p, d, g) then {p} else {};
    }
  }

  /** Nobody else's directory names a table that is writable in this one. */
  lemma WritableTableElsewhere(m: Mem, p: Pid, d: int, q: Pid, e: int)
    requires Shape(m) && Roles(m) && Exact(m) && Exclusive(m)
    requires HasTable(m, q, e) && Dent(m, q, e).write && (q != p || e != d)
    ensures !NamesTable(m, p, d, Dent(m, q, e).index)
  {
    var g := Dent(m, q, e).index;
    if NamesTable(m, p, d, g) {
      assert m.uses[g] == TableOf(d) && m.uses[g] == TableOf(e);
      assert {p, q} <= Holders(m, g);
      SubsetCard({p, q}, Holders(m, g));
      assert false;
    }
  }

  lemma TableStepExclusive(m: Mem, n: Mem, p: Pid, d: int)
    requires Shape(m) && Shape(n) && TableStep(m, n, p, d) && TableBooks(m, n, p, d)
    requires Roles(m) && Exact(m) && Exclusive(m)
    ensures Exclusive(n)
  {
    forall q, e | q in n.procs && UserSlot(e) && Dent(n, q, e).present && Dent(n, q, e).write
      ensures Dent(n, q, e).index < |n.counts| && n.counts[Dent(n, q, e).index] == 1
    {
      assert TableBook(m, n, p, d, Dent(n, q, e).index);
      if q != p || e != d {
        WritableTableElsewhere(m, p, d, q, e);
      }
    }
    forall q, e, s | Maps(n, q, e, s) && Tent(n, q, e, s).write
      ensures Walk(n, q, e, s) < |n.counts| && n.counts[Walk(n, q, e, s)] == 1 && !Tent(n, q, e, s).readonly
    {
      assert TableBook(m, n, p, d, Walk(m, q, e, s));
    }
  }

  lemma TableStepInv(m: Mem, n: Mem, p: Pid, d: int)
    requires Shape(m) && Roles(m) && Exact(m) && Exclusive(m)
    requires Shape(n) && TableStep(m, n, p, d) && TableBooks(m, n, p, d)
    ensures Roles(n) && Exact(n) && Exclusive(n)
  {
    TableStepRoles(m, n, p, d);
    TableStepExclusive(m, n, p, d);
    forall g | 0 <= g < |m.counts|
      ensures KERNEL_FRAMES <= g ==> n.counts[g] == |Holders(n, g)| && (n.uses[g] == Unused <==> n.counts[g] == 0)
      ensures g < KERNEL_FRAMES ==> n.counts[g] == 1
    {
      assert TableBook(m, n, p, d, g);
      if KERNEL_FRAMES <= g {
        TableStepCount(m, n, p, d, g);
      }
    }
  }

  // ---- changing one table entry ---------------------------------------------------

  ghost predicate Reaches(m: Mem, p: Pid, d: int, t: int, g: nat)
    requires Shape(m)
  {
    Maps(m, p, d, t) && Walk(m, p, d, t) == g
  }

  /** n differs from m in what process p sees at page (d, t) only. */
  ghost predicate PageStep(m: Mem, n: Mem, p: Pid, d: int, t: int)
    requires Shape(m) && Shape(n)
  {
    && n.procs == m.procs && p in m.procs && UserPage(d, t)
    && |n.counts| == |m.counts|
    && (Maps(n, p, d, t) ==> Walk(n, p, d, t) < |n.counts|)
    && (forall q, e, s | q != p || e != d || s != t :: Maps(n, q, e, s) <==> Maps(m, q, e, s))
    && (forall q, e, s | Maps(m, q, e, s) && Maps(n, q, e, s) && (q != p || e != d || s != t) ::
          Tent(n, q, e, s) == Tent(m, q, e, s))
  }

  /** The bookkeeping for frame g that goes with a PageStep. */
  ghost predicate PageBook(m: Mem, n: Mem, p: Pid, d: int, t: int, g: nat)
    requires Shape(m) && Shape(n) && g < |n.counts| == |m.counts|
  {
    && n.counts[g] == m.counts[g] - One(Reaches(m, p, d, t, g)) + One(Reaches(n, p, d, t, g))
    && (|| n.uses[g] == m.uses[g]
        || (m.uses[g] == Unused && n.uses[g] == DataOf(d, t))
        || (n.uses[g] == Unused && m.uses[g] == DataOf(d, t)))
    && (KERNEL_FRAMES <= g ==> (n.uses[g] == Unused <==> n.counts[g] == 0))
    && (Reaches(n, p, d, t, g) ==>
          && KERNEL_FRAMES <= g && n.uses[g] == DataOf(d, t)
          && (m.uses[g] == Unused || Reaches(m, p, d, t, g))
          && (Tent(n, p, d, t).write ==> n.counts[g] == 1 && !Tent(n, p, d, t).readonly))
  }

  ghost predicate PageBooks(m: Mem, n: Mem, p: Pid, d: int, t: int)
    requires Shape(m) && Shape(n) && |n.counts| == |m.counts|
  {
    forall g | 0 <= g < |m.counts| :: PageBook(m, n, p, d, t, g)
  }

  lemma PageStepHolders(m: Mem, n: Mem, p: Pid, d: int, t: int, g: nat)
    requires Shape(m) && Shape(n) && PageStep(m, n, p, d, t) && g < |m.uses| && n.uses[g] == m.uses[g]
    ensures m.uses[g] != DataOf(d, t) ==> Holders(n, g) == Holders(m, g)
    ensures m.uses[g] == DataOf(d, t) ==>
              Holders(n, g) == Holders(m, g) - {p} + if Reaches(n, p, d, t, g) then {p} else {}
  {
    if m.uses[g] == DataOf(d, t) {
      assert Holders(n, g) == Holders(m, g) - {p} + if Reaches(n, p, d, t, g) then {p} else {};
    } else {
      assert Holders(n, g) == Holders(m, g);
    }
  }

  lemma PageStepCount(m: Mem, n: Mem, p: Pid, d: int, t: int, g: nat)
    requires Shape(m) && Shape(n) && PageStep(m, n, p, d, t)
    requires KERNEL_FRAMES <= g < |m.counts| && PageBook(m, n, p, d, t, g)
    requires m.counts[g] == |Holders(m, g)|
    requires forall q | Reaches(m, q, d, t, g) :: m.uses[g] == DataOf(d, t)
    ensures n.counts[g] == |Holders(n, g)|
  {
    if n.uses[g] == m.uses[g] {
      PageStepHolders(m, n, p, d, t, g);
      if m.uses[g] == DataOf(d, t) {
        assert Reaches(m, p, d, t, g) <==> p in Holders(m, g);
      }
    } else if n.uses[g] != Unused {
      forall q | q in Holders(n, g) ensures q == p {
        assert Reaches(n, q, d, t, g);
        assert q != p ==> Reaches(m, q, d, t, g);
      }
      assert Holders(n, g) == if Reaches(n, p, d, t, g) then {p} else {};
    }
  }

  lemma PageStepRole(m: Mem, n: Mem, p: Pid, d: int, t: int, q: Pid, e: int, s: int)
    requires Shape(m) && Shape(n) && PageStep(m, n, p, d, t)
    requires Maps(n, q, e, s) && (q != p || e != d || s != t)
    requires Walk(m, q, e, s) < |m.counts| && m.uses[Walk(m, q, e, s)] == DataOf(e, s)
    requires m.counts[Walk(m, q, e, s)] == |Holders(m, Walk(m, q, e, s))|
    requires KERNEL_FRAMES <= Walk(m, q, e, s) && PageBook(m, n, p, d, t, Walk(m, q, e, s))
    ensures n.uses[Walk(n, q, e, s)] == DataOf(e, s)
  {
    var g := Walk(m, q, e, s);
    assert q in Holders(m, g);
    if n.uses[g] == Unused && Reaches(m, p, d, t, g) {
      assert {p, q} <= Holders(m, g);
      SubsetCard({p, q}, Holders(m, g));
      assert false;
    }
  }

  lemma PageStepRoles(m: Mem, n: Mem, p: Pid, d: int, t: int)
    requires Shape(m) && Shape(n) && PageStep(m, n, p, d, t) && PageBooks(m, n, p, d, t)
    requires Roles(m) && Exact(m)
    ensures Roles(n)
  {
    hide Exact, PageBook;
    forall q, e | q in n.procs && UserSlot(e) && Dent(n, q, e).present
      ensures KERNEL_FRAMES <= Dent(n, q, e).index < |n.uses| && n.uses[Dent(n, q, e).index] == TableOf(e)
    {
      PageStepTable(m, n, p, d, t, q, e);
    }
    forall q, e, s | Maps(n, q, e, s)
      ensures KERNEL_FRAMES <= Walk(n, q, e, s) < |n.uses| && n.uses[Walk(n, q, e, s)] == DataOf(e, s)
    {
      PageStepWalk(m, n, p, d, t, q, e, s);
    }
    forall f | 0 <= f < |n.uses|
      ensures n.uses[f].TableOf? ==> UserSlot(n.uses[f].d)
      ensures n.uses[f].DataOf? ==> UserPage(n.uses[f].d, n.uses[f].t)
    {
      PageStepUse(m, n, p, d, t, f);
    }
  }

  lemma PageStepTable(m: Mem, n: Mem, p: Pid, d: int, t: int, q: Pid, e: int)
    requires Shape(m) && Shape(n) && PageStep(m, n, p, d, t) && PageBooks(m, n, p, d, t) && Roles(m)
    requires q in n.procs && UserSlot(e) && Dent(n, q, e).present
    ensures KERNEL_FRAMES <= Dent(n, q, e).index < |n.uses| && n.uses[Dent(n, q, e).index] == TableOf(e)
  {
    assert PageBook(m, n, p, d, t, Dent(m, q, e).index);
  }

  lemma PageStepUse(m: Mem, n: Mem, p: Pid, d: int, t: int, f: nat)
    requires Shape(m) && Shape(n) && PageStep(m, n, p, d, t) && PageBooks(m, n, p, d, t) && Roles(m) && f < |n.uses|
    ensures n.uses[f].TableOf? ==> UserSlot(n.uses[f].d)
    ensures n.uses[f].DataOf? ==> UserPage(n.uses[f].d, n.uses[f].t)
  {
    assert PageBook(m, n, p, d, t, f);
  }

  lemma PageStepWalk(m: Mem, n: Mem, p: Pid, d: int, t: int, q: Pid, e: int, s: int)
    requires Shape(m) && Shape(n) && PageStep(m, n, p, d, t) && PageBooks(m, n, p, d, t)
    requires Roles(m) && Exact(m) && Maps(n, q, e, s)
    ensures KERNEL_FRAMES <= Walk(n, q, e, s) < |n.uses| && n.uses[Walk(n, q, e, s)] == DataOf(e, s)
  {
    if q == p && e == d && s == t {
      assert PageBook(m, n, p, d, t, Walk(n, p, d, t));
    } else {
      assert PageBook(m, n, p, d, t, Walk(m, q, e, s));
      PageStepRole(m, n, p, d, t, q, e, s);
    }
  }

  /** Nobody else reaches a frame of count one. */
  lemma SolePageElsewhere(m: Mem, p: Pid, d: int, t: int, q: Pid, e: int, s: int)
    requires Shape(m) && Roles(m) && Exact(m)
    requires Maps(m, q, e, s) && Walk(m, q, e, s) < |m.counts| && m.counts[Walk(m, q, e, s)] == 1
    requires q != p || e != d || s != t
    ensures !Reaches(m, p, d, t, Walk(m, q, e, s))
  {
    var g := Walk(m, q, e, s);
    if Reaches(m, p, d, t, g) {
      assert m.uses[g] == DataOf(d, t) && m.uses[g] == DataOf(e, s);
      assert {p, q} <= Holders(m, g);
      SubsetCard({p, q}, Holders(m, g));
      assert false;
    }
  }

  lemma PageStepExclusive(m: Mem, n: Mem, p: Pid, d: int, t: int)
    requires Shape(m) && Shape(n) && PageStep(m, n, p, d, t) && PageBooks(m, n, p, d, t)
    requires Roles(m) && Exact(m) && Exclusive(m)
    ensures Exclusive(n)
  {
    forall q, e | q in n.procs && UserSlot(e) && Dent(n, q, e).present && Dent(n, q, e).write
      ensures Dent(n, q, e).index < |n.counts| && n.counts[Dent(n, q, e).index] == 1
    {
      assert PageBook(m, n, p, d, t, Dent(m, q, e).index);
    }
    forall q, e, s | Maps(n, q, e, s) && Tent(n, q, e, s).write
      ensures Walk(n, q, e, s) < |n.counts| && n.counts[Walk(n, q, e, s)] == 1 && !Tent(n, q, e, s).readonly
    {
      assert PageBook(m, n, p, d, t, Walk(n, q, e, s));
      if q != p || e != d || s != t {
        SolePageElsewhere(m, p, d, t, q, e, s);
      }
    }
  }

  lemma PageStepInv(m: Mem, n: Mem, p: Pid, d: int, t: int)
    requires Shape(m) && Roles(m) && Exact(m) && Exclusive(m)
    requires Shape(n) && PageStep(m, n, p, d, t) && PageBooks(m, n, p, d, t)
    ensures Roles(n) && Exact(n) && Exclusive(n)
  {
    PageStepRoles(m, n, p, d, t);
    PageStepExclusive(m, n, p, d, t);
    forall g | 0 <= g < |m.counts|
      ensures KERNEL_FRAMES <= g ==> n.counts[g] == |Holders(n, g)| && (n.uses[g] == Unused <==> n.counts[g] == 0)
      ensures g < KERNEL_FRAMES ==> n.counts[g] == 1
    {
      assert PageBook(m, n, p, d, t, g);
      if KERNEL_FRAMES <= g {
        PageStepCount(m, n, p, d, t, g);
      }
    }
  }

  // ---- changing neither level ---------------------------------------------------------

  /** m and n have the same directories, tables and counts. */
  ghost predicate SameWiring(m: Mem, n: Mem)
    requires Shape(m) && Shape(n)
  {
    && n.procs.Keys == m.procs.Keys && n.tables == m.tables
    && n.counts == m.counts && n.uses == m.uses && n.free == m.free
    && (forall q, e | q in m.procs && UserSlot(e) :: Dent(n, q, e) == Dent(m, q, e))
  }

  lemma SameWiringMaps(m: Mem, n: Mem)
    requires Shape(m) && Shape(n) && SameWiring(m, n)
    ensures forall q, e, s :: Maps(n, q, e, s) <==> Maps(m, q, e, s)
    ensures forall q, e, s | Maps(m, q, e, s) && Maps(n, q, e, s) :: Tent(n, q, e, s) == Tent(m, q, e, s)
  {
  }

  lemma SameWiringHolders(m: Mem, n: Mem, g: nat)
    requires Shape(m) && Shape(n) && SameWiring(m, n) && g < |m.uses|
    ensures Holders(n, g) == Holders(m, g)
  {
    SameWiringMaps(m, n);
    assert Holders(n, g) == Holders(m, g);
  }

  lemma SameWiringExact(m: Mem, n: Mem)
    requires Shape(m) && Exact(m) && Shape(n) && SameWiring(m, n)
    ensures Exact(n)
  {
    hide Holders;
    forall g | 0 <= g < |m.uses|
      ensures Holders(n, g) == Holders(m, g)
    {
      SameWiringHolders(m, n, g);
    }
  }

  lemma SameWiringRoles(m: Mem, n: Mem)
    requires Shape(m) && Roles(m) && Shape(n) && SameWiring(m, n)
    ensures Roles(n)
  {
    SameWiringMaps(m, n);
  }

  lemma SameWiringExclusive(m: Mem, n: Mem)
    requires Shape(m) && Roles(m) && Exclusive(m) && Shape(n) && Roles(n) && SameWiring(m, n)
    ensures Exclusive(n)
  {
    SameWiringMaps(m, n);
  }

  lemma SameWiringInv(m: Mem, n: Mem)
    requires Inv(m) && Shape(n) && SameWiring(m, n)
    ensures Inv(n)
  {
    hide Roles, Exact, Exclusive;
    SameWiringExact(m, n);
    SameWiringRoles(m, n);
    SameWiringExclusive(m, n);
  }
}
