/** Every single update of PageTables is one of the steps of PageTableProofs,
    so it keeps the invariant. */
module PageUpdates {
  import opened PageTables
  import opened PageTableProofs

  /** A free frame is named by no directory and reached by no walk. */
  lemma FreeIsUnnamed(m: Mem, f: nat)
    requires Inv(m) && FreeFrame(m, f)
    ensures forall q, e | HasTable(m, q, e) :: Dent(m, q, e).index != f
    ensures forall q, e, s | Maps(m, q, e, s) :: Walk(m, q, e, s) != f
    ensures m.uses[f] == Unused
  {
  }

  /** A writable directory entry names a table no other slot names. */
  lemma OwnedTable(m: Mem, p: Pid, d: int)
    requires Inv(m) && HasTable(m, p, d) && Dent(m, p, d).write
    ensures forall q, e | HasTable(m, q, e) && Dent(m, q, e).index == Dent(m, p, d).index :: q == p && e == d
  {
    forall q, e | HasTable(m, q, e) && Dent(m, q, e).index == Dent(m, p, d).index ensures q == p && e == d {
      if q != p || e != d {
        WritableTableElsewhere(m, q, e, p, d);
      }
    }
  }

  /** What the bookkeeping of one frame needs to know of the invariant. */
  ghost predicate FrameFacts(m: Mem, g: nat)
    requires Shape(m) && g < |m.counts|
  {
    KERNEL_FRAMES <= g ==> (m.uses[g] == Unused <==> m.counts[g] == 0)
  }

  // ---- tables -----------------------------------------------------------------

  lemma AddTableStep(m: Mem, p: Pid, d: int, f: nat)
    requires Shape(m) && p in m.procs && UserSlot(d) && f < |m.counts| && !Dent(m, p, d).present
    requires forall q, e | HasTable(m, q, e) :: Dent(m, q, e).index != f
    ensures Shape(AddTable(m, p, d, f)) && TableStep(m, AddTable(m, p, d, f), p, d)
  {
    var n := AddTable(m, p, d, f);
    forall q, e, t
      ensures Maps(n, q, e, t) <==> Maps(m, q, e, t)
      ensures Maps(m, q, e, t) && Maps(n, q, e, t) ==> Tent(n, q, e, t) == Tent(m, q, e, t)
    {
      if q in m.procs && UserPage(e, t) && (q != p || e != d) {
        assert Dent(n, q, e) == Dent(m, q, e);
      }
    }
  }

  lemma AddTableBook(m: Mem, p: Pid, d: int, f: nat, g: nat)
    requires Shape(m) && p in m.procs && UserSlot(d) && !Dent(m, p, d).present
    requires FreeFrame(m, f) && m.uses[f] == Unused && Shape(AddTable(m, p, d, f))
    requires g < |m.counts| && FrameFacts(m, g)
    ensures TableBook(m, AddTable(m, p, d, f), p, d, g)
  {
  }

  lemma AddTableInv(m: Mem, p: Pid, d: int, f: nat)
    requires Inv(m) && p in m.procs && UserSlot(d) && !Dent(m, p, d).present && FreeFrame(m, f)
    ensures Inv(AddTable(m, p, d, f)) && TableStep(m, AddTable(m, p, d, f), p, d)
  {
    var n := AddTable(m, p, d, f);
    FreeIsUnnamed(m, f);
    AddTableStep(m, p, d, f);
    ZerosUpdate(m.counts, f, 1);
    forall g | 0 <= g < |m.counts| ensures TableBook(m, n, p, d, g) {
      AddTableBook(m, p, d, f, g);
    }
    TableStepInv(m, n, p, d);
  }

  lemma SplitTableStep(m: Mem, p: Pid, d: int, f: nat)
    requires Shape(m) && HasTable(m, p, d) && m.counts[Dent(m, p, d).index] > 1 && f < |m.counts|
    requires forall q, e | HasTable(m, q, e) :: Dent(m, q, e).index != f
    ensures Shape(SplitTable(m, p, d, f)) && TableStep(m, SplitTable(m, p, d, f), p, d)
  {
    var n := SplitTable(m, p, d, f);
    forall q, e, t
      ensures Maps(n, q, e, t) <==> Maps(m, q, e, t)
      ensures Maps(m, q, e, t) && Maps(n, q, e, t) ==> Tent(n, q, e, t) == Tent(m, q, e, t)
    {
      if q in m.procs && UserPage(e, t) && (q != p || e != d) {
        assert Dent(n, q, e) == Dent(m, q, e);
      }
    }
  }

  lemma SplitTableBook(m: Mem, p: Pid, d: int, f: nat, g: nat)
    requires Shape(m) && HasTable(m, p, d) && m.counts[Dent(m, p, d).index] > 1
    requires KERNEL_FRAMES <= Dent(m, p, d).index && m.uses[Dent(m, p, d).index] == TableOf(d)
    requires FreeFrame(m, f) && m.uses[f] == Unused && Shape(SplitTable(m, p, d, f))
    requires g < |m.counts| && FrameFacts(m, g)
    ensures TableBook(m, SplitTable(m, p, d, f), p, d, g)
  {
  }

  lemma SplitTableInv(m: Mem, p: Pid, d: int, f: nat)
    requires Inv(m) && HasTable(m, p, d) && m.counts[Dent(m, p, d).index] > 1 && FreeFrame(m, f)
    ensures Inv(SplitTable(m, p, d, f)) && TableStep(m, SplitTable(m, p, d, f), p, d)
  {
    var n := SplitTable(m, p, d, f);
    var i := Dent(m, p, d).index;
    FreeIsUnnamed(m, f);
    SplitTableStep(m, p, d, f);
    ZerosUpdate(m.counts, i, m.counts[i] - 1);
    ZerosUpdate(m.counts[i := m.counts[i] - 1], f, 1);
    forall g | 0 <= g < |m.counts| ensures TableBook(m, n, p, d, g) {
      SplitTableBook(m, p, d, f, g);
    }
    TableStepInv(m, n, p, d);
  }

  lemma OwnTableStep(m: Mem, p: Pid, d: int)
    requires Shape(m) && HasTable(m, p, d)
    ensures Shape(OwnTable(m, p, d)) && TableStep(m, OwnTable(m, p, d), p, d)
  {
    var n := OwnTable(m, p, d);
    assert Shape(n);
    forall q, e, t
      ensures Maps(n, q, e, t) <==> Maps(m, q, e, t)
      ensures Maps(m, q, e, t) && Maps(n, q, e, t) ==> Tent(n, q, e, t) == Tent(m, q, e, t)
    {
    }
  }

  lemma OwnTableBook(m: Mem, p: Pid, d: int, g: nat)
    requires Shape(m) && HasTable(m, p, d) && m.counts[Dent(m, p, d).index] == 1
    requires KERNEL_FRAMES <= Dent(m, p, d).index && m.uses[Dent(m, p, d).index] == TableOf(d)
    requires Shape(OwnTable(m, p, d)) && g < |m.counts| && FrameFacts(m, g)
    ensures TableBook(m, OwnTable(m, p, d), p, d, g)
  {
  }

  lemma OwnTableInv(m: Mem, p: Pid, d: int)
    requires Inv(m) && HasTable(m, p, d) && m.counts[Dent(m, p, d).index] == 1
    ensures Inv(OwnTable(m, p, d)) && TableStep(m, OwnTable(m, p, d), p, d)
  {
    var n := OwnTable(m, p, d);
    OwnTableStep(m, p, d);
    forall g | 0 <= g < |m.counts| ensures TableBook(m, n, p, d, g) {
      OwnTableBook(m, p, d, g);
    }
    TableStepInv(m, n, p, d);
  }

  // ---- pages ------------------------------------------------------------------

  /** The table of slot d is named by this directory entry alone. */
  ghost predicate SoleTable(m: Mem, p: Pid, d: int)
    requires Shape(m) && HasTable(m, p, d)
  {
    forall q, e | HasTable(m, q, e) && Dent(m, q, e).index == Dent(m, p, d).index :: q == p && e == d
  }

  /** Writing one entry of a table that only (p, d) names. */
  lemma SetTentStep(m: Mem, n: Mem, p: Pid, d: int, t: int, e: Entry)
    requires Shape(m) && HasTable(m, p, d) && UserPage(d, t) && SoleTable(m, p, d)
    requires Shape(n) && n.procs == m.procs && |n.counts| == |m.counts|
    requires n.tables == m.tables[Dent(m, p, d).index := m.tables[Dent(m, p, d).index][t := e]]
    requires e.present ==> e.index < |m.counts|
    ensures PageStep(m, n, p, d, t)
    ensures Tent(n, p, d, t) == e && (Maps(n, p, d, t) <==> e.present)
  {
    forall q, c, s | q != p || c != d || s != t
      ensures Maps(n, q, c, s) <==> Maps(m, q, c, s)
      ensures Maps(m, q, c, s) && Maps(n, q, c, s) ==> Tent(n, q, c, s) == Tent(m, q, c, s)
    {
      if q in m.procs && UserPage(c, s) && HasTable(m, q, c) {
        assert Dent(n, q, c) == Dent(m, q, c);
        if Dent(m, q, c).index == Dent(m, p, d).index {
          assert q == p && c == d;
        }
      }
    }
  }

  lemma AddPageBook(m: Mem, p: Pid, d: int, t: int, f: nat, g: nat)
    requires Shape(m) && HasTable(m, p, d) && UserPage(d, t) && !Maps(m, p, d, t)
    requires FreeFrame(m, f) && m.uses[f] == Unused
    requires Shape(AddPage(m, p, d, t, f)) && Tent(AddPage(m, p, d, t, f), p, d, t) == FreshEntry(f)
    requires g < |m.counts| && FrameFacts(m, g)
    ensures PageBook(m, AddPage(m, p, d, t, f), p, d, t, g)
  {
  }

  lemma AddPageInv(m: Mem, p: Pid, d: int, t: int, f: nat)
    requires Inv(m) && HasTable(m, p, d) && Dent(m, p, d).write && UserPage(d, t) && !Maps(m, p, d, t)
    requires FreeFrame(m, f)
    ensures Inv(AddPage(m, p, d, t, f)) && PageStep(m, AddPage(m, p, d, t, f), p, d, t)
    ensures Maps(AddPage(m, p, d, t, f), p, d, t) && Tent(AddPage(m, p, d, t, f), p, d, t) == FreshEntry(f)
  {
    var n := AddPage(m, p, d, t, f);
    FreeIsUnnamed(m, f);
    OwnedTable(m, p, d);
    SetTentStep(m, n, p, d, t, FreshEntry(f));
    ZerosUpdate(m.counts, f, 1);
    forall g | 0 <= g < |m.counts| ensures PageBook(m, n, p, d, t, g) {
      AddPageBook(m, p, d, t, f, g);
    }
    PageStepInv(m, n, p, d, t);
  }

  lemma DropPageBook(m: Mem, p: Pid, d: int, t: int, g: nat)
    requires Shape(m) && Maps(m, p, d, t) && Walk(m, p, d, t) < |m.counts| && m.counts[Walk(m, p, d, t)] > 0
    requires KERNEL_FRAMES <= Walk(m, p, d, t) && m.uses[Walk(m, p, d, t)] == DataOf(d, t)
    requires Shape(DropPage(m, p, d, t)) && !Maps(DropPage(m, p, d, t), p, d, t)
    requires g < |m.counts| && FrameFacts(m, g)
    ensures PageBook(m, DropPage(m, p, d, t), p, d, t, g)
  {
  }

  /** A mapped page's frame is held. */
  lemma MappedIsHeld(m: Mem, p: Pid, d: int, t: int)
    requires Inv(m) && Maps(m, p, d, t)
    ensures KERNEL_FRAMES <= Walk(m, p, d, t) < |m.counts| && m.counts[Walk(m, p, d, t)] > 0
    ensures m.uses[Walk(m, p, d, t)] == DataOf(d, t)
  {
  }

  lemma DropPageStep(m: Mem, p: Pid, d: int, t: int)
    requires Shape(m) && Maps(m, p, d, t) && SoleTable(m, p, d)
    requires Walk(m, p, d, t) < |m.counts| && m.counts[Walk(m, p, d, t)] > 0
    ensures Shape(DropPage(m, p, d, t)) && PageStep(m, DropPage(m, p, d, t), p, d, t)
    ensures !Maps(DropPage(m, p, d, t), p, d, t)
    ensures FreeAgrees(m) ==> FreeAgrees(DropPage(m, p, d, t))
  {
    var n := DropPage(m, p, d, t);
    var i := Walk(m, p, d, t);
    assert Shape(n);
    SetTentStep(m, n, p, d, t, Tent(m, p, d, t).(present := false));
    ZerosUpdate(m.counts, i, m.counts[i] - 1);
  }

  lemma DropPageInv(m: Mem, p: Pid, d: int, t: int)
    requires Inv(m) && Maps(m, p, d, t) && Dent(m, p, d).write
    requires Walk(m, p, d, t) < |m.counts| && m.counts[Walk(m, p, d, t)] > 0
    ensures Inv(DropPage(m, p, d, t)) && PageStep(m, DropPage(m, p, d, t), p, d, t)
    ensures !Maps(DropPage(m, p, d, t), p, d, t)
  {
    var n := DropPage(m, p, d, t);
    OwnedTable(m, p, d);
    DropPageStep(m, p, d, t);
    MappedIsHeld(m, p, d, t);
    forall g | 0 <= g < |m.counts| ensures PageBook(m, n, p, d, t, g) {
      DropPageBook(m, p, d, t, g);
    }
    PageStepInv(m, n, p, d, t);
  }

  lemma SplitPageBook(m: Mem, p: Pid, d: int, t: int, f: nat, g: nat)
    requires Shape(m) && Maps(m, p, d, t) && !Tent(m, p, d, t).readonly && Walk(m, p, d, t) < |m.counts|
             && m.counts[Walk(m, p, d, t)] > 1
    requires KERNEL_FRAMES <= Walk(m, p, d, t) && m.uses[Walk(m, p, d, t)] == DataOf(d, t)
    requires FreeFrame(m, f) && m.uses[f] == Unused && Shape(SplitPage(m, p, d, t, f))
    requires Tent(SplitPage(m, p, d, t, f), p, d, t) == Tent(m, p, d, t).(index := f, write := true)
    requires g < |m.counts| && FrameFacts(m, g)
    ensures PageBook(m, SplitPage(m, p, d, t, f), p, d, t, g)
  {
  }

  lemma SplitPageStep(m: Mem, p: Pid, d: int, t: int, f: nat)
    requires Shape(m) && Maps(m, p, d, t) && SoleTable(m, p, d) && FreeFrame(m, f)
    requires Walk(m, p, d, t) < |m.counts| && m.counts[Walk(m, p, d, t)] > 1
    ensures Shape(SplitPage(m, p, d, t, f)) && PageStep(m, SplitPage(m, p, d, t, f), p, d, t)
    ensures Maps(SplitPage(m, p, d, t, f), p, d, t)
    ensures Tent(SplitPage(m, p, d, t, f), p, d, t) == Tent(m, p, d, t).(index := f, write := true)
    ensures FreeAgrees(m) ==> FreeAgrees(SplitPage(m, p, d, t, f))
  {
    var n := SplitPage(m, p, d, t, f);
    var i := Walk(m, p, d, t);
    assert Shape(n);
    SetTentStep(m, n, p, d, t, Tent(m, p, d, t).(index := f, write := true));
    ZerosUpdate(m.counts, i, m.counts[i] - 1);
    ZerosUpdate(m.counts[i := m.counts[i] - 1], f, 1);
  }

  lemma SplitPageInv(m: Mem, p: Pid, d: int, t: int, f: nat)
    requires Inv(m) && Maps(m, p, d, t) && Dent(m, p, d).write && !Tent(m, p, d, t).readonly && FreeFrame(m, f)
    requires Walk(m, p, d, t) < |m.counts| && m.counts[Walk(m, p, d, t)] > 1
    ensures Inv(SplitPage(m, p, d, t, f)) && PageStep(m, SplitPage(m, p, d, t, f), p, d, t)
    ensures Maps(SplitPage(m, p, d, t, f), p, d, t)
    ensures Tent(SplitPage(m, p, d, t, f), p, d, t) == Tent(m, p, d, t).(index := f, write := true)
  {
    var n := SplitPage(m, p, d, t, f);
    FreeIsUnnamed(m, f);
    OwnedTable(m, p, d);
    SplitPageStep(m, p, d, t, f);
    MappedIsHeld(m, p, d, t);
    forall g | 0 <= g < |m.counts| ensures PageBook(m, n, p, d, t, g) {
      SplitPageBook(m, p, d, t, f, g);
    }
    PageStepInv(m, n, p, d, t);
  }

  lemma FlagPageBook(m: Mem, p: Pid, d: int, t: int, write: bool, readonly: bool, g: nat)
    requires Shape(m) && Maps(m, p, d, t) && Walk(m, p, d, t) < |m.counts|
    requires write ==> m.counts[Walk(m, p, d, t)] == 1 && !readonly
    requires KERNEL_FRAMES <= Walk(m, p, d, t) && m.uses[Walk(m, p, d, t)] == DataOf(d, t)
    requires Shape(FlagPage(m, p, d, t, write, readonly))
    requires Tent(FlagPage(m, p, d, t, write, readonly), p, d, t)
          == Tent(m, p, d, t).(write := write, readonly := readonly)
    requires g < |m.counts| && FrameFacts(m, g)
    ensures PageBook(m, FlagPage(m, p, d, t, write, readonly), p, d, t, g)
  {
  }

  lemma FlagPageInv(m: Mem, p: Pid, d: int, t: int, write: bool, readonly: bool)
    requires Inv(m) && Maps(m, p, d, t) && Dent(m, p, d).write && Walk(m, p, d, t) < |m.counts|
    requires write ==> m.counts[Walk(m, p, d, t)] == 1 && !readonly
    ensures Inv(FlagPage(m, p, d, t, write, readonly))
    ensures PageStep(m, FlagPage(m, p, d, t, write, readonly), p, d, t)
    ensures Maps(FlagPage(m, p, d, t, write, readonly), p, d, t)
    ensures Tent(FlagPage(m, p, d, t, write, readonly), p, d, t)
         == Tent(m, p, d, t).(write := write, readonly := readonly)
  {
    var n := FlagPage(m, p, d, t, write, readonly);
    OwnedTable(m, p, d);
    MappedIsHeld(m, p, d, t);
    SetTentStep(m, n, p, d, t, Tent(m, p, d, t).(write := write, readonly := readonly));
    forall g | 0 <= g < |m.counts| ensures PageBook(m, n, p, d, t, g) {
      FlagPageBook(m, p, d, t, write, readonly, g);
    }
    PageStepInv(m, n, p, d, t);
  }
}
