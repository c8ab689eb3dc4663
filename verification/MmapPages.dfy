/** sys_mmap: what mapping one page does to the address spaces, over an absent
    page and over one that is already mapped. */
module MmapPages {
  import opened Prelude
  import opened PageTables
  import opened PageTableProofs
  import opened PageUpdates
  import opened PageOps
  import opened CowRefinement

  function ZeroPage(): Page { seq(PAGE_SIZE, i => 0 as bv8) }

  /** New brk and vmap for process p. */
  function SetProc(m: Mem, p: Pid, brk: int, vmap: set<VPage>): Mem
    requires p in m.procs
  {
    m.(procs := m.procs[p := m.procs[p].(brk := brk, vmap := vmap)])
  }

  lemma SetProcInv(m: Mem, p: Pid, brk: int, vmap: set<VPage>)
    requires Inv(m) && p in m.procs
    ensures Inv(SetProc(m, p, brk, vmap)) && SameViews(m, SetProc(m, p, brk, vmap))
    ensures forall q, e, s :: Maps(SetProc(m, p, brk, vmap), q, e, s) <==> Maps(m, q, e, s)
  {
    hide Roles, Exact, Exclusive, View, Maps;
    var n := SetProc(m, p, brk, vmap);
    assert Shape(n);
    SameWiringInv(m, n);
    SameWiringMaps(m, n);
    SameWiringViews(m, n);
  }

  /** sys_mmap on a linked page: clear it in kernel mode (which does not fault
      on a read-only mapping), set the vmap bit and the protection. */
  ghost function Fill(m: Mem, p: Pid, v: VPage, writable: bool): Mem
    requires Inv(m) && Maps(m, p, v.d, v.t)
  {
    MappedIsHeld(m, p, v.d, v.t);
    var n2 := Overwrite(m, Walk(m, p, v.d, v.t), ZeroPage());
    SetProcInv(n2, p, n2.procs[p].brk, n2.procs[p].vmap + {v});
    var n3 := SetProc(n2, p, n2.procs[p].brk, n2.procs[p].vmap + {v});
    FlagPage(n3, p, v.d, v.t, writable, !writable)
  }

  lemma FillSole(m: Mem, p: Pid, v: VPage, writable: bool)
    requires Inv(m) && Maps(m, p, v.d, v.t) && Dent(m, p, v.d).write
    requires Walk(m, p, v.d, v.t) < |m.counts| && m.counts[Walk(m, p, v.d, v.t)] == 1
    ensures var n := Fill(m, p, v, writable);
            && Inv(n) && OthersSame(m, n, p) && p in m.procs
            && View(n, p) == View(m, p)[v := Content(ZeroPage(), !writable)]
  {
    hide Roles, Exact, Exclusive, View;
    MappedIsHeld(m, p, v.d, v.t);
    OverwriteViews(m, p, v.d, v.t, ZeroPage());
    var n2 := Overwrite(m, Walk(m, p, v.d, v.t), ZeroPage());
    SetProcInv(n2, p, n2.procs[p].brk, n2.procs[p].vmap + {v});
    var n3 := SetProc(n2, p, n2.procs[p].brk, n2.procs[p].vmap + {v});
    assert Walk(n3, p, v.d, v.t) == Walk(m, p, v.d, v.t);
    FlagPageInv(n3, p, v.d, v.t, writable, !writable);
    FlagPageViews(n3, p, v.d, v.t, writable, !writable);
  }

  /** One page of sys_mmap. */
  ghost function MapPage(m: Mem, p: Pid, v: VPage, writable: bool): (r: Option<Mem>)
    requires Inv(m) && p in m.procs && UserPage(v.d, v.t)
  {
    var r1 := LinkPage(m, p, v.d, v.t);
    if r1.None? then None else Some(Fill(r1.value, p, v, writable))
  }

  /** On an absent page sys_mmap gives a zero page of the process's own. */
  lemma MapAbsent(m: Mem, p: Pid, v: VPage, writable: bool)
    requires Inv(m) && p in m.procs && UserPage(v.d, v.t) && !Maps(m, p, v.d, v.t)
    requires MapPage(m, p, v, writable).Some?
    ensures var n := MapPage(m, p, v, writable).value;
            && Inv(n) && OthersSame(m, n, p)
            && View(n, p) == View(m, p)[v := Content(ZeroPage(), !writable)]
  {
    hide Roles, Exact, View, Fill;
    var k := LinkPage(m, p, v.d, v.t).value;
    var junk := LinkPageViews(m, p, v.d, v.t);
    FillSole(k, p, v, writable);
    InView(m, p, v.d, v.t);
  }

  // ---- sys_mmap over a page that is already there --------------------------------------

  /** The states inside Fill differ from m only in the frame's contents and vmap. */
  lemma FillStart(m: Mem, p: Pid, v: VPage, writable: bool) returns (n3: Mem)
    requires Inv(m) && Maps(m, p, v.d, v.t)
    ensures Inv(n3) && SameWiring(m, n3) && Maps(n3, p, v.d, v.t)
    ensures Walk(m, p, v.d, v.t) < |m.pages| && n3.pages == m.pages[Walk(m, p, v.d, v.t) := ZeroPage()]
    ensures Fill(m, p, v, writable) == FlagPage(n3, p, v.d, v.t, writable, !writable)
  {
    hide Roles, Exact, Exclusive, View;
    MappedIsHeld(m, p, v.d, v.t);
    var n2 := Overwrite(m, Walk(m, p, v.d, v.t), ZeroPage());
    SetProcInv(n2, p, n2.procs[p].brk, n2.procs[p].vmap + {v});
    n3 := SetProc(n2, p, n2.procs[p].brk, n2.procs[p].vmap + {v});
  }

  /** Protection aside, process q reads zeros where its page was shared. */
  lemma FillSeenElsewhere(m: Mem, p: Pid, v: VPage, writable: bool, q: Pid)
    requires Inv(m) && Maps(m, p, v.d, v.t) && Dent(m, p, v.d).write && q != p
    requires Maps(m, q, v.d, v.t) && Walk(m, q, v.d, v.t) == Walk(m, p, v.d, v.t)
    ensures var n := Fill(m, p, v, writable);
            Shape(n) && Maps(n, q, v.d, v.t) && ContentAt(n, q, v).bytes == ZeroPage()
  {
    hide Roles, Exact, Exclusive, View, Fill;
    var n3 := FillStart(m, p, v, writable);
    SameWiringMaps(m, n3);
    OwnedTable(n3, p, v.d);
    SetTentStep(n3, Fill(m, p, v, writable), p, v.d, v.t,
                Tent(n3, p, v.d, v.t).(write := writable, readonly := !writable));
  }

  lemma SecondHolder(m: Mem, p: Pid, v: VPage) returns (q: Pid)
    requires Inv(m) && Maps(m, p, v.d, v.t)
    requires Walk(m, p, v.d, v.t) < |m.counts| && m.counts[Walk(m, p, v.d, v.t)] > 1
    ensures q != p && Maps(m, q, v.d, v.t) && Walk(m, q, v.d, v.t) == Walk(m, p, v.d, v.t)
  {
    var h := Holders(m, Walk(m, p, v.d, v.t));
    assert p in h;
    assert |h - {p}| > 0;
    q :| q in h - {p};
  }

  lemma FlagUnsafe(m: Mem, p: Pid, v: VPage)
    requires Shape(m) && Maps(m, p, v.d, v.t) && Walk(m, p, v.d, v.t) < |m.counts|
    requires m.counts[Walk(m, p, v.d, v.t)] != 1
    ensures !Inv(FlagPage(m, p, v.d, v.t, true, false))
  {
    hide Roles, Exact;
    var n := FlagPage(m, p, v.d, v.t, true, false);
    assert Shape(n) ==> Maps(n, p, v.d, v.t) && Tent(n, p, v.d, v.t).write;
  }

  lemma FillKeepsInv(m: Mem, p: Pid, v: VPage, writable: bool)
    requires Inv(m) && Maps(m, p, v.d, v.t) && Dent(m, p, v.d).write
    requires Walk(m, p, v.d, v.t) < |m.counts|
    ensures Inv(Fill(m, p, v, writable)) <==> !writable || m.counts[Walk(m, p, v.d, v.t)] == 1
  {
    hide Roles, Exact, Exclusive, View, Fill;
    var n3 := FillStart(m, p, v, writable);
    SameWiringMaps(m, n3);
    if !writable || m.counts[Walk(m, p, v.d, v.t)] == 1 {
      FlagPageInv(n3, p, v.d, v.t, writable, !writable);
    } else {
      FlagUnsafe(n3, p, v);
    }
  }

  lemma FillOthers(m: Mem, p: Pid, v: VPage, writable: bool)
    requires Inv(m) && Maps(m, p, v.d, v.t) && Dent(m, p, v.d).write
    requires Walk(m, p, v.d, v.t) < |m.counts|
    ensures Shape(Fill(m, p, v, writable))
    ensures OthersSame(m, Fill(m, p, v, writable), p)
            <==> m.counts[Walk(m, p, v.d, v.t)] == 1 || m.pages[Walk(m, p, v.d, v.t)] == ZeroPage()
  {
    hide Roles, Exact, Exclusive, View, Fill;
    var f := Walk(m, p, v.d, v.t);
    var n := Fill(m, p, v, writable);
    var n3 := FillStart(m, p, v, writable);
    MappedIsHeld(m, p, v.d, v.t);
    OwnedTable(n3, p, v.d);
    SetTentStep(n3, n, p, v.d, v.t, Tent(n3, p, v.d, v.t).(write := writable, readonly := !writable));
    if m.counts[f] == 1 {
      FillSole(m, p, v, writable);
    } else if m.pages[f] == ZeroPage() {
      assert n3.pages == m.pages;
      SameWiringViews(m, n3);
      PageStepReads(n3, n, p, v.d, v.t);
      PageStepOthers(n3, n, p, v.d, v.t);
    } else {
      var q := SecondHolder(m, p, v);
      FillSeenElsewhere(m, p, v, writable, q);
      InView(m, q, v.d, v.t);
      InView(n, q, v.d, v.t);
    }
  }

  /** Private tables aside, LinkPage on a present page changes nothing. */
  lemma LinkPresent(m: Mem, p: Pid, v: VPage)
    requires Inv(m) && Maps(m, p, v.d, v.t) && LinkPage(m, p, v.d, v.t).Some?
    requires Walk(m, p, v.d, v.t) < |m.counts|
    ensures var k := LinkPage(m, p, v.d, v.t).value; var f := Walk(m, p, v.d, v.t);
            && SameViews(m, k) && Dent(k, p, v.d).write && k.pages == m.pages
            && Walk(k, p, v.d, v.t) == f && f < |k.counts| && k.counts[f] == m.counts[f]
  {
    hide Exclusive, View;
    EntryPrivateViews(m, p, v.d);
    var k := LinkPage(m, p, v.d, v.t).value;
    var f := Walk(m, p, v.d, v.t);
    assert k.uses[f] == m.uses[f] == DataOf(v.d, v.t);
    TableStepHolders(m, k, p, v.d, f);
  }

  /** Over a page that is already mapped, sys_mmap leaves the other processes
      alone exactly when nobody shares the page or it is zero already, and keeps
      the invariant exactly when the page is not shared or not made writable. */
  lemma MapPresent(m: Mem, p: Pid, v: VPage, writable: bool)
    requires Inv(m) && Maps(m, p, v.d, v.t) && MapPage(m, p, v, writable).Some?
    requires Walk(m, p, v.d, v.t) < |m.counts|
    ensures var n := MapPage(m, p, v, writable).value; var f := Walk(m, p, v.d, v.t);
            && Shape(n)
            && (OthersSame(m, n, p) <==> m.counts[f] == 1 || m.pages[f] == ZeroPage())
            && (Inv(n) <==> m.counts[f] == 1 || !writable)
  {
    hide Roles, Exact, Exclusive, View, Fill;
    LinkPresent(m, p, v);
    var k := LinkPage(m, p, v.d, v.t).value;
    FillOthers(k, p, v, writable);
    FillKeepsInv(k, p, v, writable);
  }

  /** The page is absent, or nobody shares it, or it is zero and stays so: by MapPresent, exactly
      when mapping it is safe. */
  ghost predicate Mappable(m: Mem, p: Pid, v: VPage, writable: bool)
    requires Shape(m)
  {
    Maps(m, p, v.d, v.t) ==>
      var f := Walk(m, p, v.d, v.t);
      f < |m.counts| && (m.counts[f] == 1 || (!writable && m.pages[f] == ZeroPage()))
  }

  lemma FillZero(m: Mem, p: Pid, v: VPage)
    requires Inv(m) && Maps(m, p, v.d, v.t) && Dent(m, p, v.d).write
    requires Walk(m, p, v.d, v.t) < |m.counts| && m.pages[Walk(m, p, v.d, v.t)] == ZeroPage()
    ensures var n := Fill(m, p, v, false);
            && Inv(n) && OthersSame(m, n, p) && p in m.procs
            && View(n, p) == View(m, p)[v := Content(ZeroPage(), true)]
  {
    hide Roles, Exact, Exclusive, View, Fill;
    var n3 := FillStart(m, p, v, false);
    SameWiringMaps(m, n3);
    assert n3.pages == m.pages;
    SameWiringViews(m, n3);
    FlagPageInv(n3, p, v.d, v.t, false, true);
    FlagPageViews(n3, p, v.d, v.t, false, true);
  }

  /** Then the process has a zero page there, and that is all that happens. */
  lemma MapSafe(m: Mem, p: Pid, v: VPage, writable: bool)
    requires Inv(m) && p in m.procs && UserPage(v.d, v.t) && Mappable(m, p, v, writable)
    requires MapPage(m, p, v, writable).Some?
    ensures var n := MapPage(m, p, v, writable).value;
            && Inv(n) && OthersSame(m, n, p)
            && View(n, p) == View(m, p)[v := Content(ZeroPage(), !writable)]
  {
    hide Roles, Exact, Exclusive, View, Fill, ZeroPage;
    if Maps(m, p, v.d, v.t) {
      LinkPresent(m, p, v);
      var k := LinkPage(m, p, v.d, v.t).value;
      if m.counts[Walk(m, p, v.d, v.t)] == 1 {
        FillSole(k, p, v, writable);
      } else {
        FillZero(k, p, v);
      }
    } else {
      MapAbsent(m, p, v, writable);
    }
  }
}
