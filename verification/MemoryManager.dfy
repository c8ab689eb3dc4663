/**
 memory.c as the kernel runs it: one object whose methods update memory_map,
 free_pages, the directories and the tables in place.  Each method does to the
 state what the function of the same name in PageTables or PageOps says; a false
 `ok` is the panic for lack of a free frame.
 */
module MemoryManager {
  import opened Prelude
  import opened PageTables
  import opened PageTableProofs
  import opened PageUpdates
  import opened PageFork
  import opened PageOps
  import opened PageLoops
  import opened CowRefinement
  import opened MmapPages
  import opened CowMachine
  import opened RefCounts

  datatype Verdict = Resumed | Exited | Panicked

  /** The virtual page with a given page number: DIDX and TIDX of its address. */
  function PageAt(k: nat): VPage { VPage(k / ENTRIES, k % ENTRIES) }

  /** The pages of s whose numbers are not in lo..hi. */
  ghost function Without(s: Space, lo: int, hi: int): Space {
    map v | v in s && !(lo <= PageNumber(v) < hi) :: s[v]
  }

  /** s with zero pages at the page numbers lo..hi. */
  ghost function WithZeros(s: Space, lo: nat, hi: nat, readonly: bool): Space
    requires lo <= hi
    decreases hi
  {
    if lo == hi then s else WithZeros(s, lo, hi - 1, readonly)[PageAt(hi - 1) := Content(ZeroPage(), readonly)]
  }

  lemma WithoutNext(s: Space, lo: int, k: nat)
    requires lo <= k && forall v | v in s :: UserPage(v.d, v.t)
    ensures Without(s, lo, k) - {PageAt(k)} == Without(s, lo, k + 1)
  {
    forall v | v in s ensures PageNumber(v) == k <==> v == PageAt(k) {
    }
  }

  lemma ViewPages(m: Mem, p: Pid)
    requires Shape(m)
    ensures forall v | v in View(m, p) :: UserPage(v.d, v.t)
  {
  }

  // ---- what the system calls do, page by page -----------------------------------------

  ghost function MapEvents(p: Pid, k: nat, hi: nat, writable: bool): seq<Event>
    decreases hi - k
  {
    if k >= hi then [] else [Map(p, PageAt(k), writable)] + MapEvents(p, k + 1, hi, writable)
  }

  ghost function UnmapEvents(p: Pid, k: nat, hi: nat): seq<Event>
    decreases hi - k
  {
    if k >= hi then [] else [Unmap(p, PageAt(k))] + UnmapEvents(p, k + 1, hi)
  }

  ghost function TrimEvents(p: Pid, k: nat, hi: int): seq<Event>
    decreases hi - k
  {
    if k >= hi then [] else [Trim(p, PageAt(k))] + TrimEvents(p, k + 1, hi)
  }

  lemma RunFirst(m: Mem, e: Event, es: seq<Event>)
    requires Good(m) && Legal(m, e)
    ensures Run(m, [e] + es) == if Step(m, e).Panic? then None else Run(Step(m, e).m, es)
  {
    hide Good, Legal, Step;
    assert ([e] + es)[1..] == es;
  }

  lemma {:induction false} RunAppend(m: Mem, a: seq<Event>, b: seq<Event>)
    ensures Run(m, a + b) == if Run(m, a).None? then None else Run(Run(m, a).value, b)
    decreases |a|
  {
    hide Good, Legal, Step;
    if a == [] {
      assert a + b == b;
    } else {
      assert (a + b)[1..] == a[1..] + b;
      if Good(m) && Legal(m, a[0]) && !Step(m, a[0]).Panic? {
        RunAppend(Step(m, a[0]).m, a[1..], b);
      }
    }
  }

  lemma MapRun(m: Mem, p: Pid, k: nat, hi: nat, writable: bool)
    requires Good(m) && p in m.procs && MMAP_FIRST <= k < hi <= MMAP_END && Mappable(m, p, PageAt(k), writable)
    ensures UserPage(PageAt(k).d, PageAt(k).t)
    ensures var r := MapPage(m, p, PageAt(k), writable);
            Run(m, MapEvents(p, k, hi, writable)) ==
            if r.None? then None else Run(r.value, MapEvents(p, k + 1, hi, writable))
  {
    hide Run, MapPage, Roles, Exact, Exclusive, Placed, Mappable;
    assert PageNumber(PageAt(k)) == k;
    RunFirst(m, Map(p, PageAt(k), writable), MapEvents(p, k + 1, hi, writable));
  }

  /** No page of the range is shared in a way that mapping over it would show. */
  ghost predicate Cleanly(m: Mem, p: Pid, k: nat, hi: nat, writable: bool)
    decreases hi - k
  {
    k < hi ==>
      && Good(m) && p in m.procs && UserPage(PageAt(k).d, PageAt(k).t) && Mappable(m, p, PageAt(k), writable)
      && (MapPage(m, p, PageAt(k), writable).Some? ==>
            Cleanly(MapPage(m, p, PageAt(k), writable).value, p, k + 1, hi, writable))
  }

  /** A range that scan_page chose is such a range. */
  lemma {:induction false} ScannedCleanly(m: Mem, p: Pid, k: nat, hi: nat, writable: bool)
    requires Good(m) && p in m.procs && MMAP_FIRST <= k && hi <= MMAP_END
    requires forall i: nat | k <= i < hi :: PageAt(i) !in m.procs[p].vmap
    ensures Cleanly(m, p, k, hi, writable)
    decreases hi - k
  {
    hide Roles, Exact, Exclusive, Placed, Mappable, MapPage, View;
    if k < hi {
      var v := PageAt(k);
      assert PageNumber(v) == k && UserPage(v.d, v.t);
      ScannedMappable(m, p, v, writable);
      if MapPage(m, p, v, writable).Some? {
        MapRefines(m, p, v, writable);
        MapMeta(m, p, v, writable);
        ScannedCleanly(MapPage(m, p, v, writable).value, p, k + 1, hi, writable);
      }
    }
  }

  lemma CleanPage(m: Mem, p: Pid, k: nat, hi: nat, writable: bool)
    requires Good(m) && p in m.procs && k < hi && Cleanly(m, p, k, hi, writable)
    ensures UserPage(PageAt(k).d, PageAt(k).t) && Mappable(m, p, PageAt(k), writable)
    ensures MapPage(m, p, PageAt(k), writable).Some? ==>
              Cleanly(MapPage(m, p, PageAt(k), writable).value, p, k + 1, hi, writable)
  {
    hide Good, Mappable, MapPage;
  }

  lemma UnmapRun(m: Mem, p: Pid, k: nat, hi: nat)
    requires Good(m) && p in m.procs && MMAP_FIRST <= k < hi <= MMAP_END
    ensures UserPage(PageAt(k).d, PageAt(k).t)
    ensures var o := UnmapPage(m, p, PageAt(k));
            Run(m, UnmapEvents(p, k, hi)) == if o.Panic? then None else Run(o.m, UnmapEvents(p, k + 1, hi))
  {
    hide Good, Run, UnmapPage;
    assert PageNumber(PageAt(k)) == k;
    RunFirst(m, Unmap(p, PageAt(k)), UnmapEvents(p, k + 1, hi));
  }

  lemma TrimRun(m: Mem, p: Pid, k: nat, hi: int)
    requires Good(m) && p in m.procs && FIRST_SLOT * ENTRIES <= k < MMAP_FIRST && k < hi
    ensures UserPage(PageAt(k).d, PageAt(k).t)
    ensures var r := PageOps.UnlinkPage(m, p, PageAt(k).d, PageAt(k).t);
            Run(m, TrimEvents(p, k, hi)) == if r.None? then None else Run(r.value, TrimEvents(p, k + 1, hi))
  {
    hide Good, Run, PageOps.UnlinkPage;
    assert PageNumber(PageAt(k)) == k;
    RunFirst(m, Trim(p, PageAt(k)), TrimEvents(p, k + 1, hi));
  }

  class Memory {
    var memoryMap: array<nat>
    var freePages: int
    var procs: map<Pid, Proc>
    var tables: seq<seq<Entry>>
    var pages: seq<Page>
    ghost var uses: seq<Use>

    ghost function S(): Mem
      reads this, memoryMap
    {
      Mem(memoryMap[..], freePages, procs, tables, pages, uses)
    }

    /** get_page */
    method GetPage(ghost use: Use) returns (r: Option<nat>)
      requires Inv(S())
      modifies this`freePages, this`uses, memoryMap
      ensures r == PageTables.GetPage(old(S()))
      ensures r.None? ==> S() == old(S())
      ensures r.Some? ==> FreeFrame(old(S()), r.value) && S() == Take(old(S()), r.value, use)
    {
      hide Roles, Exact, Exclusive;
      GetPageFrame(S());
      ghost var m := S();
      var total := memoryMap.Length;
      var i := LOW_FRAMES + (total + PAGE_SIZE - 1) / PAGE_SIZE;
      while i < total
        invariant StartPage(total) <= i <= total
        invariant FirstFree(m.counts, StartPage(total)) == FirstFree(m.counts, i)
        invariant S() == m
      {
        if memoryMap[i] == 0 {
          memoryMap[i] := 1;
          assert freePages > 0;
          freePages := freePages - 1;
          uses := uses[i := use];
          assert memoryMap[..] == m.counts[i := 1];
          return Some(i);
        }
        i := i + 1;
      }
      return None;
    }

    /** put_page */
    method PutPage(f: nat)
      requires f < memoryMap.Length == |uses| && memoryMap[f] > 0
      requires StartPage(memoryMap.Length) <= f
      requires 0 < PageTables.PutPage(S(), f).free < memoryMap.Length
      modifies this`freePages, this`uses, memoryMap
      ensures S() == PageTables.PutPage(old(S()), f)
    {
      ghost var m := S();
      memoryMap[f] := memoryMap[f] - 1;
      assert memoryMap[..] == m.counts[f := m.counts[f] - 1];
      if memoryMap[f] == 0 {
        freePages := freePages + 1;
        uses := uses[f := Unused];
      }
      assert 0 < freePages < memoryMap.Length;
    }

    method SetDent(p: Pid, d: nat, e: Entry)
      requires p in procs && d < |procs[p].dir|
      modifies this`procs
      ensures S() == PageTables.SetDent(old(S()), p, d, e)
    {
      procs := procs[p := procs[p].(dir := procs[p].dir[d := e])];
    }

    method SetTent(f: nat, t: nat, e: Entry)
      requires f < |tables| && t < |tables[f]|
      modifies this`tables
      ensures S() == PageTables.SetTent(old(S()), f, t, e)
    {
      tables := tables[f := tables[f][t := e]];
    }

    /** get_pte with create, on an absent directory entry. */
    method CreateTable(p: Pid, d: nat) returns (r: Option<nat>)
      requires Inv(S()) && p in procs && UserSlot(d) && !Dent(S(), p, d).present
      modifies this, memoryMap
      ensures memoryMap == old(memoryMap) && r == PageTables.GetPage(old(S()))
      ensures r.None? ==> S() == old(S())
      ensures r.Some? ==> FreeFrame(old(S()), r.value) && S() == AddTable(old(S()), p, d, r.value)
    {
      hide Roles, Exact, Exclusive, FirstFree;
      r := GetPage(TableOf(d));
      if r.Some? {
        SetDent(p, d, FreshEntry(r.value));
        tables := tables[r.value := BlankTable()];
      }
    }

    /** The copying half of get_entry_private. */
    method CopyTable(p: Pid, d: nat) returns (r: Option<nat>)
      requires Inv(S()) && HasTable(S(), p, d) && memoryMap[Dent(S(), p, d).index] > 1
      modifies this, memoryMap
      ensures memoryMap == old(memoryMap) && r == PageTables.GetPage(old(S()))
      ensures r.None? ==> S() == old(S())
      ensures r.Some? ==> FreeFrame(old(S()), r.value) && S() == SplitTable(old(S()), p, d, r.value)
    {
      hide Roles, Exact, Exclusive, FirstFree;
      ghost var m := S();
      var e := procs[p].dir[d];
      r := GetPage(TableOf(d));
      if r.Some? {
        tables := tables[r.value := tables[e.index]];
        memoryMap[e.index] := memoryMap[e.index] - 1;
        assert memoryMap[..] == m.counts[e.index := m.counts[e.index] - 1][r.value := 1];
        SetDent(p, d, e.(index := r.value, write := true));
      }
    }

    /** get_entry_private: slot d's table becomes p's own, created if absent and
        copied if shared. */
    method GetEntryPrivate(p: Pid, d: nat) returns (ok: bool)
      requires Inv(S()) && p in procs && UserSlot(d)
      modifies this, memoryMap
      ensures memoryMap == old(memoryMap)
      ensures ok <==> EntryPrivate(old(S()), p, d).Some?
      ensures S() == if ok then EntryPrivate(old(S()), p, d).value else old(S())
    {
      hide Exclusive, TableStep, FirstFree, AddTable, SplitTable;
      var e := procs[p].dir[d];
      if !e.present {
        var r := CreateTable(p, d);
        return r.Some?;
      }
      if !e.write {
        assert p in Holders(S(), e.index);
        if memoryMap[e.index] > 1 {
          var r := CopyTable(p, d);
          return r.Some?;
        }
        SetDent(p, d, e.(write := true));
      }
      return true;
    }

    /** link_page */
    method LinkPage(p: Pid, v: VPage) returns (ok: bool)
      requires Inv(S()) && p in procs && UserPage(v.d, v.t)
      modifies this, memoryMap
      ensures memoryMap == old(memoryMap)
      ensures ok <==> PageOps.LinkPage(old(S()), p, v.d, v.t).Some?
      ensures ok ==> S() == PageOps.LinkPage(old(S()), p, v.d, v.t).value
    {
      hide Roles, Exact, Exclusive, TableStep, FirstFree, EntryPrivate;
      ok := GetEntryPrivate(p, v.d);
      if !ok { return; }
      var table := procs[p].dir[v.d].index;
      if tables[table][v.t].present { return; }
      var r := GetPage(DataOf(v.d, v.t));
      if r.None? { return false; }
      SetTent(table, v.t, FreshEntry(r.value));
    }

    /** unlink_page */
    method UnlinkPage(p: Pid, v: VPage) returns (ok: bool)
      requires Inv(S()) && p in procs && UserPage(v.d, v.t)
      modifies this, memoryMap
      ensures memoryMap == old(memoryMap)
      ensures ok <==> PageOps.UnlinkPage(old(S()), p, v.d, v.t).Some?
      ensures ok ==> S() == PageOps.UnlinkPage(old(S()), p, v.d, v.t).value
    {
      hide Exact, Exclusive, TableStep, FirstFree, EntryPrivate;
      if !procs[p].dir[v.d].present { return true; }
      ok := GetEntryPrivate(p, v.d);
      if !ok { return; }
      var table := procs[p].dir[v.d].index;
      var e := tables[table][v.t];
      if !e.present { return; }
      ghost var m := S();
      MappedIsHeld(m, p, v.d, v.t);
      FreePagesInBounds(UnlinkPrivate(m, p, v.d, v.t));
      SetTent(table, v.t, e.(present := false));
      PutPage(e.index);
    }

    /** The copying half of copy_on_write. */
    method CopyFrame(p: Pid, v: VPage) returns (r: Option<nat>)
      requires Inv(S()) && Maps(S(), p, v.d, v.t)
      requires Walk(S(), p, v.d, v.t) < memoryMap.Length && memoryMap[Walk(S(), p, v.d, v.t)] > 1
      modifies this, memoryMap
      ensures memoryMap == old(memoryMap) && r == PageTables.GetPage(old(S()))
      ensures r.None? ==> S() == old(S())
      ensures r.Some? ==> FreeFrame(old(S()), r.value) && S() == SplitPage(old(S()), p, v.d, v.t, r.value)
    {
      hide Roles, Exact, Exclusive, FirstFree;
      ghost var m := S();
      var table := procs[p].dir[v.d].index;
      var e := tables[table][v.t];
      r := GetPage(DataOf(v.d, v.t));
      if r.Some? {
        pages := pages[r.value := pages[e.index]];
        memoryMap[e.index] := memoryMap[e.index] - 1;
        assert memoryMap[..] == m.counts[e.index := m.counts[e.index] - 1][r.value := 1];
        SetTent(table, v.t, e.(index := r.value, write := true));
      }
    }

    /** copy_on_write */
    method CopyOnWrite(p: Pid, v: VPage) returns (ok: bool)
      requires Inv(S()) && Maps(S(), p, v.d, v.t) && !Tent(S(), p, v.d, v.t).readonly
      modifies this, memoryMap
      ensures memoryMap == old(memoryMap)
      ensures ok <==> PageOps.CopyOnWrite(old(S()), p, v.d, v.t).Some?
      ensures ok ==> S() == PageOps.CopyOnWrite(old(S()), p, v.d, v.t).value
      ensures ok <==> CowFits(old(S()), p, v.d, v.t)
    {
      hide CowFits;
      hide Roles, Exact, Exclusive, TableStep, FirstFree, EntryPrivate;
      CowFailsExactly(S(), p, v.d, v.t);
      ok := GetEntryPrivate(p, v.d);
      if !ok { return; }
      ghost var m := S();
      PrivatizedSees(old(S()), m, p, v.d, v.t);
      MappedIsHeld(m, p, v.d, v.t);
      var table := procs[p].dir[v.d].index;
      var e := tables[table][v.t];
      if e.write { return; }
      if memoryMap[e.index] == 1 {
        SetTent(table, v.t, e.(write := true));
        assert S() == FlagPage(m, p, v.d, v.t, true, false);
        return;
      }
      var r := CopyFrame(p, v);
      ok := r.Some?;
    }

    /** copy_pde, which task_fork calls for child c of the running process p. */
    method CopyPde(p: Pid, c: Pid)
      requires Inv(S()) && p in procs && c !in procs && |procs| < TASK_NR
      modifies this`procs, this`tables, memoryMap
      ensures S() == ForkSpace(old(S()), p, c)
    {
      hide Roles, Exact, Exclusive, Sharing;
      ghost var m := S();
      SharingStart(m, p);
      for d: int := FIRST_SLOT to END_SLOT
        invariant S() == Sharing(m, p, d, -1)
      {
        SharingDent(m, p, d, -1);
        ShareSlot(p, d, m);
      }
      SharingEnd(m, p, c);
      procs := procs[c := procs[p]];
    }

    /** One directory slot of copy_pde. */
    method ShareSlot(p: Pid, d: nat, ghost m: Mem)
      requires Inv(m) && p in m.procs && |m.procs| < TASK_NR && UserSlot(d) && S() == Sharing(m, p, d, -1)
      modifies this`procs, this`tables, memoryMap
      ensures S() == Sharing(m, p, d + 1, -1)
    {
      hide Roles, Exact, Exclusive;
      var e := procs[p].dir[d];
      SharingDent(m, p, d, -1);
      hide Sharing;
      if !e.present {
        SharingSkipSlot(m, p, d);
        return;
      }
      SharingTable(m, p, d);
      CountBound(m, e.index);
      ghost var k := S();
      assert memoryMap[e.index] > 0;
      SetDent(p, d, e.(write := false));
      memoryMap[e.index] := memoryMap[e.index] + 1;
      assert memoryMap[..] == k.counts[e.index := k.counts[e.index] + 1];
      assert memoryMap[e.index] < 255;
      for t: int := 0 to ENTRIES
        invariant S() == Sharing(m, p, d, t)
      {
        ShareEntry(p, d, t, m);
      }
      SharingNextSlot(m, p, d);
    }

    /** One table entry of copy_pde. */
    method ShareEntry(p: Pid, d: nat, t: nat, ghost m: Mem)
      requires Inv(m) && HasTable(m, p, d) && |m.procs| < TASK_NR && UserPage(d, t) && S() == Sharing(m, p, d, t)
      modifies this`tables, memoryMap
      ensures S() == Sharing(m, p, d, t + 1)
    {
      hide Roles, Exact, Exclusive;
      SharingDent(m, p, d, t);
      var table := procs[p].dir[d].index;
      hide Sharing;
      if !m.tables[table][t].present {
        SharingSkipEntry(m, p, d, t);
      } else {
        SharingEntry(m, p, d, t);
        CountBound(m, m.tables[table][t].index);
      }
      var e := tables[table][t];
      if !e.present { return; }
      ghost var k := S();
      assert memoryMap[e.index] > 0;
      SetTent(table, t, e.(write := false));
      memoryMap[e.index] := memoryMap[e.index] + 1;
      assert memoryMap[..] == k.counts[e.index := k.counts[e.index] + 1];
      assert memoryMap[e.index] < 255;
    }

    /** free_pde, which task_exit calls for the dying process p. */
    method FreePde(p: Pid)
      requires Inv(S()) && p in procs
      modifies this`freePages, this`uses, this`procs, memoryMap
      ensures Countable(old(S()), p) && S() == ExitSpace(old(S()), p)
    {
      hide Roles, Exact, Exclusive, Freeing;
      ghost var m := S();
      HeldIsCounted(m, p);
      FreeingStart(m, p);
      for d: int := FIRST_SLOT to END_SLOT
        invariant S() == Freeing(m, p, d, 0) && procs == m.procs
      {
        FreeSlot(p, d, m);
      }
      FreeingEnd(m, p);
      procs := procs - {p};
    }

    /** One directory slot of free_pde. */
    method FreeSlot(p: Pid, d: nat, ghost m: Mem)
      requires Inv(m) && Countable(m, p) && p in m.procs && UserSlot(d) && S() == Freeing(m, p, d, 0)
      modifies this`freePages, this`uses, memoryMap
      ensures S() == Freeing(m, p, d + 1, 0)
    {
      hide Exact, Exclusive;
      var e := procs[p].dir[d];
      if !e.present {
        FreeingSkipSlot(m, p, d);
        return;
      }
      for t: int := 0 to ENTRIES
        invariant S() == Freeing(m, p, d, t)
      {
        var x := tables[e.index][t];
        if x.present {
          FreeingEntry(m, p, d, t);
          FreeingFree(m, p, d, t + 1);
          PutPage(x.index);
        } else {
          FreeingSkipEntry(m, p, d, t);
        }
      }
      FreeingTable(m, p, d);
      FreeingFree(m, p, d + 1, 0);
      PutPage(e.index);
    }

    /** page_fault, for a write to page v that the processor refused. */
    method WriteFault(p: Pid, v: VPage) returns (o: Verdict)
      requires Inv(S()) && p in procs && UserPage(v.d, v.t) && !Writable(S(), p, v)
      modifies this, memoryMap
      ensures memoryMap == old(memoryMap)
      ensures match CowMachine.WriteFault(old(S()), p, v)
              case Ok(m) => o == Resumed && S() == m
              case Killed(m) => o == Exited && S() == m
              case Panic => o == Panicked
    {
      hide Exact, Exclusive, View, PageOps.LinkPage, PageOps.CopyOnWrite;
      var present := procs[p].dir[v.d].present && tables[procs[p].dir[v.d].index][v.t].present;
      if present {
        if tables[procs[p].dir[v.d].index][v.t].readonly {
          FreePde(p);
          return Exited;
        }
        var ok := CopyOnWrite(p, v);
        return if ok then Resumed else Panicked;
      }
      if v.d * ENTRIES + v.t < procs[p].brk || v.d * ENTRIES + v.t >= STACK_BOTTOM_PAGE {
        var ok := LinkPage(p, v);
        return if ok then Resumed else Panicked;
      }
      return Panicked;
    }

    /** A store instruction of process p: what the processor and page_fault make
        of it together. */
    method UserStore(p: Pid, v: VPage, off: nat, b: bv8) returns (o: Verdict)
      requires Inv(S()) && p in procs && UserPage(v.d, v.t) && off < PAGE_SIZE
      modifies this, memoryMap
      ensures memoryMap == old(memoryMap)
      ensures match UserWrite(old(S()), p, v, off, b)
              case Ok(m) => o == Resumed && S() == m
              case Killed(m) => o == Exited && S() == m
              case Panic => o == Panicked
      ensures o == Panicked <==> StorePanics(old(S()), p, v)
      ensures o == Exited <==> Maps(old(S()), p, v.d, v.t) && Tent(old(S()), p, v.d, v.t).readonly
    {
      hide Exact, Exclusive, View, StorePanics;
      StoreOutcome(S(), p, v, off, b);
      o := Resumed;
      var dent := procs[p].dir[v.d];
      if !(dent.present && dent.write && tables[dent.index][v.t].present && tables[dent.index][v.t].write) {
        o := WriteFault(p, v);
        if o != Resumed { return; }
      }
      var f := tables[procs[p].dir[v.d].index][v.t].index;
      MappedIsHeld(S(), p, v.d, v.t);
      pages := pages[f := pages[f][off := b]];
    }

    /** The loop of sys_brk that gives back the pages from brk on. */
    method TrimHeap(p: Pid, brk: nat) returns (ok: bool)
      requires Good(S()) && p in procs && FIRST_SLOT * ENTRIES <= brk <= MMAP_FIRST
      modifies this, memoryMap
      ensures memoryMap == old(memoryMap) && old(procs[p].brk) <= MMAP_FIRST
      ensures ok ==> Simulates(S(), Views(old(S()))[p := Without(View(old(S()), p), brk, old(procs[p].brk))])
      ensures ok ==> SameMeta(old(S()), S())
      ensures ok <==> Run(old(S()), TrimEvents(p, brk, old(procs[p].brk))).Some?
      ensures ok ==> Run(old(S()), TrimEvents(p, brk, old(procs[p].brk))) == Some(S())
    {
      hide Roles, Exact, Exclusive, View, PageOps.UnlinkPage, Run, TrimEvents;
      ghost var m := S();
      ghost var hi := procs[p].brk;
      var k: nat := brk;
      ViewPages(m, p);
      assert Without(View(m, p), brk, brk) == View(m, p);
      assert Views(m)[p := View(m, p)] == Views(m);
      while k < procs[p].brk
        invariant p in procs && brk <= k && procs[p].brk == m.procs[p].brk && memoryMap == old(memoryMap)
        invariant k <= MMAP_FIRST && (k <= procs[p].brk || k == brk)
        invariant Simulates(S(), Views(m)[p := Without(View(m, p), brk, k)])
        invariant SameMeta(m, S())
        invariant Run(S(), TrimEvents(p, k, hi)) == Run(m, TrimEvents(p, brk, hi))
        decreases procs[p].brk - k
      {
        TrimStep(m, S(), p, brk, k);
        ghost var n := S();
        TrimRun(n, p, k, hi);
        ok := UnlinkPage(p, PageAt(k));
        if !ok { return; }
        UnlinkRefines(n, p, PageAt(k));
        UnlinkPageMeta(n, p, PageAt(k).d, PageAt(k).t);
        k := k + 1;
      }
      if k > procs[p].brk {
        assert Without(View(m, p), brk, procs[p].brk) == View(m, p);
      }
      TrimDone(S(), p, k, hi);
      ok := true;
    }

    /** sys_brk: 0, or -1 when the heap would outgrow the free pages. */
    method SysBrk(p: Pid, brk: nat) returns (r: int, ok: bool)
      requires Good(S()) && p in procs && FIRST_SLOT * ENTRIES <= brk <= MMAP_FIRST
      modifies this, memoryMap
      ensures r == 0 || r == -1
      ensures r == -1 <==> brk - old(procs[p].brk) > old(freePages) && old(procs[p].brk) <= brk
      ensures r == -1 ==> ok && S() == old(S())
      ensures ok && r == 0 ==>
                && Simulates(S(), Views(old(S()))[p := Without(View(old(S()), p), brk, old(procs[p].brk))])
                && p in procs && procs[p].brk == brk && procs[p].vmap == old(procs[p].vmap)
      ensures r == 0 ==>
                var run := Run(old(S()), TrimEvents(p, brk, old(procs[p].brk)) + [SetBrk(p, brk)]);
                (ok <==> run.Some?) && (ok ==> run == Some(S()))
    {
      hide Roles, Exact, Exclusive, View, Without, Run;
      r, ok := 0, true;
      RunAppend(S(), TrimEvents(p, brk, procs[p].brk), [SetBrk(p, brk)]);
      if procs[p].brk > brk {
        ok := TrimHeap(p, brk);
        if !ok { return; }
      } else {
        TrimDone(S(), p, brk, procs[p].brk);
        WithoutNone(S(), p, brk, procs[p].brk);
        if brk - procs[p].brk > freePages {
          r := -1;
          return;
        }
      }
      SetBrkRefines(S(), p, brk);
      ghost var n := S();
      RunFirst(n, SetBrk(p, brk), []);
      assert [SetBrk(p, brk)] + [] == [SetBrk(p, brk)];
      procs := procs[p := procs[p].(brk := brk)];
      RunNone(S());
    }

    /** sys_munmap: panics at a page whose vmap bit is clear. */
    method SysMunmap(p: Pid, first: nat, count: nat) returns (ok: bool)
      requires Good(S()) && p in procs && MMAP_FIRST <= first && first + count <= MMAP_END
      modifies this, memoryMap
      ensures ok ==> Simulates(S(), Views(old(S()))[p := Without(View(old(S()), p), first, first + count)])
      ensures ok ==>
                && p in procs
                && procs[p].vmap == old(procs[p].vmap) - (set k | first <= k < first + count :: PageAt(k))
      ensures ok ==> forall k: nat | first <= k < first + count :: PageAt(k) in old(procs[p].vmap)
      ensures ok <==> Run(old(S()), UnmapEvents(p, first, first + count)).Some?
      ensures ok ==> Run(old(S()), UnmapEvents(p, first, first + count)) == Some(S())
    {
      hide Roles, Exact, Exclusive, View, PageOps.UnlinkPage, Without, Run, UnmapEvents, Shape;
      ghost var m := S();
      ghost var hi := first + count;
      WithoutNone(m, p, first, first);
      for k: nat := first to first + count
        invariant p in procs && memoryMap == old(memoryMap)
        invariant Simulates(S(), Views(m)[p := Without(View(m, p), first, k)])
        invariant procs[p].vmap == m.procs[p].vmap - (set i | first <= i < k :: PageAt(i))
        invariant forall i: nat | first <= i < k :: PageAt(i) in m.procs[p].vmap
        invariant Run(S(), UnmapEvents(p, k, hi)) == Run(m, UnmapEvents(p, first, hi))
      {
        TrimStep(m, S(), p, first, k);
        ghost var n := S();
        UnmapRun(n, p, k, hi);
        ok := UnlinkPage(p, PageAt(k));
        if !ok { return; }
        UnlinkPageMeta(n, p, PageAt(k).d, PageAt(k).t);
        if PageAt(k) !in procs[p].vmap { return false; }
        procs := procs[p := procs[p].(vmap := procs[p].vmap - {PageAt(k)})];
        UnmapRefines(n, p, PageAt(k));
      }
      UnmapDone(S(), p, hi);
      ok := true;
    }

    /** sys_mmap, at a scanned or a given address. */
    method SysMmap(p: Pid, first: nat, count: nat, writable: bool) returns (ok: bool)
      requires Good(S()) && p in procs && MMAP_FIRST <= first && first + count <= MMAP_END
      requires Cleanly(S(), p, first, first + count, writable)
      modifies this, memoryMap
      ensures ok ==> Simulates(S(), Views(old(S()))[p := WithZeros(View(old(S()), p), first, first + count, !writable)])
      ensures ok ==>
                && p in procs
                && procs[p].vmap == old(procs[p].vmap) + (set k | first <= k < first + count :: PageAt(k))
      ensures ok <==> Run(old(S()), MapEvents(p, first, first + count, writable)).Some?
      ensures ok ==> Run(old(S()), MapEvents(p, first, first + count, writable)) == Some(S())
    {
      hide Roles, Exact, Exclusive, Shape, View, Views, Run, MapEvents, MapPage, WithZeros, Placed, Mappable, Cleanly;
      ghost var m := S();
      ghost var hi := first + count;
      ZerosNone(m, p, first, !writable);
      for k: nat := first to first + count
        invariant p in procs && memoryMap == old(memoryMap)
        invariant Simulates(S(), Views(m)[p := WithZeros(View(m, p), first, k, !writable)])
        invariant procs[p].vmap == m.procs[p].vmap + (set i | first <= i < k :: PageAt(i))
        invariant Run(S(), MapEvents(p, k, hi, writable)) == Run(m, MapEvents(p, first, hi, writable))
        invariant Cleanly(S(), p, k, hi, writable)
      {
        MapStep(m, S(), p, first, k, !writable);
        CleanPage(S(), p, k, hi, writable);
        MapRun(S(), p, k, hi, writable);
        ok := MmapPage(p, k, writable);
        if !ok { return; }
      }
      MapDone(S(), p, hi, writable);
      ok := true;
    }

    /** One page of sys_mmap, whatever was there. */
    method MmapPage(p: Pid, k: nat, writable: bool) returns (ok: bool)
      requires Good(S()) && p in procs && MMAP_FIRST <= k < MMAP_END
      modifies this, memoryMap
      ensures memoryMap == old(memoryMap)
      ensures ok && Mappable(old(S()), p, PageAt(k), writable) ==>
                Simulates(S(), Views(old(S()))[p := View(old(S()), p)[PageAt(k) := Content(ZeroPage(), !writable)]])
      ensures ok ==> p in procs && procs[p].vmap == old(procs[p].vmap) + {PageAt(k)}
      ensures UserPage(PageAt(k).d, PageAt(k).t)
      ensures ok <==> MapPage(old(S()), p, PageAt(k), writable).Some?
      ensures ok ==> MapPage(old(S()), p, PageAt(k), writable) == Some(S())
    {
      hide Roles, Exact, Exclusive, View, PageOps.LinkPage;
      ghost var m := S();
      var v := PageAt(k);
      assert UserPage(v.d, v.t) && PageNumber(v) == k;
      ok := LinkPage(p, v);
      if !ok { return; }
      MappedIsHeld(S(), p, v.d, v.t);
      var table := procs[p].dir[v.d].index;
      var e := tables[table][v.t];
      pages := pages[e.index := ZeroPage()];
      procs := procs[p := procs[p].(vmap := procs[p].vmap + {v})];
      SetTent(table, v.t, e.(write := writable, readonly := !writable));
      assert Some(S()) == MapPage(m, p, v, writable);
      MapMeta(m, p, v, writable);
      if Mappable(m, p, v, writable) {
        MapRefines(m, p, v, writable);
      }
    }
  }

  lemma RunNone(m: Mem)
    ensures Run(m, []) == Some(m)
  {
  }

  lemma MapDone(m: Mem, p: Pid, hi: nat, writable: bool)
    ensures Run(m, MapEvents(p, hi, hi, writable)) == Some(m)
  {
  }

  lemma UnmapDone(m: Mem, p: Pid, hi: nat)
    ensures Run(m, UnmapEvents(p, hi, hi)) == Some(m)
  {
  }

  lemma TrimDone(m: Mem, p: Pid, k: nat, hi: int)
    requires k >= hi
    ensures Run(m, TrimEvents(p, k, hi)) == Some(m)
  {
  }

  lemma TrimStep(m: Mem, n: Mem, p: Pid, brk: int, k: nat)
    requires Good(m) && p in m.procs && brk <= k && FIRST_SLOT * ENTRIES <= k < END_SLOT * ENTRIES
    requires Simulates(n, Views(m)[p := Without(View(m, p), brk, k)])
    ensures Views(n)[p := View(n, p) - {PageAt(k)}] == Views(m)[p := Without(View(m, p), brk, k + 1)]
    ensures UserPage(PageAt(k).d, PageAt(k).t)
  {
    hide Roles, Exact, Exclusive, View;
    ViewPages(m, p);
    assert Views(n)[p] == View(n, p);
    WithoutNext(View(m, p), brk, k);
  }

  lemma WithoutNone(m: Mem, p: Pid, lo: int, hi: int)
    requires Shape(m) && p in m.procs && hi <= lo
    ensures Views(m)[p := Without(View(m, p), lo, hi)] == Views(m)
    ensures Views(m)[p := View(m, p)] == Views(m)
  {
    assert Without(View(m, p), lo, hi) == View(m, p);
  }

  lemma ZerosNone(m: Mem, p: Pid, first: nat, readonly: bool)
    requires Shape(m) && p in m.procs
    ensures Views(m)[p := WithZeros(View(m, p), first, first, readonly)] == Views(m)
  {
    assert Views(m)[p := View(m, p)] == Views(m);
  }

  lemma MapStep(m: Mem, n: Mem, p: Pid, first: nat, k: nat, readonly: bool)
    requires Shape(m) && p in m.procs && first <= k
    requires Simulates(n, Views(m)[p := WithZeros(View(m, p), first, k, readonly)])
    ensures Views(n)[p := View(n, p)[PageAt(k) := Content(ZeroPage(), readonly)]]
         == Views(m)[p := WithZeros(View(m, p), first, k + 1, readonly)]
  {
    hide Roles, Exact, Exclusive, View;
    assert Views(n)[p] == View(n, p);
  }
}
