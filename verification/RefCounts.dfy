/** What the invariant says about memory_map and free_pages in plain counting
    terms, from boot to the exit of the last process. */
module RefCounts {
  import opened Prelude
  import opened PageTables
  import opened PageTableProofs
  import opened PageUpdates
  import opened PageFork
  import opened PageOps
  import opened PageLoops
  import opened CowRefinement
  import opened MmapPages
  import opened CowMachine

  /** The (address space, directory slot) pairs that use frame f as a table. */
  ghost function TableRefs(m: Mem, f: nat): set<(Pid, int)>
    requires Shape(m)
  {
    set p, d | p in m.procs && FIRST_SLOT <= d < END_SLOT && NamesTable(m, p, d, f) :: (p, d)
  }

  /** The (address space, directory slot, table slot) walks that reach frame f. */
  ghost function WalkRefs(m: Mem, f: nat): set<(Pid, int, int)>
    requires Shape(m)
  {
    set p, d, t | p in m.procs && FIRST_SLOT <= d < END_SLOT && 0 <= t < ENTRIES && Reaches(m, p, d, t, f) :: (p, d, t)
  }

  lemma {:induction false} PairCard(s: set<Pid>, r: set<(Pid, int)>, d: int)
    requires forall x :: x in r <==> x.0 in s && x.1 == d
    ensures |r| == |s|
    decreases |s|
  {
    if s == {} {
      assert r == {};
    } else {
      var p :| p in s;
      PairCard(s - {p}, r - {(p, d)}, d);
    }
  }

  lemma {:induction false} TripleCard(s: set<Pid>, r: set<(Pid, int, int)>, d: int, t: int)
    requires forall x :: x in r <==> x.0 in s && x.1 == d && x.2 == t
    ensures |r| == |s|
    decreases |s|
  {
    if s == {} {
      assert r == {};
    } else {
      var p :| p in s;
      TripleCard(s - {p}, r - {(p, d, t)}, d, t);
    }
  }

  /** The count of a user frame is the number of directory slots that use it as
      a table plus the number of walks that reach it as data. */
  lemma CountsAreReferences(m: Mem, f: nat)
    requires Inv(m) && KERNEL_FRAMES <= f < |m.counts|
    ensures m.counts[f] == |TableRefs(m, f)| + |WalkRefs(m, f)|
  {
    match m.uses[f]
    case Unused =>
      assert TableRefs(m, f) == {} && WalkRefs(m, f) == {};
    case TableOf(d) =>
      assert WalkRefs(m, f) == {};
      PairCard(Holders(m, f), TableRefs(m, f), d);
    case DataOf(d, t) =>
      assert TableRefs(m, f) == {};
      TripleCard(Holders(m, f), WalkRefs(m, f), d, t);
  }

  /** ... in every state that any run reaches. */
  lemma RunCountsAreReferences(m: Mem, es: seq<Event>, f: nat)
    requires Good(m) && Run(m, es).Some?
    ensures var n := Run(m, es).value;
            Shape(n) && (KERNEL_FRAMES <= f < |n.counts| ==> n.counts[f] == |TableRefs(n, f)| + |WalkRefs(n, f)|)
  {
    hide Run, Roles, Exact, Exclusive, Placed;
    var junks := RunRefines(m, es);
    var n := Run(m, es).value;
    if KERNEL_FRAMES <= f < |n.counts| {
      CountsAreReferences(n, f);
    }
  }

  /** No frame is counted more often than there are address spaces. */
  lemma CountBound(m: Mem, f: nat)
    requires Inv(m) && f < |m.counts| && |m.procs| > 0
    ensures m.counts[f] <= |m.procs|
  {
    if KERNEL_FRAMES <= f {
      assert Holders(m, f) <= m.procs.Keys;
      SubsetCard(Holders(m, f), m.procs.Keys);
    }
  }

  const TASK_NR: nat := 64

  /** copy_pde's assertions that no count reaches 255 hold at every fork. */
  lemma ForkNeverOverflows(m: Mem, p: Pid, c: Pid, f: nat)
    requires Inv(m) && p in m.procs && c !in m.procs && |m.procs| < TASK_NR
    requires f < |m.counts|
    ensures 0 < m.counts[f] || !Holds(m, p, f)
    ensures f < |ForkSpace(m, p, c).counts| && ForkSpace(m, p, c).counts[f] < 255
  {
    HeldIsCounted(m, p);
    CountBound(m, f);
  }

  lemma {:induction false} ZerosBound(s: seq<nat>, k: nat)
    requires k <= |s| && forall i | 0 <= i < k :: s[i] != 0
    ensures Zeros(s) <= |s| - k
  {
    if |s| > k {
      ZerosBound(s[..|s| - 1], k);
    } else if s != [] {
      ZerosBound(s[..|s| - 1], k - 1);
    }
  }

  /** The assertions on free_pages in get_page and put_page always hold. */
  lemma FreePagesInBounds(m: Mem)
    requires Inv(m)
    ensures 0 < m.free < |m.counts|
  {
    ZerosBound(m.counts, KERNEL_FRAMES);
  }

  /** ... also between two put_page calls of free_pde. */
  lemma FreeingFree(m: Mem, p: Pid, d: int, t: int)
    requires Inv(m) && Countable(m, p)
    ensures 0 < Freeing(m, p, d, t).free < |m.counts|
  {
    hide Roles, Exclusive, Holders;
    ZerosBound(FreedCounts(m, p, d, t), KERNEL_FRAMES);
    ZerosBound(m.counts, KERNEL_FRAMES);
  }

  // ---- when a system call panics ------------------------------------------------------

  /** The frames get_entry_private takes: one, unless the table is there for this process alone. */
  ghost function TableNeed(m: Mem, p: Pid, d: int): nat
    requires Inv(m) && p in m.procs && UserSlot(d)
  {
    var e := Dent(m, p, d);
    if e.present && (e.write || m.counts[e.index] == 1) then 0 else 1
  }

  lemma EntryNeeds(m: Mem, p: Pid, d: int)
    requires Inv(m) && p in m.procs && UserSlot(d)
    ensures EntryPrivate(m, p, d).None? <==> TableNeed(m, p, d) > Zeros(m.counts)
    ensures EntryPrivate(m, p, d).Some? ==>
              var n := EntryPrivate(m, p, d).value; Inv(n) && Zeros(n.counts) == Zeros(m.counts) - TableNeed(m, p, d)
  {
    GetPageFrame(m);
    hide Roles, Exact, Exclusive, FirstFree;
  }

  /** link_page panics exactly when table and page need more frames than are free. */
  lemma LinkFailsExactly(m: Mem, p: Pid, d: int, t: int)
    requires Inv(m) && p in m.procs && UserPage(d, t)
    ensures LinkPage(m, p, d, t).None? <==>
              TableNeed(m, p, d) + (if Maps(m, p, d, t) then 0 else 1) > Zeros(m.counts)
  {
    EntryNeeds(m, p, d);
    if EntryPrivate(m, p, d).Some? {
      var n := EntryPrivate(m, p, d).value;
      GetPageFrame(n);
      EntryPrivateViews(m, p, d);
      InView(m, p, d, t);
      InView(n, p, d, t);
    }
    hide Roles, Exact, Exclusive, FirstFree, EntryPrivate, TableNeed;
  }

  /** unlink_page panics exactly when it has to copy a shared table and no frame is free. */
  lemma UnlinkFailsExactly(m: Mem, p: Pid, d: int, t: int)
    requires Inv(m) && p in m.procs && UserPage(d, t)
    ensures UnlinkPage(m, p, d, t).None? <==> HasTable(m, p, d) && TableNeed(m, p, d) > Zeros(m.counts)
  {
    EntryNeeds(m, p, d);
    hide Roles, Exact, Exclusive, FirstFree, EntryPrivate, TableNeed;
  }

  /** There are frames for the table and for the page, where these are shared. */
  ghost predicate CowFits(m: Mem, p: Pid, d: int, t: int)
    requires Inv(m) && Maps(m, p, d, t)
  {
    && Walk(m, p, d, t) < |m.counts|
    && TableNeed(m, p, d) + One(m.counts[Walk(m, p, d, t)] > 1) <= Zeros(m.counts)
  }

  /** copy_on_write panics exactly when a shared table and a shared frame need more frames than are free. */
  lemma CowFailsExactly(m: Mem, p: Pid, d: int, t: int)
    requires Inv(m) && Maps(m, p, d, t) && !Tent(m, p, d, t).readonly
    ensures Walk(m, p, d, t) < |m.counts|
    ensures CopyOnWrite(m, p, d, t).Some? <==> CowFits(m, p, d, t)
    ensures CopyOnWrite(m, p, d, t).None? <==>
              TableNeed(m, p, d) + One(m.counts[Walk(m, p, d, t)] > 1) > Zeros(m.counts)
  {
    MappedIsHeld(m, p, d, t);
    EntryNeeds(m, p, d);
    if EntryPrivate(m, p, d).Some? {
      var n := EntryPrivate(m, p, d).value;
      PrivatizedSees(m, n, p, d, t);
      assert LinkPage(m, p, d, t) == Some(n);
      LinkPresent(m, p, VPage(d, t));
      hide EntryPrivate, TableNeed, LinkPage, Roles, Exact, FirstFree;
      PrivateCow(n, p, d, t);
    }
  }

  lemma PrivateCow(m: Mem, p: Pid, d: int, t: int)
    requires Inv(m) && Maps(m, p, d, t) && Dent(m, p, d).write && !Tent(m, p, d, t).readonly
    ensures Walk(m, p, d, t) < |m.counts|
    ensures CowPrivate(m, p, d, t).None? <==> m.counts[Walk(m, p, d, t)] > 1 && Zeros(m.counts) == 0
  {
    MappedIsHeld(m, p, d, t);
    GetPageFrame(m);
    hide Roles, Exact, FirstFree;
  }

  /**
   * page_fault on an absent page panics exactly when the address is neither below
   * brk nor in the stack from page 63 * 1024 on, or when table and page need more frames than are free.
   */
  lemma DemandFailsExactly(m: Mem, p: Pid, v: VPage)
    requires Inv(m) && p in m.procs && UserPage(v.d, v.t) && !Maps(m, p, v.d, v.t)
    ensures !Demand(m, p, v).Killed?
    ensures Demand(m, p, v).Panic? <==>
              || !(1024 * v.d + v.t < m.procs[p].brk || 1024 * v.d + v.t >= 63 * 1024)
              || TableNeed(m, p, v.d) + 1 > Zeros(m.counts)
  {
    hide Roles, Exact, Exclusive, LinkPage, TableNeed;
    LinkFailsExactly(m, p, v.d, v.t);
  }

  /** How a store of user code ends: it is done, the process is killed, or the kernel panics. */
  lemma WriteOutcomeExactly(m: Mem, p: Pid, v: VPage, off: nat, b: bv8)
    requires Inv(m) && p in m.procs && UserPage(v.d, v.t) && off < PAGE_SIZE
    ensures var o := UserWrite(m, p, v, off, b);
            if !Maps(m, p, v.d, v.t) then
              && !o.Killed?
              && (o.Panic? <==>
                  || !(1024 * v.d + v.t < m.procs[p].brk || 1024 * v.d + v.t >= 63 * 1024)
                  || TableNeed(m, p, v.d) + 1 > Zeros(m.counts))
            else if Tent(m, p, v.d, v.t).readonly then o.Killed?
            else
              && Walk(m, p, v.d, v.t) < |m.counts| && !o.Killed?
              && (o.Panic? <==> TableNeed(m, p, v.d) + One(m.counts[Walk(m, p, v.d, v.t)] > 1) > Zeros(m.counts))
  {
    if !Maps(m, p, v.d, v.t) {
      hide Roles, Exact, Exclusive, TableNeed, Demand;
      DemandFailsExactly(m, p, v);
    } else if !Tent(m, p, v.d, v.t).readonly {
      CowFailsExactly(m, p, v.d, v.t);
      if Writable(m, p, v) {
        assert TableNeed(m, p, v.d) == 0 && m.counts[Walk(m, p, v.d, v.t)] == 1;
      }
      hide Roles, Exact, Exclusive, TableNeed, CopyOnWrite;
    }
  }

  /** Where a store ends in a panic: no page where it may come on demand, or too few frames. */
  ghost predicate StorePanics(m: Mem, p: Pid, v: VPage)
    requires Inv(m) && p in m.procs && UserPage(v.d, v.t)
  {
    if !Maps(m, p, v.d, v.t) then TouchPanics(m, p, v)
    else
      && !Tent(m, p, v.d, v.t).readonly && Walk(m, p, v.d, v.t) < |m.counts|
      && TableNeed(m, p, v.d) + One(m.counts[Walk(m, p, v.d, v.t)] > 1) > Zeros(m.counts)
  }

  ghost predicate TouchPanics(m: Mem, p: Pid, v: VPage)
    requires Inv(m) && p in m.procs && UserPage(v.d, v.t)
  {
    && !Maps(m, p, v.d, v.t)
    && (|| m.procs[p].brk <= 1024 * v.d + v.t < 63 * 1024
        || TableNeed(m, p, v.d) + 1 > Zeros(m.counts))
  }

  lemma StoreOutcome(m: Mem, p: Pid, v: VPage, off: nat, b: bv8)
    requires Inv(m) && p in m.procs && UserPage(v.d, v.t) && off < PAGE_SIZE
    ensures UserWrite(m, p, v, off, b).Panic? <==> StorePanics(m, p, v)
    ensures UserWrite(m, p, v, off, b).Killed? <==> Maps(m, p, v.d, v.t) && Tent(m, p, v.d, v.t).readonly
  {
    hide Roles, Exact, Exclusive, TableNeed, UserWrite;
    WriteOutcomeExactly(m, p, v, off, b);
  }

  /** The events that panic. */
  ghost predicate Panics(m: Mem, e: Event)
    requires Good(m) && Legal(m, e)
  {
    match e
    case Touch(p, v) => TouchPanics(m, p, v)
    case Write(p, v, _, _) => StorePanics(m, p, v)
    case Map(p, v, _) => TableNeed(m, p, v.d) + One(!Maps(m, p, v.d, v.t)) > Zeros(m.counts)
    case Unmap(p, v) => v !in m.procs[p].vmap || (HasTable(m, p, v.d) && TableNeed(m, p, v.d) > Zeros(m.counts))
    case Trim(p, v) => HasTable(m, p, v.d) && TableNeed(m, p, v.d) > Zeros(m.counts)
    case _ => false
  }

  /** The events that end the process: exit, and a store to a page mapped read-only. */
  ghost predicate Kills(m: Mem, e: Event)
    requires Good(m) && Legal(m, e)
  {
    e.Exit? || (e.Write? && Maps(m, e.p, e.v.d, e.v.t) && Tent(m, e.p, e.v.d, e.v.t).readonly)
  }

  lemma UnmapFailsExactly(m: Mem, p: Pid, v: VPage)
    requires Inv(m) && p in m.procs && UserPage(v.d, v.t)
    ensures UnmapPage(m, p, v).Panic? <==>
              v !in m.procs[p].vmap || (HasTable(m, p, v.d) && TableNeed(m, p, v.d) > Zeros(m.counts))
  {
    UnlinkFailsExactly(m, p, v.d, v.t);
    if UnlinkPage(m, p, v.d, v.t).Some? {
      UnlinkPageMeta(m, p, v.d, v.t);
    }
    hide Roles, Exact, Exclusive, UnlinkPage, TableNeed;
  }

  /** For every legal event whether it succeeds, ends the process or panics. */
  lemma StepOutcomeExactly(m: Mem, e: Event)
    requires Good(m) && Legal(m, e)
    ensures Step(m, e).Panic? <==> Panics(m, e)
    ensures Step(m, e).Killed? <==> Kills(m, e)
  {
    hide Roles, Exact, Exclusive, UnlinkPage, LinkPage, TableNeed, UserWrite, Demand, UnmapPage, Placed, Maps, Walk;
    match e
    case Touch(p, v) =>
      if !Maps(m, p, v.d, v.t) {
        DemandFailsExactly(m, p, v);
      } else {
        assert Demand(m, p, v) == Ok(m) by { TouchesMapped(m, p, v); }
      }
    case Write(p, v, off, b) => StoreOutcome(m, p, v, off, b);
    case Map(p, v, _) => LinkFailsExactly(m, p, v.d, v.t);
    case Unmap(p, v) => UnmapFailsExactly(m, p, v);
    case Trim(p, v) => UnlinkFailsExactly(m, p, v.d, v.t);
    case _ =>
  }

  lemma TouchesMapped(m: Mem, p: Pid, v: VPage)
    requires Inv(m) && p in m.procs && UserPage(v.d, v.t) && Maps(m, p, v.d, v.t)
    ensures Demand(m, p, v) == Ok(m)
  {
    hide Roles, Exact, Exclusive;
  }

  /** What a process has besides its pages. */
  datatype Limits = Limits(brk: int, vmap: set<VPage>)

  ghost function LimitsOf(m: Mem): map<Pid, Limits> {
    map p | p in m.procs :: Limits(m.procs[p].brk, m.procs[p].vmap)
  }

  /** What each event does to brk and vmap. */
  function LimitStep(a: map<Pid, Limits>, e: Event, dies: bool): map<Pid, Limits>
    requires e.p in a
  {
    if dies then a - {e.p}
    else match e
      case Map(p, v, _) => a[p := a[p].(vmap := a[p].vmap + {v})]
      case Unmap(p, v) => a[p := a[p].(vmap := a[p].vmap - {v})]
      case SetBrk(p, brk) => a[p := a[p].(brk := brk)]
      case Fork(p, c) => a[c := a[p]]
      case _ => a
  }

  lemma SameLimits(m: Mem, n: Mem)
    requires SameMeta(m, n)
    ensures LimitsOf(n) == LimitsOf(m)
  {
  }

  lemma OneLimit(m: Mem, n: Mem, p: Pid, l: Limits)
    requires p in m.procs && n.procs.Keys == m.procs.Keys
    requires forall q | q in m.procs && q != p ::
               n.procs[q].brk == m.procs[q].brk && n.procs[q].vmap == m.procs[q].vmap
    requires n.procs[p].brk == l.brk && n.procs[p].vmap == l.vmap
    ensures LimitsOf(n) == LimitsOf(m)[p := l]
  {
  }

  lemma WriteLimits(m: Mem, p: Pid, v: VPage, off: nat, b: bv8)
    requires Good(m) && p in m.procs && UserPage(v.d, v.t) && off < PAGE_SIZE && UserWrite(m, p, v, off, b).Ok?
    ensures SameMeta(m, UserWrite(m, p, v, off, b).m)
  {
    hide Roles, Exact, Exclusive, LinkPage, CopyOnWrite, Placed;
    if !Writable(m, p, v) {
      if Maps(m, p, v.d, v.t) {
        CopyOnWriteMeta(m, p, v.d, v.t);
      } else {
        LinkPageMeta(m, p, v.d, v.t);
      }
    }
  }

  lemma WriteDies(m: Mem, p: Pid, v: VPage, off: nat, b: bv8)
    requires Good(m) && p in m.procs && UserPage(v.d, v.t) && off < PAGE_SIZE && UserWrite(m, p, v, off, b).Killed?
    ensures LimitsOf(UserWrite(m, p, v, off, b).m) == LimitsOf(m) - {p}
  {
    hide Roles, Exact, Exclusive, CopyOnWrite, Placed;
  }

  lemma TouchLimits(m: Mem, p: Pid, v: VPage)
    requires Good(m) && p in m.procs && UserPage(v.d, v.t) && Demand(m, p, v).Ok?
    ensures LimitsOf(Demand(m, p, v).m) == LimitsOf(m)
  {
    hide Roles, Exact, Exclusive, LinkPage, Placed;
    if !Maps(m, p, v.d, v.t) {
      LinkPageMeta(m, p, v.d, v.t);
      SameLimits(m, LinkPage(m, p, v.d, v.t).value);
    }
  }

  lemma MapLimits(m: Mem, p: Pid, v: VPage, w: bool)
    requires Good(m) && p in m.procs && UserPage(v.d, v.t) && MapPage(m, p, v, w).Some?
    ensures LimitsOf(MapPage(m, p, v, w).value) ==
            LimitsOf(m)[p := Limits(m.procs[p].brk, m.procs[p].vmap + {v})]
  {
    MapMeta(m, p, v, w);
    hide Inv, Good, MapPage, LimitsOf;
    OneLimit(m, MapPage(m, p, v, w).value, p, Limits(m.procs[p].brk, m.procs[p].vmap + {v}));
  }

  lemma UnmapLimits(m: Mem, p: Pid, v: VPage)
    requires Good(m) && p in m.procs && UserPage(v.d, v.t)
    ensures UnlinkPage(m, p, v.d, v.t).Some? ==> LimitsOf(UnlinkPage(m, p, v.d, v.t).value) == LimitsOf(m)
    ensures UnmapPage(m, p, v).Ok? ==>
              LimitsOf(UnmapPage(m, p, v).m) == LimitsOf(m)[p := Limits(m.procs[p].brk, m.procs[p].vmap - {v})]
  {
    hide Roles, Exact, Exclusive, UnlinkPage, Placed, LimitsOf;
    if UnlinkPage(m, p, v.d, v.t).Some? {
      UnlinkPageMeta(m, p, v.d, v.t);
      SameLimits(m, UnlinkPage(m, p, v.d, v.t).value);
    }
    if UnmapPage(m, p, v).Ok? {
      OneLimit(m, UnmapPage(m, p, v).m, p, Limits(m.procs[p].brk, m.procs[p].vmap - {v}));
    }
  }

  lemma ProcLimits(m: Mem, p: Pid)
    requires Good(m) && p in m.procs
    ensures forall brk ::
            LimitsOf(SetProc(m, p, brk, m.procs[p].vmap)) == LimitsOf(m)[p := Limits(brk, m.procs[p].vmap)]
    ensures forall c | c !in m.procs :: LimitsOf(ForkSpace(m, p, c)) == LimitsOf(m)[c := LimitsOf(m)[p]]
    ensures LimitsOf(Die(m, p).m) == LimitsOf(m) - {p}
  {
    hide Roles, Exact, Exclusive, Placed;
  }

  /** Every event leaves brk and vmap of every process as it should. */
  lemma StepLimits(m: Mem, e: Event)
    requires Good(m) && Legal(m, e) && !Step(m, e).Panic?
    ensures LimitsOf(Step(m, e).m) == LimitStep(LimitsOf(m), e, Kills(m, e))
  {
    StepOutcomeExactly(m, e);
    hide Roles, Exact, Exclusive, UnlinkPage, MapPage, UserWrite, Placed, Maps, Panics, Demand, Die, ForkSpace, SetProc,
         UnmapPage;
    match e
    case Touch(p, v) => TouchLimits(m, p, v);
    case Write(p, v, off, b) =>
      if UserWrite(m, p, v, off, b).Ok? {
        WriteLimits(m, p, v, off, b);
        SameLimits(m, UserWrite(m, p, v, off, b).m);
      } else {
        WriteDies(m, p, v, off, b);
      }
    case Map(p, v, w) => MapLimits(m, p, v, w);
    case Unmap(p, v) => UnmapLimits(m, p, v);
    case Trim(p, v) => UnmapLimits(m, p, v);
    case _ => ProcLimits(m, e.p);
  }

  /** memory_map_init and mapping_init. */
  ghost function Boot(total: nat): Mem
    requires KERNEL_FRAMES + LOW_FRAMES <= total <= MAX_FRAMES
  {
    Mem(seq(total, i => if i < KERNEL_FRAMES then 1 else 0),
        total - LOW_FRAMES - (total + PAGE_SIZE - 1) / PAGE_SIZE,
        map[], seq(total, i => BlankTable()), seq(total, i => ZeroPage()), seq(total, i => Unused))
  }

  lemma {:induction false} ZerosAll(s: seq<nat>, k: nat)
    requires k <= |s| && forall i | 0 <= i < |s| :: s[i] == 0 <==> i >= k
    ensures Zeros(s) == |s| - k
  {
    if s != [] {
      ZerosAll(s[..|s| - 1], if k < |s| then k else k - 1);
    }
  }

  lemma BootGood(total: nat)
    requires KERNEL_FRAMES + LOW_FRAMES <= total <= MAX_FRAMES
    ensures Good(Boot(total))
  {
    ZerosAll(Boot(total).counts, KERNEL_FRAMES);
  }

  /** The first user process starts from a directory without user entries
      (task_prepare_user_mode copies the kernel's). */
  function Spawn(m: Mem, p: Pid): Mem
    requires p !in m.procs
  {
    m.(procs := m.procs[p := Proc(BlankTable(), 0, {})])
  }

  lemma SpawnShape(m: Mem, p: Pid)
    requires Shape(m) && p !in m.procs
    ensures Shape(Spawn(m, p))
    ensures forall q, e | q in m.procs && UserSlot(e) :: Dent(Spawn(m, p), q, e) == Dent(m, q, e)
    ensures forall e | UserSlot(e) :: !Dent(Spawn(m, p), p, e).present
    ensures forall q, e, s :: Maps(Spawn(m, p), q, e, s) <==> Maps(m, q, e, s)
  {
  }

  lemma SpawnHolders(m: Mem, p: Pid, g: nat)
    requires Shape(m) && p !in m.procs && Shape(Spawn(m, p)) && g < |m.uses|
    ensures Holders(Spawn(m, p), g) == Holders(m, g)
  {
    SpawnShape(m, p);
    assert Holders(Spawn(m, p), g) == Holders(m, g);
  }

  lemma SpawnExact(m: Mem, p: Pid)
    requires Shape(m) && Exact(m) && p !in m.procs && Shape(Spawn(m, p))
    ensures Exact(Spawn(m, p))
  {
    hide Holders, Maps;
    forall g | 0 <= g < |m.uses|
      ensures Holders(Spawn(m, p), g) == Holders(m, g)
    {
      SpawnHolders(m, p, g);
    }
  }

  lemma SpawnRoles(m: Mem, p: Pid)
    requires Shape(m) && Roles(m) && p !in m.procs && Shape(Spawn(m, p))
    ensures Roles(Spawn(m, p))
  {
    SpawnShape(m, p);
  }

  lemma SpawnExclusive(m: Mem, p: Pid)
    requires Shape(m) && Roles(m) && Exclusive(m) && p !in m.procs && Shape(Spawn(m, p)) && Roles(Spawn(m, p))
    ensures Exclusive(Spawn(m, p))
  {
    SpawnShape(m, p);
  }

  lemma SpawnInv(m: Mem, p: Pid)
    requires Inv(m) && p !in m.procs
    ensures Inv(Spawn(m, p))
  {
    hide Roles, Exact, Exclusive;
    SpawnShape(m, p);
    SpawnExact(m, p);
    SpawnRoles(m, p);
    SpawnExclusive(m, p);
  }

  lemma SpawnGood(m: Mem, p: Pid)
    requires Good(m) && p !in m.procs
    ensures Good(Spawn(m, p)) && Views(Spawn(m, p)) == Views(m)[p := map[]]
  {
    hide Roles, Exact, Exclusive;
    var n := Spawn(m, p);
    SpawnInv(m, p);
    SpawnShape(m, p);
    forall q | q in m.procs ensures View(n, q) == View(m, q) {
    }
    assert View(n, p) == map[];
  }

  /** When the last process is gone every user frame is free again and
      free_pages is what it was at boot: no operation leaks a frame. */
  lemma NothingLeaks(m: Mem)
    requires Inv(m) && m.procs == map[]
    ensures m.counts == Boot(|m.counts|).counts && m.free == Boot(|m.counts|).free
  {
    var b := Boot(|m.counts|);
    forall f | 0 <= f < |m.counts| ensures m.counts[f] == b.counts[f] {
      if KERNEL_FRAMES <= f {
        assert Holders(m, f) == {};
      }
    }
    BootGood(|m.counts|);
  }

  /** Exit of a child that did nothing undoes the counting of its fork. */
  lemma ExitUndoesFork(m: Mem, p: Pid, c: Pid)
    requires Inv(m) && p in m.procs && c !in m.procs
    ensures Inv(ForkSpace(m, p, c))
    ensures var n := ForkSpace(m, p, c); forall f | 0 <= f < |n.counts| && Holds(n, c, f) :: n.counts[f] > 0
    ensures ExitSpace(ForkSpace(m, p, c), c).counts == m.counts
    ensures ExitSpace(ForkSpace(m, p, c), c).free == m.free
  {
    hide Roles, Exclusive, Holders;
    var n := ForkSpace(m, p, c);
    ForkInv(m, p, c);
    HeldIsCounted(n, c);
    var k := ExitSpace(n, c);
    forall f | 0 <= f < |m.counts| ensures k.counts[f] == m.counts[f] {
      ForkHolders(m, p, c, f);
    }
    assert k.counts == m.counts;
    ExitInv(n, c);
  }

  /** Right after a fork, sys_mmap by the child over a page it inherited always
      wipes the parent's page too, unless that page was zero. */
  lemma RemapAfterForkIsSeen(m: Mem, p: Pid, c: Pid, v: VPage, writable: bool)
    requires Inv(m) && Maps(m, p, v.d, v.t) && c !in m.procs && Zeros(m.counts) > 0
    requires Walk(m, p, v.d, v.t) < |m.pages| && m.pages[Walk(m, p, v.d, v.t)] != ZeroPage()
    ensures Inv(ForkSpace(m, p, c)) && MapPage(ForkSpace(m, p, c), c, v, writable).Some?
    ensures var n := ForkSpace(m, p, c); var k := MapPage(n, c, v, writable).value;
            Shape(k) && !OthersSame(n, k, c)
  {
    ForkInv(m, p, c);
    var n := ForkSpace(m, p, c);
    assert Zeros(n.counts) == Zeros(m.counts);
    hide Roles, Exact, Exclusive, ZeroPage, ForkSpace, LinkPage, Zeros;
    ForkedPageShared(m, p, c, v);
    LinkFailsExactly(n, c, v.d, v.t);
    hide MapPage;
    MapPresent(n, c, v, writable);
  }

  /** It does happen: boot, a first process that maps a page and writes to it, a fork, and the
      child maps the same address again. */
  lemma RemapRun(total: nat, p: Pid, c: Pid, v: VPage, b: bv8)
    requires KERNEL_FRAMES + LOW_FRAMES <= total <= MAX_FRAMES && p != c && b != 0
    requires UserPage(v.d, v.t) && InMmap(v)
    ensures var r := Run(Spawn(Boot(total), p), [Map(p, v, true), Write(p, v, 0, b), Fork(p, c)]);
            && r.Some? && Inv(r.value) && c in r.value.procs && MapPage(r.value, c, v, true).Some?
            && Shape(MapPage(r.value, c, v, true).value) && !OthersSame(r.value, MapPage(r.value, c, v, true).value, c)
  {
    hide Roles, Exact, Exclusive, Shape, Placed, UserWrite, ForkSpace, MapPage, Zeros, Maps, Walk, OthersSame, Run,
         ZeroPage;
    var m0 := Spawn(Boot(total), p);
    FirstProcess(total, p, v);
    MapThenWrite(m0, p, v, b);
    var k := MapPage(m0, p, v, true).value;
    var m := Store(k, p, v.d, v.t, 0, b);
    GoodInv(m);
    RemapAfterForkIsSeen(m, p, c, v, true);
    ThenFork(m0, p, c, v, b);
    ForkKeys(m, p, c);
  }

  lemma GoodInv(m: Mem)
    requires Good(m)
    ensures Inv(m)
  {
  }

  lemma ForkKeys(m: Mem, p: Pid, c: Pid)
    requires Shape(m) && p in m.procs && c !in m.procs
    ensures c in ForkSpace(m, p, c).procs
  {
  }

  lemma FirstProcess(total: nat, p: Pid, v: VPage)
    requires KERNEL_FRAMES + LOW_FRAMES <= total <= MAX_FRAMES
    ensures var m := Spawn(Boot(total), p);
            && Good(m) && m.procs.Keys == {p} && Zeros(m.counts) >= LOW_FRAMES
            && !Maps(m, p, v.d, v.t) && v !in m.procs[p].vmap
  {
    BootGood(total);
    SpawnGood(Boot(total), p);
    SpawnShape(Boot(total), p);
    ZerosAll(Boot(total).counts, KERNEL_FRAMES);
    hide Roles, Exact, Exclusive, Zeros;
  }

  lemma ThenFork(m: Mem, p: Pid, c: Pid, v: VPage, b: bv8)
    requires Good(m) && p in m.procs && c !in m.procs && Legal(m, Map(p, v, true)) && MapPage(m, p, v, true).Some?
    requires var k := MapPage(m, p, v, true).value;
             && Good(k) && k.procs.Keys == m.procs.Keys && Writable(k, p, v)
             && Good(Store(k, p, v.d, v.t, 0, b)) && Store(k, p, v.d, v.t, 0, b).procs == k.procs
    ensures var n := Store(MapPage(m, p, v, true).value, p, v.d, v.t, 0, b);
            && Shape(n)
            && Run(m, [Map(p, v, true), Write(p, v, 0, b), Fork(p, c)]) == Some(ForkSpace(n, p, c))
  {
    hide Roles, Exact, Exclusive, MapPage, Store, ForkSpace;
    var k := MapPage(m, p, v, true).value;
    var n := Store(k, p, v.d, v.t, 0, b);
    var es := [Map(p, v, true), Write(p, v, 0, b), Fork(p, c)];
    assert es[1..] == [Write(p, v, 0, b), Fork(p, c)] && es[1..][1..] == [Fork(p, c)] && [Fork(p, c)][1..] == [];
    assert Run(ForkSpace(n, p, c), []) == Some(ForkSpace(n, p, c));
    assert Run(n, [Fork(p, c)]) == Run(ForkSpace(n, p, c), []);
    assert Step(k, Write(p, v, 0, b)) == Ok(n);
    assert Run(k, es[1..]) == Run(n, [Fork(p, c)]);
  }

  /** A new page that is then written to. */
  lemma MapThenWrite(m: Mem, p: Pid, v: VPage, b: bv8)
    requires Good(m) && p in m.procs && !Maps(m, p, v.d, v.t) && Zeros(m.counts) >= 3 && b != 0
    requires Legal(m, Map(p, v, true))
    ensures MapPage(m, p, v, true).Some?
    ensures var k := MapPage(m, p, v, true).value;
            && Good(k) && k.procs.Keys == m.procs.Keys && Writable(k, p, v)
            && var n := Store(k, p, v.d, v.t, 0, b);
               && Good(n) && n.procs == k.procs && Maps(n, p, v.d, v.t) && Zeros(n.counts) > 0
               && Walk(n, p, v.d, v.t) < |n.pages| && n.pages[Walk(n, p, v.d, v.t)] != ZeroPage()
  {
    hide Roles, Exact, Exclusive, Shape, Placed, View, Zeros, MapPage, LinkPage, Writable, ZeroPage, Store;
    MapWritable(m, p, v);
    MapGood(m, p, v);
    WriteShows(MapPage(m, p, v, true).value, p, v, b);
  }

  lemma MapGood(m: Mem, p: Pid, v: VPage)
    requires Good(m) && Legal(m, Map(p, v, true)) && MapPage(m, p, v, true).Some?
    ensures var k := MapPage(m, p, v, true).value; Good(k) && k.procs.Keys == m.procs.Keys
  {
    hide Roles, Exact, Exclusive, View, MapPage;
    MapRefines(m, p, v, true);
    MapMeta(m, p, v, true);
  }

  lemma WriteShows(k: Mem, p: Pid, v: VPage, b: bv8)
    requires Good(k) && p in k.procs && UserPage(v.d, v.t) && Writable(k, p, v) && b != 0
    ensures var n := Store(k, p, v.d, v.t, 0, b);
            && Good(n) && n.procs == k.procs && n.counts == k.counts && Maps(n, p, v.d, v.t)
            && Walk(n, p, v.d, v.t) < |n.pages| && n.pages[Walk(n, p, v.d, v.t)] != ZeroPage()
  {
    hide Roles, Exact, Exclusive, View;
    MappedIsHeld(k, p, v.d, v.t);
    StoreRefines(k, p, v, 0, b);
    var f := Walk(k, p, v.d, v.t);
    assert Store(k, p, v.d, v.t, 0, b).pages[f][0] == b;
  }

  lemma MapWritable(m: Mem, p: Pid, v: VPage)
    requires Inv(m) && p in m.procs && UserPage(v.d, v.t) && !Maps(m, p, v.d, v.t) && Zeros(m.counts) >= 3
    ensures MapPage(m, p, v, true).Some?
    ensures var k := MapPage(m, p, v, true).value; Shape(k) && Writable(k, p, v) && Zeros(k.counts) > 0
  {
    LinkFailsExactly(m, p, v.d, v.t);
    LinkTakes(m, p, v.d, v.t);
    hide Roles, Exact, Exclusive, View, LinkPage, Zeros, Fill;
    FillWritable(LinkPage(m, p, v.d, v.t).value, p, v);
  }

  lemma FillWritable(m: Mem, p: Pid, v: VPage)
    requires Inv(m) && Maps(m, p, v.d, v.t) && Dent(m, p, v.d).write
    ensures var k := Fill(m, p, v, true); Shape(k) && Writable(k, p, v) && k.counts == m.counts
  {
    hide Roles, Exact, Exclusive, View;
    MappedIsHeld(m, p, v.d, v.t);
    var n2 := Overwrite(m, Walk(m, p, v.d, v.t), ZeroPage());
    SetProcInv(n2, p, n2.procs[p].brk, n2.procs[p].vmap + {v});
    var n3 := SetProc(n2, p, n2.procs[p].brk, n2.procs[p].vmap + {v});
    assert Dent(n3, p, v.d) == Dent(m, p, v.d) && n3.counts == m.counts;
    FlagWritable(n3, p, v.d, v.t);
  }

  lemma FlagWritable(m: Mem, p: Pid, d: int, t: int)
    requires Inv(m) && Maps(m, p, d, t) && Dent(m, p, d).write
    ensures var k := FlagPage(m, p, d, t, true, false); Shape(k) && Writable(k, p, VPage(d, t)) && k.counts == m.counts
  {
    hide Exact, Exclusive;
  }

  lemma LinkTakes(m: Mem, p: Pid, d: int, t: int)
    requires Inv(m) && p in m.procs && UserPage(d, t) && LinkPage(m, p, d, t).Some?
    ensures Zeros(LinkPage(m, p, d, t).value.counts) >= Zeros(m.counts) - 2
  {
    EntryNeeds(m, p, d);
    var n := EntryPrivate(m, p, d).value;
    GetPageFrame(n);
    hide Roles, Exact, Exclusive, FirstFree, EntryPrivate;
  }

  /** After a fork the child walks to the parent's frame, and its count shows it. */
  lemma ForkedPageShared(m: Mem, p: Pid, c: Pid, v: VPage)
    requires Inv(m) && Maps(m, p, v.d, v.t) && c !in m.procs && Inv(ForkSpace(m, p, c))
    ensures var n, f := ForkSpace(m, p, c), Walk(m, p, v.d, v.t);
            && Maps(n, c, v.d, v.t) && Walk(n, c, v.d, v.t) == f && n.pages == m.pages
            && f < |n.counts| && n.counts[f] >= 2
  {
    hide Exclusive;
    var f := Walk(m, p, v.d, v.t);
    MappedIsHeld(m, p, v.d, v.t);
    ForkTent(m, p, c, c, v.d, v.t);
    assert Holds(m, p, f);
  }
}
