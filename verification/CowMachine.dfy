/**
 The kernel's memory as a machine driven by what processes do, and the theorem
 that every run of it looks to the processes like a run of the eager machine.
 */
module CowMachine {
  import opened Prelude
  import opened PageTables
  import opened PageTableProofs
  import opened PageUpdates
  import opened PageFork
  import opened PageOps
  import opened CowRefinement
  import opened MmapPages

  const MMAP_FIRST: int := 32768        // USER_MMAP_ADDR >> 12
  const MMAP_END: int := 64256          // USER_MMAP_LIMIT >> 12

  datatype Event =
    | Touch(p: Pid, v: VPage)                         // a read
    | Write(p: Pid, v: VPage, off: nat, b: bv8)       // a store by user code
    | Map(p: Pid, v: VPage, writable: bool)           // one page of sys_mmap
    | Unmap(p: Pid, v: VPage)                         // one page of sys_munmap
    | Trim(p: Pid, v: VPage)                          // one page of sys_brk shrinking the heap
    | SetBrk(p: Pid, brk: int)                        // the end of sys_brk
    | Fork(p: Pid, c: Pid)
    | Exit(p: Pid)

  datatype Outcome = Ok(m: Mem) | Killed(m: Mem) | Panic

  predicate InMmap(v: VPage) { MMAP_FIRST <= PageNumber(v) < MMAP_END }

  /** Where page_fault links a page on demand: the heap below brk, and the stack. */
  ghost predicate OnDemand(m: Mem, p: Pid, v: VPage)
    requires p in m.procs
  {
    PageNumber(v) < m.procs[p].brk || PageNumber(v) >= STACK_BOTTOM_PAGE
  }

  /** Pages in the mmap area are mapped only while their vmap bit is set. */
  ghost predicate Placed(m: Mem)
    requires Shape(m)
  {
    && (forall p | p in m.procs :: m.procs[p].brk <= MMAP_FIRST)
    && (forall p, v | p in m.procs && v in View(m, p) && InMmap(v) :: v in m.procs[p].vmap)
  }

  ghost predicate Good(m: Mem) { Inv(m) && Placed(m) }

  /** What a process may ask for.  sys_mmap, sys_munmap and sys_brk assert their ranges; a page
      that is mapped over is not shared, since MapPresent shows that nothing holds otherwise. */
  ghost predicate Legal(m: Mem, e: Event) {
    && e.p in m.procs
    && (e.Touch? || e.Write? || e.Map? || e.Unmap? || e.Trim? ==> UserPage(e.v.d, e.v.t))
    && (e.Write? ==> e.off < PAGE_SIZE)
    && (e.Map? ==> InMmap(e.v) && Shape(m) && Mappable(m, e.p, e.v, e.writable))
    && (e.Unmap? ==> InMmap(e.v))
    && (e.Trim? ==> PageNumber(e.v) < MMAP_FIRST)
    && (e.SetBrk? ==> e.brk <= MMAP_FIRST)
    && (e.Fork? ==> e.c !in m.procs)
  }

  ghost function Die(m: Mem, p: Pid): Outcome
    requires Inv(m) && p in m.procs
  {
    HeldIsCounted(m, p);
    Killed(ExitSpace(m, p))
  }

  /** page_fault on an absent page. */
  ghost function Demand(m: Mem, p: Pid, v: VPage): (o: Outcome)
    requires Inv(m) && p in m.procs && UserPage(v.d, v.t)
    ensures !o.Killed? && (o.Ok? ==> Inv(o.m) && Maps(o.m, p, v.d, v.t))
    ensures o.Ok? && !Maps(m, p, v.d, v.t) ==> Dent(o.m, p, v.d).write && Tent(o.m, p, v.d, v.t).write
  {
    if Maps(m, p, v.d, v.t) then Ok(m)
    else if !OnDemand(m, p, v) then Panic
    else
      var r := LinkPage(m, p, v.d, v.t);
      if r.None? then Panic else Ok(r.value)
  }

  /** The processor allows a write only if both levels do. */
  ghost predicate Writable(m: Mem, p: Pid, v: VPage)
    requires Shape(m)
  {
    Maps(m, p, v.d, v.t) && Dent(m, p, v.d).write && Tent(m, p, v.d, v.t).write
  }

  /** page_fault on a refused write: when it returns, the write is allowed. */
  ghost function WriteFault(m: Mem, p: Pid, v: VPage): (o: Outcome)
    requires Inv(m) && p in m.procs && UserPage(v.d, v.t) && !Writable(m, p, v)
    ensures o.Ok? ==> Inv(o.m) && Writable(o.m, p, v)
  {
    if !Maps(m, p, v.d, v.t) then Demand(m, p, v)
    else if Tent(m, p, v.d, v.t).readonly then Die(m, p)
    else
      var r := CopyOnWrite(m, p, v.d, v.t);
      if r.None? then Panic else Ok(r.value)
  }

  /** A store by user code, retried after at most one fault. */
  ghost function UserWrite(m: Mem, p: Pid, v: VPage, off: nat, b: bv8): (o: Outcome)
    requires Inv(m) && p in m.procs && UserPage(v.d, v.t) && off < PAGE_SIZE
  {
    if Writable(m, p, v) then Ok(Store(m, p, v.d, v.t, off, b))
    else
      var o1 := WriteFault(m, p, v);
      if o1.Ok? then Ok(Store(o1.m, p, v.d, v.t, off, b)) else o1
  }

  // ---- one step ---------------------------------------------------------------------

  /** sys_munmap asserts that the vmap bit is set. */
  ghost function UnmapPage(m: Mem, p: Pid, v: VPage): (o: Outcome)
    requires Inv(m) && p in m.procs && UserPage(v.d, v.t)
    ensures !o.Killed?
  {
    var r := UnlinkPage(m, p, v.d, v.t);
    if r.None? || v !in m.procs[p].vmap || p !in r.value.procs then Panic
    else Ok(SetProc(r.value, p, m.procs[p].brk, m.procs[p].vmap - {v}))
  }

  ghost function Step(m: Mem, e: Event): Outcome
    requires Good(m) && Legal(m, e)
  {
    match e
    case Touch(p, v) => Demand(m, p, v)
    case Write(p, v, off, b) => UserWrite(m, p, v, off, b)
    case Map(p, v, w) =>
      var r := MapPage(m, p, v, w);
      if r.None? then Panic else Ok(r.value)
    case Unmap(p, v) => UnmapPage(m, p, v)
    case Trim(p, v) =>
      var r := UnlinkPage(m, p, v.d, v.t);
      if r.None? then Panic else Ok(r.value)
    case SetBrk(p, brk) => Ok(SetProc(m, p, brk, m.procs[p].vmap))
    case Fork(p, c) => Ok(ForkSpace(m, p, c))
    case Exit(p) => Die(m, p)
  }

  // ---- the eager machine ---------------------------------------------------------------

  /** An absent page appears with contents that nothing is promised about. */
  function EagerTouch(s: Space, v: VPage, junk: Page): Space {
    if v in s then s else s[v := Content(junk, false)]
  }

  function Poke(c: Content, off: nat, b: bv8): Content {
    if off < |c.bytes| then c.(bytes := c.bytes[off := b]) else c
  }

  function EagerStep(a: Eager, e: Event, junk: Page): Eager
    requires e.p in a
  {
    match e
    case Touch(p, v) => a[p := EagerTouch(a[p], v, junk)]
    case Write(p, v, off, b) =>
      var s := EagerTouch(a[p], v, junk);
      if s[v].readonly then a - {p} else a[p := s[v := Poke(s[v], off, b)]]
    case Map(p, v, w) => a[p := a[p][v := Content(ZeroPage(), !w)]]
    case Unmap(p, v) => a[p := a[p] - {v}]
    case Trim(p, v) => a[p := a[p] - {v}]
    case SetBrk(p, brk) => a
    case Fork(p, c) => a[c := a[p]]
    case Exit(p) => a - {p}
  }

  // ---- the operations leave brk and vmap alone -------------------------------------------

  ghost predicate SameMeta(m: Mem, n: Mem) {
    && n.procs.Keys == m.procs.Keys
    && forall q | q in m.procs :: n.procs[q].brk == m.procs[q].brk && n.procs[q].vmap == m.procs[q].vmap
  }

  lemma EntryPrivateMeta(m: Mem, p: Pid, d: int)
    requires Inv(m) && p in m.procs && UserSlot(d) && EntryPrivate(m, p, d).Some?
    ensures SameMeta(m, EntryPrivate(m, p, d).value)
  {
    hide Roles, Exact, Exclusive, TableStep;
  }

  lemma LinkPageMeta(m: Mem, p: Pid, d: int, t: int)
    requires Inv(m) && p in m.procs && UserPage(d, t) && LinkPage(m, p, d, t).Some?
    ensures SameMeta(m, LinkPage(m, p, d, t).value)
  {
    hide Roles, Exact, Exclusive, TableStep;
    EntryPrivateMeta(m, p, d);
    hide EntryPrivate;
  }

  lemma UnlinkPageMeta(m: Mem, p: Pid, d: int, t: int)
    requires Inv(m) && p in m.procs && UserPage(d, t) && UnlinkPage(m, p, d, t).Some?
    ensures SameMeta(m, UnlinkPage(m, p, d, t).value)
  {
    hide Roles, Exact, Exclusive, TableStep;
    if HasTable(m, p, d) {
      EntryPrivateMeta(m, p, d);
    }
    hide EntryPrivate;
  }

  lemma CopyOnWriteMeta(m: Mem, p: Pid, d: int, t: int)
    requires Inv(m) && Maps(m, p, d, t) && !Tent(m, p, d, t).readonly && CopyOnWrite(m, p, d, t).Some?
    ensures SameMeta(m, CopyOnWrite(m, p, d, t).value)
  {
    hide Roles, Exact, Exclusive, TableStep;
    EntryPrivateMeta(m, p, d);
    hide EntryPrivate;
  }

  // ---- one step refines one eager step -------------------------------------------------

  /** n is good, and reads like the eager state a. */
  ghost predicate Simulates(n: Mem, a: Eager) {
    Good(n) && Views(n) == a
  }

  /** Only process p's pages and bookkeeping changed. */
  lemma OneSpace(m: Mem, n: Mem, p: Pid, s: Space)
    requires Good(m) && Inv(n) && p in m.procs && OthersSame(m, n, p) && View(n, p) == s
    requires n.procs.Keys == m.procs.Keys
    requires forall q | q in m.procs && q != p :: n.procs[q].brk == m.procs[q].brk && n.procs[q].vmap == m.procs[q].vmap
    requires n.procs[p].brk <= MMAP_FIRST
    requires forall v | v in s && InMmap(v) :: v in n.procs[p].vmap
    ensures Simulates(n, Views(m)[p := s])
  {
    hide Roles, Exact, Exclusive, View;
    assert Placed(n);
    assert Views(n) == Views(m)[p := s];
  }

  lemma DemandRefines(m: Mem, p: Pid, v: VPage) returns (junk: Page)
    requires Good(m) && p in m.procs && UserPage(v.d, v.t) && Demand(m, p, v).Ok?
    ensures Simulates(Demand(m, p, v).m, Views(m)[p := EagerTouch(View(m, p), v, junk)])
    ensures |junk| == PAGE_SIZE && SameMeta(m, Demand(m, p, v).m)
    ensures !Maps(m, p, v.d, v.t) ==>
              LinkPage(m, p, v.d, v.t).Some? && junk == m.pages[LinkFrame(m, p, v.d, v.t)]
  {
    hide Roles, Exact, Exclusive, View, LinkPage, LinkFrame;
    InView(m, p, v.d, v.t);
    if Maps(m, p, v.d, v.t) {
      junk := ZeroPage();
    } else {
      junk := LinkPageViews(m, p, v.d, v.t);
      LinkPageMeta(m, p, v.d, v.t);
      assert !InMmap(v);
    }
    OneSpace(m, Demand(m, p, v).m, p, EagerTouch(View(m, p), v, junk));
  }

  lemma StoreRefines(m: Mem, p: Pid, v: VPage, off: nat, b: bv8)
    requires Good(m) && Maps(m, p, v.d, v.t) && off < PAGE_SIZE && Tent(m, p, v.d, v.t).write
    ensures v in View(m, p) && !View(m, p)[v].readonly
    ensures Simulates(Store(m, p, v.d, v.t, off, b), Views(m)[p := View(m, p)[v := Poke(View(m, p)[v], off, b)]])
  {
    hide Roles, Exact, View;
    InView(m, p, v.d, v.t);
    StoreViews(m, p, v.d, v.t, off, b);
    OneSpace(m, Store(m, p, v.d, v.t, off, b), p, View(m, p)[v := Poke(View(m, p)[v], off, b)]);
  }

  /** An absent page: linked on demand, then written. */
  lemma WriteAbsent(m: Mem, p: Pid, v: VPage, off: nat, b: bv8) returns (junk: Page)
    requires Good(m) && p in m.procs && UserPage(v.d, v.t) && off < PAGE_SIZE && !Maps(m, p, v.d, v.t)
    requires UserWrite(m, p, v, off, b).Ok?
    ensures |junk| == PAGE_SIZE && p in Views(m)
    ensures Simulates(UserWrite(m, p, v, off, b).m, EagerStep(Views(m), Write(p, v, off, b), junk))
  {
    hide Roles, Exact, Exclusive, View, Store, LinkPage, LinkFrame, Placed;
    junk := DemandRefines(m, p, v);
    var k := Demand(m, p, v).m;
    StoreRefines(k, p, v, off, b);
    assert Views(k)[p] == View(k, p);
  }

  /** A page that is there: written at once, after copy_on_write, or not at all. */
  lemma WritePresent(m: Mem, p: Pid, v: VPage, off: nat, b: bv8, junk: Page)
    requires Good(m) && p in m.procs && UserPage(v.d, v.t) && off < PAGE_SIZE && Maps(m, p, v.d, v.t)
    requires !UserWrite(m, p, v, off, b).Panic? && !Tent(m, p, v.d, v.t).readonly
    ensures UserWrite(m, p, v, off, b).Ok? && p in Views(m)
    ensures Simulates(UserWrite(m, p, v, off, b).m, EagerStep(Views(m), Write(p, v, off, b), junk))
  {
    hide Roles, Exact, Exclusive, View, Store;
    InView(m, p, v.d, v.t);
    if Dent(m, p, v.d).write && Tent(m, p, v.d, v.t).write {
      StoreRefines(m, p, v, off, b);
    } else {
      var k := CopyOnWrite(m, p, v.d, v.t).value;
      CopyOnWriteViews(m, p, v.d, v.t);
      CopyOnWriteMeta(m, p, v.d, v.t);
      OneSpace(m, k, p, View(m, p));
      hide CopyOnWrite;
      assert Views(m)[p := View(m, p)] == Views(m);
      StoreRefines(k, p, v, off, b);
    }
  }

  lemma ExitRefines(m: Mem, p: Pid)
    requires Good(m) && p in m.procs
    ensures Die(m, p).Killed? && Simulates(Die(m, p).m, Views(m) - {p})
  {
    hide Roles, Exclusive, View;
    HeldIsCounted(m, p);
    ExitViews(m, p);
    var n := ExitSpace(m, p);
    assert Placed(n);
    assert Views(n) == Views(m) - {p};
  }

  lemma WriteRefines(m: Mem, p: Pid, v: VPage, off: nat, b: bv8) returns (junk: Page)
    requires Good(m) && p in m.procs && UserPage(v.d, v.t) && off < PAGE_SIZE
    requires !UserWrite(m, p, v, off, b).Panic?
    ensures |junk| == PAGE_SIZE && p in Views(m)
    ensures Simulates(UserWrite(m, p, v, off, b).m, EagerStep(Views(m), Write(p, v, off, b), junk))
  {
    hide Roles, Exact, View, Store, Demand, CopyOnWrite;
    junk := ZeroPage();
    InView(m, p, v.d, v.t);
    if !Maps(m, p, v.d, v.t) {
      junk := WriteAbsent(m, p, v, off, b);
    } else if Tent(m, p, v.d, v.t).readonly {
      ExitRefines(m, p);
    } else {
      WritePresent(m, p, v, off, b, junk);
    }
  }

  lemma MapMeta(m: Mem, p: Pid, v: VPage, w: bool)
    requires Inv(m) && p in m.procs && UserPage(v.d, v.t) && MapPage(m, p, v, w).Some?
    ensures var n := MapPage(m, p, v, w).value;
            && n.procs.Keys == m.procs.Keys
            && (forall q | q in m.procs && q != p ::
                 n.procs[q].brk == m.procs[q].brk && n.procs[q].vmap == m.procs[q].vmap)
            && n.procs[p].brk == m.procs[p].brk && n.procs[p].vmap == m.procs[p].vmap + {v}
  {
    hide Roles, Exact, Exclusive;
    LinkPageMeta(m, p, v.d, v.t);
    hide LinkPage;
  }

  /** An address that scan_page chose is clear in vmap, so nothing is there. */
  lemma ScannedMappable(m: Mem, p: Pid, v: VPage, w: bool)
    requires Good(m) && p in m.procs && UserPage(v.d, v.t) && InMmap(v) && v !in m.procs[p].vmap
    ensures Mappable(m, p, v, w)
  {
    hide Roles, Exact, Exclusive, View;
    InView(m, p, v.d, v.t);
  }

  lemma MapRefines(m: Mem, p: Pid, v: VPage, w: bool)
    requires Good(m) && Legal(m, Map(p, v, w)) && MapPage(m, p, v, w).Some?
    ensures Simulates(MapPage(m, p, v, w).value, Views(m)[p := View(m, p)[v := Content(ZeroPage(), !w)]])
  {
    hide Roles, Exact, Exclusive, View;
    InView(m, p, v.d, v.t);
    MapSafe(m, p, v, w);
    MapMeta(m, p, v, w);
    hide MapPage;
    OneSpace(m, MapPage(m, p, v, w).value, p, View(m, p)[v := Content(ZeroPage(), !w)]);
  }

  lemma UnlinkRefines(m: Mem, p: Pid, v: VPage)
    requires Good(m) && p in m.procs && UserPage(v.d, v.t) && UnlinkPage(m, p, v.d, v.t).Some?
    ensures Simulates(UnlinkPage(m, p, v.d, v.t).value, Views(m)[p := View(m, p) - {v}])
  {
    hide Roles, Exact, Exclusive, View;
    UnlinkPageViews(m, p, v.d, v.t);
    UnlinkPageMeta(m, p, v.d, v.t);
    hide UnlinkPage;
    OneSpace(m, UnlinkPage(m, p, v.d, v.t).value, p, View(m, p) - {v});
  }

  lemma SetProcRefines(m: Mem, p: Pid, brk: int, vmap: set<VPage>)
    requires Good(m) && p in m.procs && brk <= MMAP_FIRST
    requires forall v | v in View(m, p) && InMmap(v) :: v in vmap
    ensures Simulates(SetProc(m, p, brk, vmap), Views(m))
  {
    hide Roles, Exact, Exclusive, View;
    SetProcInv(m, p, brk, vmap);
    OneSpace(m, SetProc(m, p, brk, vmap), p, View(m, p));
    assert Views(m)[p := View(m, p)] == Views(m);
  }

  lemma UnmapRefines(m: Mem, p: Pid, v: VPage)
    requires Good(m) && p in m.procs && UserPage(v.d, v.t) && UnmapPage(m, p, v).Ok?
    ensures Simulates(UnmapPage(m, p, v).m, Views(m)[p := View(m, p) - {v}])
  {
    hide Roles, Exact, Exclusive, View;
    UnlinkRefines(m, p, v);
    UnlinkPageMeta(m, p, v.d, v.t);
    hide UnlinkPage;
    var k := UnlinkPage(m, p, v.d, v.t).value;
    assert Views(k)[p] == View(k, p);
    SetProcRefines(k, p, m.procs[p].brk, m.procs[p].vmap - {v});
  }

  lemma ForkRefines(m: Mem, p: Pid, c: Pid)
    requires Good(m) && p in m.procs && c !in m.procs
    ensures Simulates(ForkSpace(m, p, c), Views(m)[c := View(m, p)])
  {
    hide Roles, Exact, Exclusive, View;
    ForkViews(m, p, c);
    var n := ForkSpace(m, p, c);
    assert Placed(n);
    assert Views(n) == Views(m)[c := View(m, p)];
  }

  /** Every step that does not panic keeps the invariant and is, to all the
      processes, a step of the eager machine. */
  lemma StepRefines(m: Mem, e: Event) returns (junk: Page)
    requires Good(m) && Legal(m, e) && !Step(m, e).Panic?
    ensures |junk| == PAGE_SIZE && e.p in Views(m)
    ensures Simulates(Step(m, e).m, EagerStep(Views(m), e, junk))
  {
    hide Roles, Exact, Exclusive, View, Shape, Demand, UserWrite, UnlinkPage, MapPage, UnmapPage, Placed;
    junk := ZeroPage();
    match e
    case Touch(p, v) => junk := DemandRefines(m, p, v);
    case Write(p, v, off, b) => junk := WriteRefines(m, p, v, off, b);
    case Map(p, v, w) => MapRefines(m, p, v, w);
    case Unmap(p, v) => UnmapRefines(m, p, v);
    case Trim(p, v) => UnlinkRefines(m, p, v);
    case SetBrk(p, brk) => SetBrkRefines(m, p, brk);
    case Fork(p, c) => ForkRefines(m, p, c);
    case Exit(p) => ExitRefines(m, p);
  }

  lemma SetBrkRefines(m: Mem, p: Pid, brk: int)
    requires Good(m) && p in m.procs && brk <= MMAP_FIRST
    ensures Simulates(SetProc(m, p, brk, m.procs[p].vmap), Views(m))
  {
    SetProcRefines(m, p, brk, m.procs[p].vmap);
  }

  // ---- runs ---------------------------------------------------------------------------

  /** The state after a list of events, if all are legal and none panics. */
  ghost function Run(m: Mem, es: seq<Event>): Option<Mem>
    decreases |es|
  {
    if es == [] then Some(m)
    else if Good(m) && Legal(m, es[0]) && !Step(m, es[0]).Panic? then Run(Step(m, es[0]).m, es[1..])
    else None
  }

  /** The eager machine on the same events; None if a dead process acts. */
  function EagerRun(a: Eager, es: seq<Event>, junks: seq<Page>): Option<Eager>
    requires |junks| == |es|
    decreases |es|
  {
    if es == [] then Some(a)
    else if es[0].p in a then EagerRun(EagerStep(a, es[0], junks[0]), es[1..], junks[1..])
    else None
  }

  /** Copy-on-write refines eager copying, over every run. */
  lemma {:induction false} RunRefines(m: Mem, es: seq<Event>) returns (junks: seq<Page>)
    requires Good(m) && Run(m, es).Some?
    ensures |junks| == |es| && forall i | 0 <= i < |junks| :: |junks[i]| == PAGE_SIZE
    ensures Good(Run(m, es).value)
    ensures EagerRun(Views(m), es, junks) == Some(Views(Run(m, es).value))
    decreases |es|
  {
    hide Inv, Placed, Views, Step, EagerStep;
    if es == [] {
      junks := [];
    } else {
      var junk := StepRefines(m, es[0]);
      var rest := RunRefines(Step(m, es[0]).m, es[1..]);
      junks := [junk] + rest;
      assert junks[1..] == rest;
    }
  }

  /** In the eager machine a process's pages change only by its own events. */
  lemma {:induction false} EagerIsolation(a: Eager, es: seq<Event>, junks: seq<Page>, q: Pid)
    requires |junks| == |es| && q in a && EagerRun(a, es, junks).Some?
    requires forall i | 0 <= i < |es| :: es[i].p != q && (es[i].Fork? ==> es[i].c != q)
    ensures q in EagerRun(a, es, junks).value && EagerRun(a, es, junks).value[q] == a[q]
    decreases |es|
  {
    if es != [] {
      var a1 := EagerStep(a, es[0], junks[0]);
      assert q in a1 && a1[q] == a[q];
      EagerIsolation(a1, es[1..], junks[1..], q);
    }
  }

  /** Nothing other processes do, in any run, changes what q reads. */
  lemma Isolation(m: Mem, es: seq<Event>, q: Pid)
    requires Good(m) && q in m.procs && Run(m, es).Some?
    requires forall i | 0 <= i < |es| :: es[i].p != q && (es[i].Fork? ==> es[i].c != q)
    ensures Good(Run(m, es).value) && q in Run(m, es).value.procs
    ensures View(Run(m, es).value, q) == View(m, q)
  {
    hide Roles, Exact, Exclusive, View, Placed, Run, EagerRun;
    var junks := RunRefines(m, es);
    EagerIsolation(Views(m), es, junks, q);
    assert Views(Run(m, es).value)[q] == View(Run(m, es).value, q);
  }

  lemma ForkFirst(m: Mem, p: Pid, c: Pid, es: seq<Event>)
    requires Good(m) && p in m.procs && c !in m.procs && Run(m, [Fork(p, c)] + es).Some?
    ensures Run(m, [Fork(p, c)] + es) == Run(ForkSpace(m, p, c), es)
  {
    hide Roles, Exact, Exclusive, View, Placed, ForkSpace;
    var all := [Fork(p, c)] + es;
    assert all[0] == Fork(p, c) && all[1..] == es;
  }

  /** After a fork the child reads what the parent had at the fork, whatever the
      parent and everybody else do next, until the child itself acts. */
  lemma ForkSnapshot(m: Mem, p: Pid, c: Pid, es: seq<Event>)
    requires Good(m) && p in m.procs && c !in m.procs
    requires Run(m, [Fork(p, c)] + es).Some?
    requires forall i | 0 <= i < |es| :: es[i].p != c && (es[i].Fork? ==> es[i].c != c)
    ensures var n := Run(m, [Fork(p, c)] + es).value;
            Good(n) && c in n.procs && View(n, c) == View(m, p)
  {
    hide Roles, Exact, Exclusive, Shape, View, Placed, ForkSpace;
    var n := ForkSpace(m, p, c);
    ForkFirst(m, p, c, es);
    ForkRefines(m, p, c);
    assert Views(n)[c] == View(n, c);
    hide Run;
    Isolation(n, es, c);
  }
}
