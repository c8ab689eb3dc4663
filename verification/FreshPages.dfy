/** What a page linked on demand shows: link_page does not clear the frame it takes. */
module FreshPages {
  import opened Prelude
  import opened PageTables
  import opened PageTableProofs
  import opened PageUpdates
  import opened PageOps
  import opened CowRefinement
  import opened MmapPages
  import opened CowMachine
  import opened RefCounts

  /** A page linked on demand reads as zeros exactly if the frame taken for it held zeros. */
  lemma DemandZeroExactly(m: Mem, p: Pid, v: VPage)
    requires Good(m) && p in m.procs && UserPage(v.d, v.t) && !Maps(m, p, v.d, v.t) && Demand(m, p, v).Ok?
    ensures LinkPage(m, p, v.d, v.t).Some? && Good(Demand(m, p, v).m) && p in Demand(m, p, v).m.procs
    ensures var n, f := Demand(m, p, v).m, LinkFrame(m, p, v.d, v.t);
            && v in View(n, p) && View(n, p)[v].bytes == m.pages[f]
            && (View(n, p)[v].bytes == ZeroPage() <==> m.pages[f] == ZeroPage())
  {
    hide Roles, Exact, Exclusive, View, LinkPage, LinkFrame, ZeroPage, Placed;
    InView(m, p, v.d, v.t);
    var junk := DemandRefines(m, p, v);
    var n := Demand(m, p, v).m;
    assert Views(n)[p] == View(n, p);
  }

  /** The first two free frames in the order of get_page. */
  function FirstTwo(counts: seq<nat>): (r: Option<(nat, nat)>) {
    if StartPage(|counts|) > |counts| then None
    else match FirstFree(counts, StartPage(|counts|))
      case None => None
      case Some(f) =>
        match FirstFree(counts[f := 1], StartPage(|counts|))
        case None => None
        case Some(g) => Some((f, g))
  }

  /** Where there is no table yet, the table takes the first free frame and the page the second. */
  lemma FreshFrames(m: Mem, p: Pid, d: int, t: int)
    requires Inv(m) && p in m.procs && UserPage(d, t) && !Dent(m, p, d).present && Zeros(m.counts) >= 2
    ensures LinkPage(m, p, d, t).Some? && !Maps(m, p, d, t) && FirstTwo(m.counts).Some?
    ensures LinkFrame(m, p, d, t) == FirstTwo(m.counts).value.1 == Walk(LinkPage(m, p, d, t).value, p, d, t)
  {
    LinkFailsExactly(m, p, d, t);
    GetPageFrame(m);
    var f := GetPage(m).value;
    AddTableInv(m, p, d, f);
    var k := AddTable(m, p, d, f);
    assert EntryPrivate(m, p, d) == Some(k) && k.counts == m.counts[f := 1];
    hide Roles, Exact, Exclusive, FirstFree, Zeros;
    assert !Maps(k, p, d, t);
    GetPageFrame(k);
    AddPageInv(k, p, d, t, GetPage(k).value);
  }

  /** A process without a table for `v` gets both frames. */
  ghost predicate Fresh(m: Mem, p: Pid, v: VPage) {
    && Good(m) && p in m.procs && UserPage(v.d, v.t) && !Dent(m, p, v.d).present && OnDemand(m, p, v)
    && Zeros(m.counts) >= 2
  }

  lemma DemandLinks(m: Mem, p: Pid, v: VPage)
    requires Fresh(m, p, v)
    ensures Demand(m, p, v).Ok? && !Maps(m, p, v.d, v.t) && FirstTwo(m.counts).Some?
    ensures var k := Demand(m, p, v).m;
            && Good(k) && k.procs.Keys == m.procs.Keys && Writable(k, p, v)
            && Walk(k, p, v.d, v.t) == FirstTwo(m.counts).value.1
            && LinkPage(m, p, v.d, v.t).Some? && LinkFrame(m, p, v.d, v.t) == FirstTwo(m.counts).value.1
  {
    hide Roles, Exact, Exclusive, View, Zeros, FirstTwo, Placed;
    FreshFrames(m, p, v.d, v.t);
    hide LinkPage, LinkFrame;
    var junk := DemandRefines(m, p, v);
  }

  lemma StoreByte(k: Mem, p: Pid, v: VPage, off: nat, b: bv8)
    requires Good(k) && p in k.procs && UserPage(v.d, v.t) && Writable(k, p, v) && off < PAGE_SIZE
    ensures var n, f := Store(k, p, v.d, v.t, off, b), Walk(k, p, v.d, v.t);
            && Good(n) && n.procs == k.procs && f < |n.pages| && |n.pages[f]| == PAGE_SIZE && n.pages[f][off] == b
  {
    hide Roles, Exact, Exclusive, View, Placed;
    MappedIsHeld(k, p, v.d, v.t);
    StoreRefines(k, p, v, off, b);
  }

  /** It stores there: the byte ends up in the second free frame. */
  lemma FirstStore(m: Mem, p: Pid, v: VPage, off: nat, b: bv8)
    requires Fresh(m, p, v) && off < PAGE_SIZE
    ensures Step(m, Write(p, v, off, b)).Ok? && FirstTwo(m.counts).Some?
    ensures var n, f := Step(m, Write(p, v, off, b)).m, FirstTwo(m.counts).value.1;
            && Good(n) && n.procs.Keys == m.procs.Keys
            && f < |n.pages| && |n.pages[f]| == PAGE_SIZE && n.pages[f][off] == b
  {
    hide Roles, Exact, Exclusive, Zeros, FirstTwo, Placed, Demand, Walk, View, Store;
    DemandLinks(m, p, v);
    StoreByte(Demand(m, p, v).m, p, v, off, b);
  }

  /** Exit leaves the bytes, and with no process left the counts of boot. */
  lemma LastExit(m: Mem, p: Pid)
    requires Good(m) && m.procs.Keys == {p}
    ensures Die(m, p).Killed?
    ensures var n := Die(m, p).m; Good(n) && n.procs == map[] && n.pages == m.pages && |n.counts| == |m.counts|
    ensures KERNEL_FRAMES + LOW_FRAMES <= |m.counts| <= MAX_FRAMES && Die(m, p).m.counts == Boot(|m.counts|).counts
  {
    hide Roles, Exact, Exclusive, View, Zeros, Placed;
    ExitRefines(m, p);
    var n := Die(m, p).m;
    assert n.procs.Keys == {};
    assert n.procs == map[];
    NothingLeaks(n);
  }

  lemma SpawnFresh(m: Mem, p: Pid, v: VPage)
    requires Good(m) && m.procs == map[] && UserPage(v.d, v.t) && PageNumber(v) >= STACK_BOTTOM_PAGE
    ensures Fresh(Spawn(m, p), p, v) && Spawn(m, p).procs.Keys == {p}
    ensures Spawn(m, p).counts == m.counts == Boot(|m.counts|).counts && Spawn(m, p).pages == m.pages
  {
    NothingLeaks(m);
    SpawnGood(m, p);
    SpawnShape(m, p);
    ZerosAll(Boot(|m.counts|).counts, KERNEL_FRAMES);
    hide Roles, Exact, Exclusive, Zeros;
  }

  lemma RunTwo(m: Mem, e: Event, f: Event)
    requires Good(m) && Legal(m, e) && Step(m, e).Ok? && Good(Step(m, e).m) && Legal(Step(m, e).m, f)
    requires !Step(Step(m, e).m, f).Panic?
    ensures Run(m, [e, f]) == Some(Step(Step(m, e).m, f).m)
  {
    hide Good, Legal, Step;
    var k := Step(Step(m, e).m, f).m;
    assert [e, f][1..] == [f] && [f][1..] == [];
    assert Run(k, []) == Some(k);
    assert Run(Step(m, e).m, [f]) == Some(k);
  }

  lemma RunOne(m: Mem, e: Event)
    requires Good(m) && Legal(m, e) && !Step(m, e).Panic?
    ensures Run(m, [e]) == Some(Step(m, e).m)
  {
    hide Good, Legal, Step;
    assert [e][1..] == [];
    assert Run(Step(m, e).m, []) == Some(Step(m, e).m);
  }

  /** The first process stores a byte on its stack and exits; the next one finds it on its own. */
  lemma StaleByteRun(total: nat, p: Pid, q: Pid, v: VPage, off: nat, b: bv8)
    requires KERNEL_FRAMES + LOW_FRAMES <= total <= MAX_FRAMES && off < PAGE_SIZE
    requires UserPage(v.d, v.t) && PageNumber(v) >= STACK_BOTTOM_PAGE
    ensures var r := Run(Spawn(Boot(total), p), [Write(p, v, off, b), Exit(p)]);
            && r.Some? && Good(r.value) && r.value.procs == map[]
            && var s := Run(Spawn(r.value, q), [Touch(q, v)]);
               && s.Some? && Shape(s.value) && q in s.value.procs && v in View(s.value, q)
               && |View(s.value, q)[v].bytes| == PAGE_SIZE && View(s.value, q)[v].bytes[off] == b
  {
    hide Roles, Exact, Exclusive, View, Zeros, Placed, Run, UserWrite, Demand, FirstTwo, LinkFrame, LinkPage, Fresh;
    BootGood(total);
    SpawnFresh(Boot(total), p, v);
    var m := Spawn(Boot(total), p);
    assert Good(m) by { FreshGood(m, p, v); }
    FirstStore(m, p, v, off, b);
    var n := Step(m, Write(p, v, off, b)).m;
    StoreShape(m, p, v, off, b);
    LastExit(n, p);
    var k := Die(n, p).m;
    RunTwo(m, Write(p, v, off, b), Exit(p));
    SpawnFresh(k, q, v);
    var j := Spawn(k, q);
    DemandLinks(j, q, v);
    assert Good(j) by { FreshGood(j, q, v); }
    RunOne(j, Touch(q, v));
    DemandZeroExactly(j, q, v);
  }

  lemma FreshGood(m: Mem, p: Pid, v: VPage)
    requires Fresh(m, p, v)
    ensures Good(m) && p in m.procs
  {
  }

  /** No step changes the number of frames. */
  lemma StoreShape(m: Mem, p: Pid, v: VPage, off: nat, b: bv8)
    requires Fresh(m, p, v) && off < PAGE_SIZE && Step(m, Write(p, v, off, b)).Ok?
    ensures |Step(m, Write(p, v, off, b)).m.counts| == |m.counts|
  {
    hide Roles, Exact, Exclusive, View, Zeros, Placed;
    FreshFrames(m, p, v.d, v.t);
    var k := EntryPrivate(m, p, v.d).value;
    assert |k.counts| == |m.counts|;
  }
}
