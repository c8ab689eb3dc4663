/**
 Copy-on-write refines eager copying.

 The eager machine keeps, for every process, its own map from virtual pages to
 contents; its fork copies the whole map.  The view of a kernel state is what
 each process reads through its directory and tables.
 */
module CowRefinement {
  import opened Prelude
  import opened PageTables
  import opened PageTableProofs
  import opened PageUpdates
  import opened PageFork
  import opened PageOps

  datatype Content = Content(bytes: Page, readonly: bool)
  type Space = map<VPage, Content>
  type Eager = map<Pid, Space>

  ghost function UserPages(): set<VPage> {
    set d, t | FIRST_SLOT <= d < END_SLOT && 0 <= t < ENTRIES :: VPage(d, t)
  }

  ghost function ContentAt(m: Mem, p: Pid, v: VPage): Content
    requires Shape(m) && Maps(m, p, v.d, v.t)
  {
    var f := Walk(m, p, v.d, v.t);
    Content(if f < |m.pages| then m.pages[f] else [], Tent(m, p, v.d, v.t).readonly)
  }

  /** Everything process p can read. */
  ghost function View(m: Mem, p: Pid): Space
    requires Shape(m)
  {
    map v | v in UserPages() && Maps(m, p, v.d, v.t) :: ContentAt(m, p, v)
  }

  ghost function Views(m: Mem): Eager
    requires Shape(m)
  {
    map p | p in m.procs :: View(m, p)
  }

  // ---- how two states compare ---------------------------------------------------

  /** Every process but p reads the same. */
  ghost predicate OthersSame(m: Mem, n: Mem, p: Pid)
    requires Shape(m) && Shape(n)
  {
    n.procs.Keys == m.procs.Keys && forall q | q in m.procs && q != p :: View(n, q) == View(m, q)
  }

  ghost predicate SameViews(m: Mem, n: Mem)
    requires Shape(m) && Shape(n)
  {
    n.procs.Keys == m.procs.Keys && forall q | q in m.procs :: View(n, q) == View(m, q)
  }

  // ---- what the steps do to the views ---------------------------------------------

  lemma TableStepViews(m: Mem, n: Mem, p: Pid, d: int)
    requires Shape(m) && Shape(n) && TableStep(m, n, p, d) && n.pages == m.pages
    ensures SameViews(m, n)
  {
  }

  lemma SameWiringViews(m: Mem, n: Mem)
    requires Shape(m) && Shape(n) && SameWiring(m, n) && n.pages == m.pages
    ensures SameViews(m, n)
  {
    SameWiringMaps(m, n);
  }

  /** Every page of m other than (p, v) that is still mapped reads the same in n. */
  ghost predicate ReadsKept(m: Mem, n: Mem, p: Pid, v: VPage)
    requires Shape(m) && Shape(n)
  {
    forall q, u: VPage | Maps(m, q, u.d, u.t) && Maps(n, q, u.d, u.t) && (q != p || u != v) ::
      ContentAt(n, q, u) == ContentAt(m, q, u)
  }

  /** Frames in use keep their contents. */
  ghost predicate PagesKept(m: Mem, n: Mem)
    requires Shape(m) && Shape(n) && |n.counts| == |m.counts|
  {
    forall g | KERNEL_FRAMES <= g < |m.counts| && m.counts[g] > 0 :: n.pages[g] == m.pages[g]
  }

  lemma PageStepReads(m: Mem, n: Mem, p: Pid, d: int, t: int)
    requires Inv(m) && Shape(n) && PageStep(m, n, p, d, t) && PagesKept(m, n)
    ensures ReadsKept(m, n, p, VPage(d, t))
  {
    forall q, u: VPage | Maps(m, q, u.d, u.t) && Maps(n, q, u.d, u.t) && (q != p || u != VPage(d, t))
      ensures ContentAt(n, q, u) == ContentAt(m, q, u)
    {
      MappedIsHeld(m, q, u.d, u.t);
    }
  }

  lemma PageStepOthers(m: Mem, n: Mem, p: Pid, d: int, t: int)
    requires Shape(m) && Shape(n) && PageStep(m, n, p, d, t) && ReadsKept(m, n, p, VPage(d, t))
    ensures OthersSame(m, n, p)
  {
  }

  lemma PageStepMapped(m: Mem, n: Mem, p: Pid, d: int, t: int)
    requires Shape(m) && Shape(n) && PageStep(m, n, p, d, t) && ReadsKept(m, n, p, VPage(d, t))
    requires Maps(n, p, d, t)
    ensures View(n, p) == View(m, p)[VPage(d, t) := ContentAt(n, p, VPage(d, t))]
  {
    assert VPage(d, t) in UserPages();
  }

  lemma PageStepUnmapped(m: Mem, n: Mem, p: Pid, d: int, t: int)
    requires Shape(m) && Shape(n) && PageStep(m, n, p, d, t) && ReadsKept(m, n, p, VPage(d, t))
    requires !Maps(n, p, d, t)
    ensures View(n, p) == View(m, p) - {VPage(d, t)}
  {
    var v := VPage(d, t);
    forall u | u in UserPages() ensures u in View(n, p) <==> u in View(m, p) && u != v {
      assert u.d == d && u.t == t ==> u == v;
    }
  }

  // ---- what the updates do to the views -------------------------------------------

  lemma InView(m: Mem, p: Pid, d: int, t: int)
    requires Shape(m) && UserPage(d, t)
    ensures VPage(d, t) in View(m, p) <==> Maps(m, p, d, t)
    ensures Maps(m, p, d, t) ==> View(m, p)[VPage(d, t)] == ContentAt(m, p, VPage(d, t))
  {
    assert VPage(d, t) in UserPages();
  }

  lemma AddPageViews(m: Mem, p: Pid, d: int, t: int, f: nat)
    requires Inv(m) && HasTable(m, p, d) && Dent(m, p, d).write && UserPage(d, t) && !Maps(m, p, d, t)
    requires FreeFrame(m, f)
    ensures var n := AddPage(m, p, d, t, f);
            && Shape(n) && OthersSame(m, n, p)
            && View(n, p) == View(m, p)[VPage(d, t) := Content(m.pages[f], false)]
  {
    var n := AddPage(m, p, d, t, f);
    AddPageInv(m, p, d, t, f);
    PageStepReads(m, n, p, d, t);
    PageStepOthers(m, n, p, d, t);
    PageStepMapped(m, n, p, d, t);
  }

  lemma DropPageViews(m: Mem, p: Pid, d: int, t: int)
    requires Inv(m) && Maps(m, p, d, t) && Dent(m, p, d).write
    requires Walk(m, p, d, t) < |m.counts| && m.counts[Walk(m, p, d, t)] > 0
    ensures var n := DropPage(m, p, d, t);
            Shape(n) && OthersSame(m, n, p) && View(n, p) == View(m, p) - {VPage(d, t)}
  {
    var n := DropPage(m, p, d, t);
    DropPageInv(m, p, d, t);
    PageStepReads(m, n, p, d, t);
    PageStepOthers(m, n, p, d, t);
    PageStepUnmapped(m, n, p, d, t);
  }

  lemma FlagPageViews(m: Mem, p: Pid, d: int, t: int, write: bool, readonly: bool)
    requires Inv(m) && Maps(m, p, d, t) && Dent(m, p, d).write && Walk(m, p, d, t) < |m.counts|
    requires write ==> m.counts[Walk(m, p, d, t)] == 1 && !readonly
    ensures var n := FlagPage(m, p, d, t, write, readonly);
            && Shape(n) && OthersSame(m, n, p)
            && View(n, p) == View(m, p)[VPage(d, t) := Content(m.pages[Walk(m, p, d, t)], readonly)]
  {
    var n := FlagPage(m, p, d, t, write, readonly);
    FlagPageInv(m, p, d, t, write, readonly);
    PageStepReads(m, n, p, d, t);
    PageStepOthers(m, n, p, d, t);
    PageStepMapped(m, n, p, d, t);
  }

  lemma SplitPageViews(m: Mem, p: Pid, d: int, t: int, f: nat)
    requires Inv(m) && Maps(m, p, d, t) && Dent(m, p, d).write && !Tent(m, p, d, t).readonly && FreeFrame(m, f)
    requires Walk(m, p, d, t) < |m.counts| && m.counts[Walk(m, p, d, t)] > 1
    ensures Shape(SplitPage(m, p, d, t, f)) && SameViews(m, SplitPage(m, p, d, t, f))
  {
    hide Roles, Exact, Exclusive;
    var n := SplitPage(m, p, d, t, f);
    SplitPageInv(m, p, d, t, f);
    PageStepReads(m, n, p, d, t);
    PageStepOthers(m, n, p, d, t);
    PageStepMapped(m, n, p, d, t);
    InView(m, p, d, t);
    assert ContentAt(n, p, VPage(d, t)) == View(m, p)[VPage(d, t)];
  }

  // ---- what the operations do to the views ------------------------------------------

  /** Undoing table sharing changes nothing anyone reads. */
  lemma EntryPrivateViews(m: Mem, p: Pid, d: int)
    requires Inv(m) && p in m.procs && UserSlot(d) && EntryPrivate(m, p, d).Some?
    ensures SameViews(m, EntryPrivate(m, p, d).value)
  {
    TableStepViews(m, EntryPrivate(m, p, d).value, p, d);
  }

  /** The frame link_page takes for an absent page, after the table has got its own. */
  ghost function LinkFrame(m: Mem, p: Pid, d: int, t: int): (f: nat)
    requires Inv(m) && p in m.procs && UserPage(d, t) && LinkPage(m, p, d, t).Some? && !Maps(m, p, d, t)
    ensures f < |m.pages|
  {
    var k := EntryPrivate(m, p, d).value;
    EntryPrivateViews(m, p, d);
    InView(m, p, d, t);
    InView(k, p, d, t);
    GetPageFrame(k);
    GetPage(k).value
  }

  /** link_page: an absent page appears, with whatever its frame held before. */
  lemma LinkPageViews(m: Mem, p: Pid, d: int, t: int) returns (junk: Page)
    requires Inv(m) && p in m.procs && UserPage(d, t) && LinkPage(m, p, d, t).Some?
    ensures var n := LinkPage(m, p, d, t).value; var v := VPage(d, t);
            && OthersSame(m, n, p) && |junk| == PAGE_SIZE
            && View(n, p) == if v in View(m, p) then View(m, p) else View(m, p)[v := Content(junk, false)]
    ensures !Maps(m, p, d, t) ==> junk == m.pages[LinkFrame(m, p, d, t)]
  {
    var k := EntryPrivate(m, p, d).value;
    EntryPrivateViews(m, p, d);
    InView(m, p, d, t);
    InView(k, p, d, t);
    GetPageFrame(k);
    if Maps(k, p, d, t) {
      junk := k.pages[0];
    } else {
      junk := k.pages[GetPage(k).value];
      AddPageViews(k, p, d, t, GetPage(k).value);
    }
  }

  lemma UnlinkPrivateViews(m: Mem, p: Pid, d: int, t: int)
    requires Inv(m) && HasTable(m, p, d) && Dent(m, p, d).write && UserPage(d, t)
    ensures var n := UnlinkPrivate(m, p, d, t);
            OthersSame(m, n, p) && View(n, p) == View(m, p) - {VPage(d, t)}
  {
    hide Roles, Exact, Exclusive, View, DropPage;
    InView(m, p, d, t);
    if Maps(m, p, d, t) {
      MappedIsHeld(m, p, d, t);
      DropPageViews(m, p, d, t);
    }
  }

  lemma UnlinkPageViews(m: Mem, p: Pid, d: int, t: int)
    requires Inv(m) && p in m.procs && UserPage(d, t) && UnlinkPage(m, p, d, t).Some?
    ensures var n := UnlinkPage(m, p, d, t).value;
            OthersSame(m, n, p) && View(n, p) == View(m, p) - {VPage(d, t)}
  {
    hide Roles, Exact, Exclusive, TableStep, View, UnlinkPrivate;
    if HasTable(m, p, d) {
      EntryPrivateViews(m, p, d);
      UnlinkPrivateViews(EntryPrivate(m, p, d).value, p, d, t);
    } else {
      InView(m, p, d, t);
    }
  }

  lemma CowPrivateViews(m: Mem, p: Pid, d: int, t: int)
    requires Inv(m) && Maps(m, p, d, t) && Dent(m, p, d).write && !Tent(m, p, d, t).readonly
    requires CowPrivate(m, p, d, t).Some?
    ensures SameViews(m, CowPrivate(m, p, d, t).value)
  {
    hide Roles, Exact, Exclusive, View;
    InView(m, p, d, t);
    MappedIsHeld(m, p, d, t);
    GetPageFrame(m);
    if !Tent(m, p, d, t).write {
      if m.counts[Walk(m, p, d, t)] == 1 {
        FlagPageViews(m, p, d, t, true, false);
      } else {
        SplitPageViews(m, p, d, t, GetPage(m).value);
      }
    }
  }

  /** Copying a frame changes nothing anyone reads. */
  lemma CopyOnWriteViews(m: Mem, p: Pid, d: int, t: int)
    requires Inv(m) && Maps(m, p, d, t) && !Tent(m, p, d, t).readonly && CopyOnWrite(m, p, d, t).Some?
    ensures SameViews(m, CopyOnWrite(m, p, d, t).value)
  {
    EntryPrivateViews(m, p, d);
    CowPrivateViews(EntryPrivate(m, p, d).value, p, d, t);
  }

  // ---- fork, exit and the store itself ------------------------------------------------

  lemma ForkViews(m: Mem, p: Pid, c: Pid)
    requires Inv(m) && p in m.procs && c !in m.procs
    ensures var n := ForkSpace(m, p, c);
            && Inv(n) && n.procs.Keys == m.procs.Keys + {c}
            && (forall q | q in m.procs :: View(n, q) == View(m, q))
            && View(n, c) == View(m, p)
  {
    hide Roles, Exact, Exclusive, View;
    var n := ForkSpace(m, p, c);
    ForkInv(m, p, c);
    forall q | q in m.procs || q == c ensures View(n, q) == View(m, Origin(p, c, q)) {
      ForkView(m, p, c, q);
    }
  }

  lemma ForkView(m: Mem, p: Pid, c: Pid, q: Pid)
    requires Shape(m) && Roles(m) && p in m.procs && c !in m.procs && (q in m.procs || q == c)
    requires Shape(ForkSpace(m, p, c))
    ensures View(ForkSpace(m, p, c), q) == View(m, Origin(p, c, q))
  {
    var n := ForkSpace(m, p, c);
    forall v | v in UserPages()
      ensures Maps(n, q, v.d, v.t) <==> Maps(m, Origin(p, c, q), v.d, v.t)
      ensures Maps(n, q, v.d, v.t) ==> ContentAt(n, q, v) == ContentAt(m, Origin(p, c, q), v)
    {
      ForkTent(m, p, c, q, v.d, v.t);
    }
  }

  lemma ExitViews(m: Mem, p: Pid)
    requires Inv(m) && p in m.procs
    requires forall f | 0 <= f < |m.counts| && Holds(m, p, f) :: m.counts[f] > 0
    ensures var n := ExitSpace(m, p);
            && Inv(n) && n.procs.Keys == m.procs.Keys - {p}
            && forall q | q in n.procs :: View(n, q) == View(m, q)
  {
    hide Exact, Exclusive;
    var n := ExitSpace(m, p);
    ExitInv(m, p);
    forall q | q in n.procs ensures View(n, q) == View(m, q) {
      forall v | v in UserPages()
        ensures Maps(n, q, v.d, v.t) <==> Maps(m, q, v.d, v.t)
        ensures Maps(n, q, v.d, v.t) ==> ContentAt(n, q, v) == ContentAt(m, q, v)
      {
        ExitTent(m, p, q, v.d, v.t);
      }
    }
  }

  /** Frame f gets new contents. */
  ghost function Overwrite(m: Mem, f: nat, page: Page): (n: Mem)
    requires Inv(m) && f < |m.pages| && |page| == PAGE_SIZE
    ensures Inv(n)
  {
    var n := m.(pages := m.pages[f := page]);
    SameWiringInv(m, n);
    n
  }

  /** Writing a frame of count one is seen by its one process only. */
  lemma OverwriteViews(m: Mem, p: Pid, d: int, t: int, page: Page)
    requires Inv(m) && Maps(m, p, d, t) && |page| == PAGE_SIZE
    requires Walk(m, p, d, t) < |m.counts| && m.counts[Walk(m, p, d, t)] == 1
    ensures var n := Overwrite(m, Walk(m, p, d, t), page);
            && OthersSame(m, n, p)
            && View(n, p) == View(m, p)[VPage(d, t) := Content(page, Tent(m, p, d, t).readonly)]
  {
    hide Roles, Exact, Exclusive, View;
    var n := Overwrite(m, Walk(m, p, d, t), page);
    OverwriteKept(m, p, d, t, page);
    hide ReadsKept;
    PageStepOthers(m, n, p, d, t);
    PageStepMapped(m, n, p, d, t);
  }

  lemma OverwriteKept(m: Mem, p: Pid, d: int, t: int, page: Page)
    requires Inv(m) && Maps(m, p, d, t) && |page| == PAGE_SIZE
    requires Walk(m, p, d, t) < |m.counts| && m.counts[Walk(m, p, d, t)] == 1
    ensures ReadsKept(m, Overwrite(m, Walk(m, p, d, t), page), p, VPage(d, t))
  {
    hide Roles, Exact, Exclusive, View;
    var n := Overwrite(m, Walk(m, p, d, t), page);
    forall q, u: VPage | Maps(m, q, u.d, u.t) && Maps(n, q, u.d, u.t) && (q != p || u != VPage(d, t))
      ensures ContentAt(n, q, u) == ContentAt(m, q, u)
    {
      SolePageElsewhere(m, q, u.d, u.t, p, d, t);
    }
  }

  /** The store itself, through a mapping that both levels allow to write. */
  ghost function Store(m: Mem, p: Pid, d: int, t: int, off: nat, b: bv8): (n: Mem)
    requires Inv(m) && Maps(m, p, d, t) && off < PAGE_SIZE
    ensures Inv(n)
  {
    MappedIsHeld(m, p, d, t);
    var f := Walk(m, p, d, t);
    Overwrite(m, f, m.pages[f][off := b])
  }

  lemma StoreViews(m: Mem, p: Pid, d: int, t: int, off: nat, b: bv8)
    requires Inv(m) && Maps(m, p, d, t) && off < PAGE_SIZE && Tent(m, p, d, t).write
    ensures var n := Store(m, p, d, t, off, b); var c := ContentAt(m, p, VPage(d, t));
            && OthersSame(m, n, p) && |c.bytes| == PAGE_SIZE && !c.readonly
            && View(n, p) == View(m, p)[VPage(d, t) := c.(bytes := c.bytes[off := b])]
  {
    hide Roles, Exact, View;
    MappedIsHeld(m, p, d, t);
    OverwriteViews(m, p, d, t, m.pages[Walk(m, p, d, t)][off := b]);
  }
}
