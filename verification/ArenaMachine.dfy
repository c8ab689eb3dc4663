/** Every history of kmalloc and kfree. */
module ArenaMachine {
  import opened Prelude
  import KernelPages
  import opened Arena
  import opened ArenaProofs

  /** kmalloc; None is the panic when no page is left. */
  function Kmalloc(h: Heap, size: nat): Option<(Heap, nat)>
    requires |h.lists| == |h.pageCount| == DESC_COUNT
  {
    if size > 1024 then AddLarge(h, size)
    else
      var d := ClassOf(size);
      match (if h.lists[d] == [] then AddPage(h, d) else Some(h))
      case None => None
      case Some(k) => if CanPop(k, d) then Some(Pop(k, d, size)) else None
  }

  /** kfree of an address that a caller holds. */
  function Kfree(h: Heap, a: nat): Heap
    requires PageOf(a) in h.arenas && |h.lists| == |h.pageCount| == DESC_COUNT
  {
    var g := PageOf(a);
    match h.arenas[g]
    case Large(pages) => if g + pages <= |h.pool.bits| then DropLarge(h, a, g, pages) else h
    case Small(d, free) =>
      if d >= DESC_COUNT then h
      else
        var k := Push(h, a, g, d);
        if free + 1 == Total(d) && k.pageCount[d] > BUF_COUNT && g < |k.pool.bits| then DropPage(k, g, d) else k
  }

  /** kmalloc keeps the heap in order and returns memory nobody holds; it fails only for want of pages. */
  lemma KmallocInv(h: Heap, size: nat)
    requires Inv(h)
    ensures Kmalloc(h, size).Some? ==>
              var (k, a) := Kmalloc(h, size).value;
              Inv(k) && a !in h.live && k.live == h.live[a := size]
    ensures Kmalloc(h, size).None? <==>
              if size > 1024 then KernelPages.Alloc(h.pool, PagesFor(size)).None?
              else h.lists[ClassOf(size)] == [] && KernelPages.Alloc(h.pool, 1).None?
  {
    hide Ranges, Split, Listed, Held, Counted, PagesOf, Total, PagesFor;
    if size > 1024 {
      if AddLarge(h, size).Some? {
        AddLargeInv(h, size);
      }
    } else {
      var d := ClassOf(size);
      if h.lists[d] != [] {
        PopInv(h, d, size);
      } else if AddPage(h, d).Some? {
        AddPageInv(h, d);
        var k := AddPage(h, d).value;
        NewBlocks(h, d);
        PopInv(k, d, size);
      }
    }
  }

  lemma NewBlocks(h: Heap, d: nat)
    requires |h.lists| == |h.pageCount| == DESC_COUNT && d < DESC_COUNT && AddPage(h, d).Some?
    ensures AddPage(h, d).value.lists[d] != [] && AddPage(h, d).value.live == h.live
  {
    var (pool, r) := KernelPages.Alloc(h.pool, 1).value;
    BlocksAt(r.start, d, Total(d));
    assert Total(d) > 0;
  }

  lemma CountRoom(h: Heap, a: nat, g: nat, d: nat)
    requires Returns(h, a, g, d)
    ensures h.arenas[g].free < Total(d)
  {
    NotListed(h, a, g, d);
    assert Counted(h, g) && Listed(h, d);
    hide Ranges, Split, IsBlock, PageOf, Total, Blocks;
    var all, free := Members(Blocks(g, d, Total(d))), FreeAt(h, d, g);
    BlocksDistinct(g, d);
    forall b | b in free
      ensures b in all
    {
      FreeMembers(h, d, g, b);
      BlocksMembers(g, d, b);
    }
    BlocksMembers(g, d, a);
    FreeMembers(h, d, g, a);
    assert free <= all - {a};
    SmallerSet(free, all - {a});
  }

  lemma SmallerSet(a: set<nat>, b: set<nat>)
    requires a <= b
    ensures |a| <= |b|
  {
    assert b == a + (b - a);
  }

  /**
   * kfree keeps the heap in order and takes away exactly the one allocation.  A
   * page of small blocks goes back exactly when its last block came back and
   * more than four pages of its size are held; four of them stay.
   */
  lemma KfreeInv(h: Heap, a: nat)
    requires Inv(h) && a in h.live
    ensures PageOf(a) in h.arenas && Inv(Kfree(h, a)) && Kfree(h, a).live == h.live - {a}
    ensures var g := PageOf(a);
            h.arenas[g].Small? ==>
              var d := h.arenas[g].d;
              && d < DESC_COUNT && h.arenas[g].free < Total(d)
              && (g !in Kfree(h, a).arenas <==> h.arenas[g].free + 1 == Total(d) && h.pageCount[d] > 4)
              && (g !in Kfree(h, a).arenas ==> Kfree(h, a).pageCount[d] >= 4)
  {
    assert Held(h, a);
    hide Total, IsBlock, Ranges, Split;
    var g := PageOf(a);
    match h.arenas[g]
    case Large(pages) =>
      DropLargeInv(h, a, g);
    case Small(d, free) =>
      CountRoom(h, a, g, d);
      PushInv(h, a, g, d);
      if free + 1 == Total(d) && h.pageCount[d] > BUF_COUNT {
        DropPageInv(Push(h, a, g, d), g, d);
      }
  }

  // Where allocations lie.

  /** Byte `x` belongs to the allocation at `a`. */
  predicate Owns(h: Heap, a: nat, x: nat) {
    a in h.live && a <= x < a + h.live[a]
  }

  /** An allocation lies inside the pages of its arena, behind the header. */
  lemma OwnsInside(h: Heap, a: nat, x: nat)
    requires Inv(h) && Owns(h, a, x)
    ensures var g := PageOf(a);
            && g in h.arenas && KernelPages.In(PageOf(x), RangeOf(g, h.arenas[g]))
            && x >= g * KernelPages.PAGE_SIZE + HEADER
  {
    assert Held(h, a);
    var g := PageOf(a);
    if h.arenas[g].Small? {
      BlockPage(a, g, h.arenas[g].d);
    }
  }

  lemma ArenasApart(h: Heap, f: nat, g: nat, page: nat)
    requires Ranges(h) && f in h.arenas && g in h.arenas
    requires KernelPages.In(page, RangeOf(f, h.arenas[f])) && KernelPages.In(page, RangeOf(g, h.arenas[g]))
    ensures f == g && page < |h.pool.bits| == |h.pool.base| && h.pool.bits[page] && !h.pool.base[page]
  {
    assert RangeOf(f, h.arenas[f]) == RangeOf(g, h.arenas[g]);
  }

  /** No byte belongs to two allocations, and every byte of one lies in a page the heap holds. */
  lemma LiveApart(h: Heap, a: nat, b: nat, x: nat)
    requires Inv(h) && Owns(h, a, x) && Owns(h, b, x)
    ensures a == b
    ensures PageOf(x) < |h.pool.bits| == |h.pool.base| && h.pool.bits[PageOf(x)] && !h.pool.base[PageOf(x)]
  {
    OwnsInside(h, a, x);
    OwnsInside(h, b, x);
    ArenasApart(h, PageOf(a), PageOf(b), PageOf(x));
    SameArena(h, a, b, x);
  }

  lemma SameArena(h: Heap, a: nat, b: nat, x: nat)
    requires Inv(h) && Owns(h, a, x) && Owns(h, b, x) && PageOf(a) == PageOf(b)
    ensures a == b
  {
    assert Held(h, a) && Held(h, b);
    var g := PageOf(a);
    if h.arenas[g].Small? {
      var d := h.arenas[g].d;
      var i :| 0 <= i < Total(d) && a == Addr(g, d, i);
      var j :| 0 <= j < Total(d) && b == Addr(g, d, j);
      if i < j {
        BlocksApart(g, d, i, j);
      } else if j < i {
        BlocksApart(g, d, j, i);
      }
    }
  }

  // Histories.

  /** Taken and Given are alloc_kpage and free_kpage called by somebody else. */
  datatype Event = Malloc(size: nat) | Release(a: nat) | Taken(count: nat) | Given(r: KernelPages.Range)

  /** Somebody else holds the range. */
  predicate Foreign(h: Heap, r: KernelPages.Range) {
    r in h.pool.live && r.start !in h.arenas
  }

  lemma SamePages(h: Heap, pool: KernelPages.Pool)
    requires Inv(h) && Ranges(h.(pool := pool))
    ensures Inv(h.(pool := pool))
  {
    hide Ranges, IsBlock;
    var k := h.(pool := pool);
    forall d | 0 <= d < DESC_COUNT
      ensures Listed(k, d) && k.pageCount[d] == |PagesOf(k, d)|
    {
      assert Listed(h, d) && PagesOf(k, d) == PagesOf(h, d);
    }
    forall a | a in k.live
      ensures Held(k, a)
    {
      assert Held(h, a);
    }
    forall g | g in k.arenas
      ensures Counted(k, g)
    {
      assert Counted(h, g);
      if h.arenas[g].Small? && h.arenas[g].d < DESC_COUNT {
        assert FreeAt(k, h.arenas[g].d, g) == FreeAt(h, h.arenas[g].d, g);
      }
    }
    SameSplit(h, k);
  }

  lemma SameSplit(h: Heap, k: Heap)
    requires |h.lists| == DESC_COUNT && Split(h) && k.lists == h.lists && k.arenas == h.arenas && k.live == h.live
    ensures Split(k)
  {
    hide IsBlock;
    forall g, a: nat | g in k.arenas && k.arenas[g].Small? && k.arenas[g].d < DESC_COUNT && IsBlock(a, g, k.arenas[g].d)
      ensures a in k.lists[k.arenas[g].d] <==> a !in k.live
    {
      assert a in h.lists[h.arenas[g].d] <==> a !in h.live;
    }
  }

  lemma TakenInv(h: Heap, count: nat)
    requires Inv(h) && count > 0 && KernelPages.Alloc(h.pool, count).Some?
    ensures Inv(h.(pool := KernelPages.Alloc(h.pool, count).value.0))
  {
    hide Split, Listed, Held, Counted;
    var pool := KernelPages.Alloc(h.pool, count).value.0;
    NewRange(h, count);
    assert Ranges(h.(pool := pool));
    SamePages(h, pool);
  }

  lemma GivenInv(h: Heap, r: KernelPages.Range)
    requires Inv(h) && Foreign(h, r)
    ensures r.start + r.count <= |h.pool.bits| && Inv(h.(pool := KernelPages.Free(h.pool, r)))
  {
    hide Split, Listed, Held, Counted;
    var pool := KernelPages.Free(h.pool, r);
    KernelPages.FreeSafe(h.pool, r);
    assert Ranges(h.(pool := pool));
    SamePages(h, pool);
  }

  function Start(pool: KernelPages.Pool): Heap {
    Heap(pool, map[], [[], [], [], [], [], [], []], [0, 0, 0, 0, 0, 0, 0], map[])
  }

  lemma StartInv(pool: KernelPages.Pool)
    requires KernelPages.Inv(pool)
    ensures Inv(Start(pool))
  {
  }

  /** None when a caller frees what it does not hold, or when memory runs out. */
  function Run(h: Heap, es: seq<Event>): Option<Heap>
    decreases |es|
  {
    if es == [] then Some(h)
    else if !(|h.lists| == |h.pageCount| == DESC_COUNT) then None
    else match es[0]
      case Malloc(size) =>
        (match Kmalloc(h, size) case None => None case Some((k, _)) => Run(k, es[1..]))
      case Release(a) =>
        if a in h.live && PageOf(a) in h.arenas then Run(Kfree(h, a), es[1..]) else None
      case Taken(count) =>
        if count == 0 then None
        else
          var r := KernelPages.Alloc(h.pool, count);
          if r.None? then None else Run(h.(pool := r.value.0), es[1..])
      case Given(r) =>
        if !Foreign(h, r) || r.start + r.count > |h.pool.bits| then None
        else Run(h.(pool := KernelPages.Free(h.pool, r)), es[1..])
  }

  lemma {:induction false} RunInv(h: Heap, es: seq<Event>)
    requires Inv(h) && Run(h, es).Some?
    ensures Inv(Run(h, es).value)
    decreases |es|
  {
    hide Inv, Kmalloc, Kfree;
    if es != [] {
      match es[0]
      case Malloc(size) =>
        KmallocInv(h, size);
        RunInv(Kmalloc(h, size).value.0, es[1..]);
      case Release(a) =>
        KfreeInv(h, a);
        RunInv(Kfree(h, a), es[1..]);
      case Taken(count) =>
        TakenInv(h, count);
        RunInv(h.(pool := KernelPages.Alloc(h.pool, count).value.0), es[1..]);
      case Given(r) =>
        GivenInv(h, r);
        RunInv(h.(pool := KernelPages.Free(h.pool, r)), es[1..]);
    }
  }

  lemma NotForeign(h: Heap, a: nat, x: nat, r: KernelPages.Range)
    requires Inv(h) && Owns(h, a, x) && Foreign(h, r)
    ensures !KernelPages.In(PageOf(x), r)
  {
    OwnsInside(h, a, x);
    hide Split, Listed, Held, Counted;
    var s := RangeOf(PageOf(a), h.arenas[PageOf(a)]);
    assert s in h.pool.live && s != r;
  }

  /**
   * After every history, with pages going to and coming from other callers in
   * between, all live allocations are apart, inside pages held, and outside
   * the pages of those others.
   */
  lemma SafeHistories(pool: KernelPages.Pool, es: seq<Event>, a: nat, b: nat, x: nat)
    requires KernelPages.Inv(pool) && Run(Start(pool), es).Some?
    requires Owns(Run(Start(pool), es).value, a, x) && Owns(Run(Start(pool), es).value, b, x)
    ensures a == b
    ensures var h := Run(Start(pool), es).value;
            && PageOf(x) < |h.pool.bits| && h.pool.bits[PageOf(x)]
            && forall r | Foreign(h, r) :: !KernelPages.In(PageOf(x), r)
  {
    StartInv(pool);
    RunInv(Start(pool), es);
    var h := Run(Start(pool), es).value;
    LiveApart(h, a, b, x);
    forall r | Foreign(h, r)
      ensures !KernelPages.In(PageOf(x), r)
    {
      NotForeign(h, a, x, r);
    }
  }

  // Where allocations lie.

  /** `s` is the smallest of 16, 32 .. 1024 that `size` fits into. */
  predicate Fits(size: nat, s: nat) {
    s in {16, 32, 64, 128, 256, 512, 1024} && size <= s && (s > 16 ==> s / 2 < size)
  }

  lemma SizeIs(d: nat)
    requires d < DESC_COUNT
    ensures Size(d) == [16, 32, 64, 128, 256, 512, 1024][d]
    ensures Total(d) * Size(d) + 16 <= 4096 < (Total(d) + 1) * Size(d) + 16
  {
  }

  lemma FitsOnce(size: nat, s: nat)
    requires size <= 1024 && Fits(size, s)
    ensures s == Size(ClassOf(size))
  {
  }

  lemma Offset(g: nat, o: nat)
    requires o < 4096
    ensures (4096 * g + o) / 4096 == g && (4096 * g + o) % 4096 == o && (4096 * g + o) % 16 == o % 16
  {
  }

  lemma NoRest(s: nat, i: nat)
    requires s > 0
    ensures (i * s) % s == 0
  {
    var n := i * s;
    var k := i - n / s;
    assert n == s * (n / s) + n % s;
    assert s * k == n % s;
    assert k >= 1 ==> s * k >= s;
    assert k <= -1 ==> s * k < 0;
  }

  lemma WholeBlocks(d: nat, i: nat)
    requires d < DESC_COUNT
    ensures Size(d) > 0 && (i * Size(d)) % Size(d) == 0 && (16 + i * Size(d)) % 16 == 0
  {
    var k := Size(d) / 16;
    assert Size(d) == 16 * k > 0;
    hide Size;
    NoRest(Size(d), i);
    Sixteens(i, k);
  }

  lemma Sixteens(i: nat, k: nat)
    ensures (16 + i * (16 * k)) % 16 == 0
  {
    var m := i * k;
    assert i * (16 * k) == 16 * m;
    SixteenTimes(m);
  }

  lemma SixteenTimes(m: nat)
    ensures (16 + 16 * m) % 16 == 0
  {
  }

  lemma PageStart(g: nat, a: nat)
    requires a == g * 4096 + 16
    ensures a % 16 == 0 && a % 4096 == 16 && a / 4096 == g
  {
  }

  /** Block `i` of a page lies behind the 16 bytes of the header and inside the page. */
  lemma BlockPlace(g: nat, d: nat, i: nat, a: nat)
    requires d < DESC_COUNT && i < Total(d) && a == Addr(g, d, i)
    ensures a / 4096 == g && a % 4096 == 16 + i * Size(d) && a % 16 == 0
    ensures (a % 4096 - 16) % Size(d) == 0 && a % 4096 + Size(d) <= 4096
  {
    BlockInPage(g, d, i);
    WholeBlocks(d, i);
    hide Size, Total;
    var n := i * Size(d);
    assert a == 4096 * g + (16 + n);
    Offset(g, 16 + n);
  }

  /** Address `a` is that of a block of size `s` behind a header. */
  predicate InBlock(a: nat, s: nat) {
    a % 16 == 0 && a % 4096 >= 16 && s > 0 && (a % 4096 - 16) % s == 0 && a % 4096 + s <= 4096
  }

  lemma PopPlace(h: Heap, d: nat, size: nat)
    requires Inv(h) && d < DESC_COUNT && CanPop(h, d)
    ensures InBlock(Pop(h, d, size).1, Size(d))
  {
    assert Size(d) > 0;
    hide Ranges, Split, Counted, Held, PagesOf, Total, Size, Addr;
    var a, g := h.lists[d][0], PageOf(h.lists[d][0]);
    assert Listed(h, d);
    assert IsBlock(a, g, d);
    var i :| 0 <= i < Total(d) && a == Addr(g, d, i);
    hide PageOf;
    BlockPlace(g, d, i, a);
  }

  lemma SmallPlace(h: Heap, size: nat)
    requires Inv(h) && size <= 1024 && Kmalloc(h, size).Some?
    ensures InBlock(Kmalloc(h, size).value.1, Size(ClassOf(size)))
  {
    var d := ClassOf(size);
    assert Size(d) > 0;
    hide Ranges, Split, Listed, Held, Counted, PagesOf, Total, Size, ClassOf, Pop, CanPop, InBlock, AddPage;
    if h.lists[d] == [] {
      AddPageInv(h, d);
      PopPlace(AddPage(h, d).value, d, size);
    } else {
      PopPlace(h, d, size);
    }
  }

  lemma LargePlace(h: Heap, size: nat)
    requires Inv(h) && size > 1024 && Kmalloc(h, size).Some?
    ensures var (k, a) := Kmalloc(h, size).value;
            && a % 16 == 0 && a % 4096 == 16 && a / 4096 in k.arenas && k.arenas[a / 4096].Large?
            && (k.arenas[a / 4096].pages - 1) * 4096 < size + 16 <= k.arenas[a / 4096].pages * 4096
  {
    LargePages(size);
    hide Ranges, Split, Listed, Held, Counted, PagesOf, PagesFor;
    var (k, a) := Kmalloc(h, size).value;
    PageStart(KernelPages.Alloc(h.pool, PagesFor(size)).value.1.start, a);
  }

  /** Where kmalloc finds room: behind the header of whole pages, or in a block of the smallest size that fits. */
  lemma KmallocPlace(h: Heap, size: nat)
    requires Inv(h) && Kmalloc(h, size).Some?
    ensures var (k, a) := Kmalloc(h, size).value;
            && (size <= 1024 ==> forall s | Fits(size, s) :: InBlock(a, s))
            && (size > 1024 ==>
                  && a % 16 == 0 && a % 4096 == 16 && a / 4096 in k.arenas && k.arenas[a / 4096].Large?
                  && (k.arenas[a / 4096].pages - 1) * 4096 < size + 16 <= k.arenas[a / 4096].pages * 4096)
  {
    hide Inv, Kmalloc, InBlock, Fits, Size, ClassOf;
    if size > 1024 {
      LargePlace(h, size);
    } else {
      SmallPlace(h, size);
      forall s | Fits(size, s)
        ensures s == Size(ClassOf(size))
      {
        FitsOnce(size, s);
      }
    }
  }

  lemma HeldPlace(h: Heap, a: nat)
    requires a in h.live && Held(h, a)
    ensures a % 16 == 0 && a % 4096 >= 16
  {
    hide Total, Size, Addr;
    var g := PageOf(a);
    match h.arenas[g]
    case Large(_) => PageStart(g, a);
    case Small(d, _) =>
      var i :| 0 <= i < Total(d) && a == Addr(g, d, i);
      hide PageOf;
      BlockPlace(g, d, i, a);
  }

  /** After every history every address handed out is a multiple of 16 and behind a header. */
  lemma AlignedHistories(pool: KernelPages.Pool, es: seq<Event>, a: nat)
    requires KernelPages.Inv(pool) && Run(Start(pool), es).Some? && a in Run(Start(pool), es).value.live
    ensures a % 16 == 0 && a % 4096 >= 16
  {
    hide Run, Ranges, Split, Listed, Counted, PagesOf, Held;
    StartInv(pool);
    RunInv(Start(pool), es);
    HeldPlace(Run(Start(pool), es).value, a);
  }

  // Pages kept in reserve.

  /** With more than four pages of a size, each of them has a block in use. */
  predicate Lean(h: Heap) {
    && |h.pageCount| == DESC_COUNT
    && forall g |
         && g in h.arenas && h.arenas[g].Small? && h.arenas[g].d < DESC_COUNT
         && h.pageCount[h.arenas[g].d] > 4 ::
         h.arenas[g].free < Total(h.arenas[g].d)
  }

  lemma NoneListed(h: Heap, d: nat, g: nat)
    requires Inv(h) && d < DESC_COUNT && h.lists[d] == [] && g in h.arenas && h.arenas[g].Small? && h.arenas[g].d == d
    ensures h.arenas[g].free == 0
  {
    assert Counted(h, g);
    assert FreeAt(h, d, g) == {};
  }

  lemma KmallocLean(h: Heap, size: nat)
    requires Inv(h) && Lean(h) && Kmalloc(h, size).Some?
    ensures Lean(Kmalloc(h, size).value.0)
  {
    hide Ranges, Split, Listed, Held, Counted, PagesOf, Total, PagesFor, Blocks;
    if size <= 1024 {
      var d := ClassOf(size);
      if h.lists[d] == [] {
        forall g | g in h.arenas && h.arenas[g].Small? && h.arenas[g].d == d
          ensures h.arenas[g].free == 0
        {
          NoneListed(h, d, g);
        }
        TotalPositive(d);
        NewFirst(h, d);
      }
    }
  }

  lemma TotalPositive(d: nat)
    requires d < DESC_COUNT
    ensures Total(d) > 0
  {
  }

  /** The first block of a new page is taken from it. */
  lemma NewFirst(h: Heap, d: nat)
    requires |h.lists| == |h.pageCount| == DESC_COUNT && d < DESC_COUNT && h.lists[d] == [] && AddPage(h, d).Some?
    ensures var (_, r) := KernelPages.Alloc(h.pool, 1).value;
            && AddPage(h, d).value.lists[d] != [] && PageOf(AddPage(h, d).value.lists[d][0]) == r.start
  {
    var (_, r) := KernelPages.Alloc(h.pool, 1).value;
    BlocksAt(r.start, d, Total(d));
    BlockInPage(r.start, d, Total(d) - 1);
  }

  lemma KfreeLean(h: Heap, a: nat)
    requires Inv(h) && Lean(h) && a in h.live && PageOf(a) in h.arenas
    ensures Lean(Kfree(h, a))
  {
    hide Ranges, Split, Listed, Held, Counted, PagesOf, Total, Outside;
    KfreeInv(h, a);
  }

  lemma {:induction false} RunLean(h: Heap, es: seq<Event>)
    requires Inv(h) && Lean(h) && Run(h, es).Some?
    ensures Lean(Run(h, es).value)
    decreases |es|
  {
    hide Inv, Kmalloc, Kfree, Total;
    if es != [] {
      match es[0]
      case Malloc(size) =>
        KmallocInv(h, size);
        KmallocLean(h, size);
        RunLean(Kmalloc(h, size).value.0, es[1..]);
      case Release(a) =>
        KfreeInv(h, a);
        KfreeLean(h, a);
        RunLean(Kfree(h, a), es[1..]);
      case Taken(count) =>
        TakenInv(h, count);
        RunLean(h.(pool := KernelPages.Alloc(h.pool, count).value.0), es[1..]);
      case Given(r) =>
        GivenInv(h, r);
        RunLean(h.(pool := KernelPages.Free(h.pool, r)), es[1..]);
    }
  }

  /** No caller holds a block of the size. */
  predicate AllBack(h: Heap, d: nat) {
    forall a | a in h.live && PageOf(a) in h.arenas :: !(h.arenas[PageOf(a)].Small? && h.arenas[PageOf(a)].d == d)
  }

  lemma WhollyFree(h: Heap, d: nat, g: nat)
    requires Inv(h) && d < DESC_COUNT && AllBack(h, d) && g in h.arenas && h.arenas[g].Small? && h.arenas[g].d == d
    ensures h.arenas[g].free == Total(d)
  {
    assert Counted(h, g) && Listed(h, d);
    var all, free := Members(Blocks(g, d, Total(d))), FreeAt(h, d, g);
    BlocksDistinct(g, d);
    forall b
      ensures b in free <==> b in all
    {
      FreeMembers(h, d, g, b);
      BlocksMembers(g, d, b);
      if IsBlock(b, g, d) {
        BlockPage(b, g, d);
      }
    }
    assert free == all;
  }

  /** After every history, once all blocks of a size are back at most four pages of that size are held. */
  lemma ReserveBounded(pool: KernelPages.Pool, es: seq<Event>, d: nat)
    requires KernelPages.Inv(pool) && Run(Start(pool), es).Some? && d < DESC_COUNT
    requires AllBack(Run(Start(pool), es).value, d)
    ensures |PagesOf(Run(Start(pool), es).value, d)| <= 4
  {
    hide Run, Ranges, Split, Listed, Held, Counted, Total, AllBack;
    StartInv(pool);
    RunInv(Start(pool), es);
    RunLean(Start(pool), es);
    var h := Run(Start(pool), es).value;
    if |PagesOf(h, d)| > 4 {
      assert h.pageCount[d] == |PagesOf(h, d)|;
      var g :| g in PagesOf(h, d);
      WhollyFree(h, d, g);
    }
  }

  // kfree undoes kmalloc.

  lemma PushPop(h: Heap, d: nat, size: nat)
    requires Inv(h) && d < DESC_COUNT && CanPop(h, d)
    ensures var (k, a) := Pop(h, d, size);
            && PageOf(a) in k.arenas && k.arenas[PageOf(a)].Small? && k.arenas[PageOf(a)].d == d
            && k.arenas[PageOf(a)].free + 1 == h.arenas[PageOf(a)].free
            && d < |k.lists| && Push(k, a, PageOf(a), d) == h
  {
    hide Ranges, Held, PagesOf, Total, Size, Addr, IsBlock;
    var a, g := h.lists[d][0], PageOf(h.lists[d][0]);
    assert Listed(h, d);
    assert a in h.lists[d] && IsBlock(a, g, d);
    assert a !in h.live;
    assert Counted(h, g);
    assert a in FreeAt(h, d, g);
    var (k, _) := Pop(h, d, size);
    assert [a] + h.lists[d][1..] == h.lists[d];
    assert h.live[a := size] - {a} == h.live;
  }

  lemma {:induction false} OutsideAll(q: seq<nat>, g: nat)
    requires forall x | x in q :: PageOf(x) == g
    ensures Outside(q, g) == []
    decreases |q|
  {
    hide PageOf;
    if q != [] {
      assert q[0] in q;
      OutsideAll(q[1..], g);
    }
  }

  lemma PageBlocks(g: nat, d: nat)
    requires d < DESC_COUNT
    ensures var q := Blocks(g, d, Total(d)); q != [] && PageOf(q[0]) == g && Outside(q, g) == []
  {
    var q := Blocks(g, d, Total(d));
    BlocksAt(g, d, Total(d));
    assert Total(d) > 0;
    hide Total, Blocks, PageOf, IsBlock, Addr;
    forall x | x in q
      ensures PageOf(x) == g
    {
      BlocksMembers(g, d, x);
      BlockPage(x, g, d);
    }
    OutsideAll(q, g);
    assert q[0] in q;
  }

  lemma NewPage(h: Heap, d: nat)
    requires Inv(h) && d < DESC_COUNT && h.lists[d] == [] && AddPage(h, d).Some?
    ensures var k, g := AddPage(h, d).value, KernelPages.Alloc(h.pool, 1).value.1.start;
            && Inv(k) && g in k.arenas && k.arenas[g] == Small(d, Total(d))
            && CanPop(k, d) && PageOf(k.lists[d][0]) == g
            && k.pageCount[d] == h.pageCount[d] + 1 && g < |k.pool.bits| && DropPage(k, g, d) == h
  {
    AddPageInv(h, d);
    KernelPages.FreeUndoesAlloc(h.pool, 1);
    KernelPages.AllocSafe(h.pool, 1);
    NotAnArena(h, 1);
    hide Ranges, Split, Listed, Held, Counted, PagesOf, Total, PageOf, Blocks, Outside, KernelPages.Alloc,
         KernelPages.Free, KernelPages.Inv;
    var k, g := AddPage(h, d).value, KernelPages.Alloc(h.pool, 1).value.1.start;
    var q := Blocks(g, d, Total(d));
    PageBlocks(g, d);
    assert q + [] == q && k.lists[d] == q;
    assert k.lists[d := []] == h.lists;
    assert k.arenas - {g} == h.arenas;
  }

  lemma NotAnArena(h: Heap, count: nat)
    requires Inv(h) && count > 0 && KernelPages.Alloc(h.pool, count).Some?
    ensures KernelPages.Alloc(h.pool, count).value.1.start !in h.arenas
  {
    KernelPages.AllocSafe(h.pool, count);
    var (_, r) := KernelPages.Alloc(h.pool, count).value;
    assert KernelPages.In(r.start, r);
    assert forall g | g in h.arenas :: KernelPages.In(g, RangeOf(g, h.arenas[g]));
  }

  /**
   * kfree right after kmalloc puts everything back, the order of the lists included, but for a new page that goes
   * into the reserve.
   */
  lemma FreeUndoesMalloc(h: Heap, size: nat)
    requires Inv(h) && Lean(h) && size <= 1024 && Kmalloc(h, size).Some?
    ensures var (k, a) := Kmalloc(h, size).value;
            && PageOf(a) in k.arenas && |k.lists| == |k.pageCount| == DESC_COUNT
            && var d := ClassOf(size);
               Kfree(k, a) == if h.lists[d] == [] && h.pageCount[d] < 4 then AddPage(h, d).value else h
  {
    hide Ranges, Split, Listed, Held, Counted, PagesOf, Total, Size, Blocks, KernelPages.Alloc, Push, Pop;
    var d := ClassOf(size);
    if h.lists[d] == [] {
      NewPage(h, d);
      PopUndone(AddPage(h, d).value, d, size);
    } else {
      PopUndone(h, d, size);
    }
  }

  lemma PopUndone(h: Heap, d: nat, size: nat)
    requires Inv(h) && d < DESC_COUNT && CanPop(h, d)
    ensures var (k, a) := Pop(h, d, size);
            && a == h.lists[d][0] && PageOf(a) in k.arenas && h.arenas[PageOf(a)].d == d
            && |k.lists| == |k.pageCount| == DESC_COUNT
            && Kfree(k, a) == if h.arenas[PageOf(a)].free == Total(d) && h.pageCount[d] > 4 && PageOf(a) < |h.pool.bits|
                              then DropPage(h, PageOf(a), d) else h
  {
    PushPop(h, d, size);
    hide Inv, Total, Push, DropPage, PageOf;
  }

  /** For a large block everything is back without exception. */
  lemma FreeUndoesLarge(h: Heap, size: nat)
    requires Inv(h) && size > 1024 && Kmalloc(h, size).Some?
    ensures var (k, a) := Kmalloc(h, size).value;
            PageOf(a) in k.arenas && |k.lists| == |k.pageCount| == DESC_COUNT && Kfree(k, a) == h
  {
    KmallocInv(h, size);
    LargePages(size);
    var count := PagesFor(size);
    KernelPages.FreeUndoesAlloc(h.pool, count);
    KernelPages.AllocSafe(h.pool, count);
    NotAnArena(h, count);
    var (k, a) := Kmalloc(h, size).value;
    var (pool, p) := KernelPages.Alloc(h.pool, count).value;
    assert PageOf(a) == p.start;
    assert k.arenas - {p.start} == h.arenas && k.live - {a} == h.live;
    hide Inv, PagesFor, KernelPages.Alloc, KernelPages.Free, PageOf;
  }

  /** The block freed last is the first to be handed out again, unless its page went back. */
  lemma MallocReuses(h: Heap, a: nat, size: nat)
    requires Inv(h) && a in h.live && size <= 1024 && PageOf(a) in h.arenas
    requires h.arenas[PageOf(a)].Small? && h.arenas[PageOf(a)].d == ClassOf(size)
    requires PageOf(a) in Kfree(h, a).arenas
    ensures |Kfree(h, a).lists| == |Kfree(h, a).pageCount| == DESC_COUNT
    ensures Kmalloc(Kfree(h, a), size) == Some((h.(live := h.live[a := size]), a))
  {
    hide Ranges, Split, Listed, Held, Counted, PagesOf, PageOf, Total, Size, ClassOf, Push, Pop;
    KfreeInv(h, a);
    var d := ClassOf(size);
    assert Kfree(h, a) == Push(h, a, PageOf(a), d);
    PopPush(h, a, d, size);
  }

  lemma PopPush(h: Heap, a: nat, d: nat, size: nat)
    requires d < |h.lists| && PageOf(a) in h.arenas && h.arenas[PageOf(a)].Small?
    ensures var k := Push(h, a, PageOf(a), d);
            && |k.lists| == |h.lists| && k.pageCount == h.pageCount && k.lists[d] != [] && CanPop(k, d)
            && Pop(k, d, size) == (h.(live := h.live[a := size]), a)
  {
    hide PageOf;
    var k, g := Push(h, a, PageOf(a), d), PageOf(a);
    assert k.lists[d][1..] == h.lists[d];
    assert k.lists[d := h.lists[d]] == h.lists;
    assert k.live[a := size] == h.live[a := size];
    assert k.arenas[g := h.arenas[g]] == h.arenas;
  }
}
