/** What the calls of the kernel allocator keep. */
module ArenaProofs {
  import opened Prelude
  import KernelPages
  import opened Arena

  /** The same arenas, up to their counts. */
  predicate SameKinds(h: Heap, k: Heap) {
    && k.arenas.Keys == h.arenas.Keys
    && forall g | g in h.arenas ::
         match h.arenas[g]
         case Small(d, _) => k.arenas[g].Small? && k.arenas[g].d == d
         case Large(_) => k.arenas[g] == h.arenas[g]
  }

  lemma KindsKeep(h: Heap, k: Heap)
    requires SameKinds(h, k) && k.pool == h.pool && Ranges(h)
    ensures Ranges(k) && forall d :: PagesOf(k, d) == PagesOf(h, d)
  {
    forall g | g in k.arenas
      ensures RangeOf(g, k.arenas[g]) == RangeOf(g, h.arenas[g])
    {
    }
  }

  lemma KindsHeld(h: Heap, k: Heap, a: nat)
    requires SameKinds(h, k) && a in h.live && a in k.live && h.live[a] == k.live[a] && Held(h, a)
    ensures Held(k, a)
  {
    hide IsBlock;
  }

  lemma KindsListed(h: Heap, k: Heap, d: nat)
    requires SameKinds(h, k) && d < |h.lists| == |k.lists| && k.lists[d] == h.lists[d] && Listed(h, d)
    ensures Listed(k, d)
  {
    hide IsBlock, PageOf;
  }

  // Handing out a small block.

  lemma PopListed(h: Heap, d: nat, size: nat)
    requires Inv(h) && d < DESC_COUNT && h.lists[d] != []
    ensures CanPop(h, d)
    ensures var k := Pop(h, d, size).0; SameKinds(h, k) && forall e | 0 <= e < DESC_COUNT :: Listed(k, e)
  {
    hide IsBlock, PageOf, Split, Ranges;
    assert Listed(h, d);
    var k := Pop(h, d, size).0;
    forall e | 0 <= e < DESC_COUNT
      ensures Listed(k, e)
    {
      assert Listed(h, e);
      if e == d {
        assert forall x | 0 <= x < |k.lists[d]| :: k.lists[d][x] == h.lists[d][x + 1];
      } else {
        KindsListed(h, k, e);
      }
    }
  }

  lemma PopSplit(h: Heap, d: nat, size: nat)
    requires Inv(h) && d < DESC_COUNT && h.lists[d] != [] && CanPop(h, d)
    ensures |Pop(h, d, size).0.lists| == DESC_COUNT && Split(Pop(h, d, size).0)
  {
    hide Ranges, PageOf, IsBlock;
    PopListed(h, d, size);
    var q := h.lists[d];
    var a := q[0];
    var (k, b) := Pop(h, d, size);
    assert Listed(h, d) && NoDup(q);
    assert a !in q[1..];
    forall g, c: nat | g in k.arenas && k.arenas[g].Small? && k.arenas[g].d < DESC_COUNT && IsBlock(c, g, k.arenas[g].d)
      ensures c in k.lists[k.arenas[g].d] <==> c !in k.live
    {
      assert c in h.lists[h.arenas[g].d] <==> c !in h.live;
      if c == a {
        BlockPage(c, g, k.arenas[g].d);
        assert g == PageOf(a);
      } else {
        assert c in q <==> c in q[1..];
      }
    }
  }

  lemma PopCounted(h: Heap, d: nat, size: nat, g: nat)
    requires Inv(h) && d < DESC_COUNT && h.lists[d] != [] && CanPop(h, d) && g in h.arenas
    ensures var k := Pop(h, d, size).0; |k.lists| == DESC_COUNT && g in k.arenas && Counted(k, g)
  {
    hide Ranges, PageOf, IsBlock, Split;
    var q := h.lists[d];
    var (k, a) := Pop(h, d, size);
    assert Listed(h, d) && Counted(h, g);
    if h.arenas[g].Small? && h.arenas[g].d == d {
      assert forall x | 0 <= x < |k.lists[d]| :: k.lists[d][x] == q[x + 1];
      assert forall x | 0 < x < |q| :: q[x] == k.lists[d][x - 1];
      if g == PageOf(a) {
        assert a in FreeAt(h, d, g);
        assert FreeAt(k, d, g) == FreeAt(h, d, g) - {a};
      } else {
        assert FreeAt(k, d, g) == FreeAt(h, d, g);
      }
    } else if h.arenas[g].Small? && h.arenas[g].d < DESC_COUNT {
      assert FreeAt(k, h.arenas[g].d, g) == FreeAt(h, h.arenas[g].d, g);
    }
  }

  lemma PopInv(h: Heap, d: nat, size: nat)
    requires Inv(h) && d < DESC_COUNT && h.lists[d] != [] && size <= Size(d)
    ensures CanPop(h, d)
    ensures Inv(Pop(h, d, size).0) && Pop(h, d, size).1 !in h.live
  {
    hide Ranges, Split, IsBlock, PageOf;
    PopListed(h, d, size);
    PopSplit(h, d, size);
    var (k, a) := Pop(h, d, size);
    KindsKeep(h, k);
    forall g | g in k.arenas
      ensures Counted(k, g)
    {
      PopCounted(h, d, size, g);
    }
    PopFresh(h, d);
    forall b | b in k.live
      ensures Held(k, b)
    {
      if b == a {
        assert Listed(h, d);
      } else {
        KindsHeld(h, k, b);
      }
    }
  }

  lemma PopFresh(h: Heap, d: nat)
    requires Inv(h) && d < DESC_COUNT && h.lists[d] != []
    ensures h.lists[d][0] !in h.live
  {
    hide Ranges;
    assert Listed(h, d);
    var a := h.lists[d][0];
    assert a in h.lists[h.arenas[PageOf(a)].d];
  }

  // Taking a small block back.

  ghost predicate Returns(h: Heap, a: nat, g: nat, d: nat) {
    && Inv(h) && d < DESC_COUNT && a in h.live
    && g == PageOf(a) && g in h.arenas && h.arenas[g].Small? && h.arenas[g].d == d
  }

  /** The block that comes back is not on the list. */
  lemma NotListed(h: Heap, a: nat, g: nat, d: nat)
    requires Returns(h, a, g, d)
    ensures IsBlock(a, g, d) && a !in h.lists[d]
  {
    hide Ranges, IsBlock, PageOf;
    assert Held(h, a);
  }

  lemma PushListed(h: Heap, a: nat, g: nat, d: nat)
    requires Returns(h, a, g, d)
    ensures var k := Push(h, a, g, d);
            && SameKinds(h, k) && |k.lists| == DESC_COUNT
            && forall e | 0 <= e < DESC_COUNT :: Listed(k, e)
  {
    hide IsBlock, PageOf, Split, Ranges;
    NotListed(h, a, g, d);
    var k := Push(h, a, g, d);
    forall e | 0 <= e < DESC_COUNT
      ensures Listed(k, e)
    {
      assert Listed(h, e);
      if e == d {
        assert forall x | 0 < x < |k.lists[d]| :: k.lists[d][x] == h.lists[d][x - 1];
      } else {
        KindsListed(h, k, e);
      }
    }
  }

  lemma PushSplit(h: Heap, a: nat, g: nat, d: nat)
    requires Returns(h, a, g, d)
    ensures |Push(h, a, g, d).lists| == DESC_COUNT && Split(Push(h, a, g, d))
  {
    hide Ranges, PageOf, IsBlock;
    var k := Push(h, a, g, d);
    forall f, c: nat | f in k.arenas && k.arenas[f].Small? && k.arenas[f].d < DESC_COUNT && IsBlock(c, f, k.arenas[f].d)
      ensures c in k.lists[k.arenas[f].d] <==> c !in k.live
    {
      assert c in h.lists[h.arenas[f].d] <==> c !in h.live;
      if c == a {
        BlockPage(c, f, k.arenas[f].d);
        assert f == g;
      }
    }
  }

  lemma PushCounted(h: Heap, a: nat, g: nat, d: nat, f: nat)
    requires Returns(h, a, g, d) && f in h.arenas
    ensures var k := Push(h, a, g, d); |k.lists| == DESC_COUNT && f in k.arenas && Counted(k, f)
  {
    hide Ranges, PageOf, IsBlock, Split;
    var k := Push(h, a, g, d);
    NotListed(h, a, g, d);
    assert Counted(h, f);
    if h.arenas[f].Small? && h.arenas[f].d == d {
      assert k.lists[d][0] == a;
      assert forall x | 0 <= x < |h.lists[d]| :: h.lists[d][x] == k.lists[d][x + 1];
      assert forall x | 0 < x < |k.lists[d]| :: k.lists[d][x] == h.lists[d][x - 1];
      if f == g {
        assert a !in FreeAt(h, d, g);
        assert FreeAt(k, d, g) == FreeAt(h, d, g) + {a};
      } else {
        assert FreeAt(k, d, f) == FreeAt(h, d, f);
      }
    } else if h.arenas[f].Small? && h.arenas[f].d < DESC_COUNT {
      assert FreeAt(k, h.arenas[f].d, f) == FreeAt(h, h.arenas[f].d, f);
    }
  }

  lemma PushInv(h: Heap, a: nat, g: nat, d: nat)
    requires Returns(h, a, g, d)
    ensures Inv(Push(h, a, g, d))
  {
    hide Ranges, Split, IsBlock, PageOf;
    PushListed(h, a, g, d);
    PushSplit(h, a, g, d);
    var k := Push(h, a, g, d);
    KindsKeep(h, k);
    forall f | f in k.arenas
      ensures Counted(k, f)
    {
      PushCounted(h, a, g, d, f);
    }
    forall b | b in k.live
      ensures Held(k, b)
    {
      KindsHeld(h, k, b);
    }
  }

  // A new arena.

  /** The pages of a new arena begin where no arena begins. */
  lemma NewRange(h: Heap, count: nat)
    requires Ranges(h) && count > 0 && KernelPages.Alloc(h.pool, count).Some?
    ensures var (pool, r) := KernelPages.Alloc(h.pool, count).value;
            r.start !in h.arenas && r.count == count && KernelPages.Inv(pool) && pool.live == h.pool.live + {r}
  {
    KernelPages.AllocSafe(h.pool, count);
    var (pool, r) := KernelPages.Alloc(h.pool, count).value;
    assert KernelPages.In(r.start, r);
    if r.start in h.arenas {
      var s := RangeOf(r.start, h.arenas[r.start]);
      assert s in h.pool.live && KernelPages.In(r.start, s);
    }
  }

  lemma AddedRanges(h: Heap, k: Heap, r: KernelPages.Range, arena: Arena)
    requires Ranges(h) && r.start !in h.arenas && KernelPages.Inv(k.pool) && k.pool.live == h.pool.live + {r}
    requires k.arenas == h.arenas[r.start := arena] && RangeOf(r.start, arena) == r
             && (arena.Small? ==> arena.d < DESC_COUNT)
    ensures Ranges(k)
  {
  }

  lemma OldHeld(h: Heap, k: Heap, a: nat, g: nat)
    requires a in h.live && a in k.live && h.live[a] == k.live[a] && Held(h, a) && g !in h.arenas && g in k.arenas
    requires k.arenas == h.arenas[g := k.arenas[g]]
    ensures Held(k, a) && PageOf(a) != g
  {
    hide IsBlock;
  }

  /** `k` is `h` with a small arena at `g`, all of whose blocks are free. */
  ghost predicate Paged(h: Heap, k: Heap, g: nat, d: nat) {
    && Inv(h) && d < DESC_COUNT && g !in h.arenas
    && k.arenas == h.arenas[g := Small(d, Total(d))] && k.live == h.live
    && k.lists == h.lists[d := Blocks(g, d, Total(d)) + h.lists[d]]
    && k.pageCount == h.pageCount[d := h.pageCount[d] + 1]
  }

  lemma PagedListed(h: Heap, k: Heap, g: nat, d: nat)
    requires Paged(h, k, g, d)
    ensures |k.lists| == DESC_COUNT && Listed(k, d)
  {
    hide Ranges, Split, IsBlock, PageOf, Total, Blocks;
    var new_ := Blocks(g, d, Total(d));
    var q := h.lists[d];
    BlocksDistinct(g, d);
    assert Listed(h, d);
    forall x | 0 <= x < |new_|
      ensures PageOf(new_[x]) == g && IsBlock(new_[x], g, d)
    {
      assert new_[x] in new_;
      BlocksMembers(g, d, new_[x]);
      BlockPage(new_[x], g, d);
    }
    assert forall x | 0 <= x < |k.lists[d]| :: k.lists[d][x] == if x < |new_| then new_[x] else q[x - |new_|];
  }

  lemma PagedOthers(h: Heap, k: Heap, g: nat, d: nat, e: nat)
    requires Paged(h, k, g, d) && e < DESC_COUNT && e != d
    ensures |k.lists| == DESC_COUNT && Listed(k, e)
  {
    hide Ranges, Split, IsBlock, PageOf, Blocks;
    assert Listed(h, e);
  }

  lemma PagedSplit(h: Heap, k: Heap, g: nat, d: nat)
    requires Paged(h, k, g, d)
    ensures |k.lists| == DESC_COUNT && Split(k)
  {
    hide Ranges, IsBlock, PageOf, Total, Blocks;
    var new_ := Blocks(g, d, Total(d));
    forall f, c: nat | f in k.arenas && k.arenas[f].Small? && k.arenas[f].d < DESC_COUNT && IsBlock(c, f, k.arenas[f].d)
      ensures c in k.lists[k.arenas[f].d] <==> c !in k.live
    {
      BlockPage(c, f, k.arenas[f].d);
      BlocksMembers(g, d, c);
      if f != g {
        assert c in h.lists[h.arenas[f].d] <==> c !in h.live;
        if c in new_ {
          BlockPage(c, g, d);
        }
      }
    }
  }

  lemma PagedCounted(h: Heap, k: Heap, g: nat, d: nat, f: nat)
    requires Paged(h, k, g, d) && f in k.arenas
    ensures |k.lists| == DESC_COUNT && Counted(k, f)
  {
    hide Ranges, IsBlock, PageOf, Total, Split, Blocks;
    var new_, q := Blocks(g, d, Total(d)), h.lists[d];
    forall x | 0 <= x < |new_|
      ensures PageOf(new_[x]) == g
    {
      assert new_[x] in new_;
      BlocksMembers(g, d, new_[x]);
      BlockPage(new_[x], g, d);
    }
    assert Listed(h, d);
    JoinFree(h, k, d, g, f, new_);
    if f == g {
      BlocksDistinct(g, d);
    } else {
      assert Counted(h, f);
      if k.arenas[f].Small? && k.arenas[f].d < DESC_COUNT && k.arenas[f].d != d {
        assert FreeAt(k, k.arenas[f].d, f) == FreeAt(h, k.arenas[f].d, f);
      }
    }
  }

  lemma JoinFree(h: Heap, k: Heap, d: nat, g: nat, f: nat, new_: seq<nat>)
    requires d < |h.lists| == |k.lists| && k.lists[d] == new_ + h.lists[d]
    requires forall x | 0 <= x < |new_| :: PageOf(new_[x]) == g
    requires forall x | 0 <= x < |h.lists[d]| :: PageOf(h.lists[d][x]) != g
    ensures FreeAt(k, d, f) == if f == g then Members(new_) else FreeAt(h, d, f)
  {
    hide PageOf;
    var q := h.lists[d];
    assert forall x | 0 <= x < |new_| :: k.lists[d][x] == new_[x];
    assert forall x | 0 <= x < |q| :: k.lists[d][|new_| + x] == q[x];
    assert forall x | 0 <= x < |k.lists[d]| :: k.lists[d][x] == if x < |new_| then new_[x] else q[x - |new_|];
  }

  lemma PagedInv(h: Heap, k: Heap, g: nat, d: nat)
    requires Paged(h, k, g, d) && Ranges(k)
    ensures Inv(k)
  {
    hide Ranges, IsBlock, PageOf, Split, Blocks, Total, Listed, Counted, Held;
    PagedSplit(h, k, g, d);
    forall e | 0 <= e < DESC_COUNT
      ensures Listed(k, e) && k.pageCount[e] == |PagesOf(k, e)|
    {
      assert h.pageCount[e] == |PagesOf(h, e)|;
      if e == d {
        PagedListed(h, k, g, d);
        assert PagesOf(k, d) == PagesOf(h, d) + {g};
      } else {
        PagedOthers(h, k, g, d, e);
        assert PagesOf(k, e) == PagesOf(h, e);
      }
    }
    forall a | a in k.live
      ensures Held(k, a)
    {
      OldHeld(h, k, a, g);
    }
    forall f | f in k.arenas
      ensures Counted(k, f)
    {
      PagedCounted(h, k, g, d, f);
    }
  }

  lemma AddPageInv(h: Heap, d: nat)
    requires Inv(h) && d < DESC_COUNT && AddPage(h, d).Some?
    ensures Inv(AddPage(h, d).value)
  {
    hide IsBlock, PageOf, Split, Blocks, Listed, Held, Counted;
    NewRange(h, 1);
    var (pool, r) := KernelPages.Alloc(h.pool, 1).value;
    var k := AddPage(h, d).value;
    AddedRanges(h, k, r, Small(d, Total(d)));
    hide Ranges;
    PagedInv(h, k, r.start, d);
  }

  lemma LargePages(size: nat)
    ensures PagesFor(size) > 0 && HEADER + size <= PagesFor(size) * KernelPages.PAGE_SIZE
    ensures size > 0 ==> HEADER + size > (PagesFor(size) - 1) * KernelPages.PAGE_SIZE
  {
  }

  lemma LargeSplit(h: Heap, k: Heap, g: nat, a: nat)
    requires Inv(h) && g !in h.arenas && g in k.arenas && k.arenas[g].Large? && k.arenas == h.arenas[g := k.arenas[g]]
    requires k.lists == h.lists && PageOf(a) == g && k.live.Keys == h.live.Keys + {a}
    ensures Split(k)
  {
    hide Ranges, IsBlock, PageOf;
    forall f, c: nat | f in k.arenas && k.arenas[f].Small? && k.arenas[f].d < DESC_COUNT && IsBlock(c, f, k.arenas[f].d)
      ensures c in k.lists[k.arenas[f].d] <==> c !in k.live
    {
      BlockPage(c, f, k.arenas[f].d);
      assert c in h.lists[h.arenas[f].d] <==> c !in h.live;
    }
  }

  lemma LargeOld(h: Heap, k: Heap, g: nat)
    requires Inv(h) && g !in h.arenas && g in k.arenas && k.arenas[g].Large? && k.arenas == h.arenas[g := k.arenas[g]]
    requires k.lists == h.lists && k.pageCount == h.pageCount
    ensures forall d | 0 <= d < DESC_COUNT :: Listed(k, d) && k.pageCount[d] == |PagesOf(k, d)|
    ensures forall f | f in k.arenas :: Counted(k, f)
  {
    hide Ranges, Split, IsBlock, PageOf;
    forall d | 0 <= d < DESC_COUNT
      ensures Listed(k, d) && k.pageCount[d] == |PagesOf(k, d)|
    {
      assert Listed(h, d) && h.pageCount[d] == |PagesOf(h, d)|;
      assert PagesOf(k, d) == PagesOf(h, d);
    }
    forall f | f in k.arenas
      ensures Counted(k, f)
    {
      if f != g {
        assert Counted(h, f);
        if k.arenas[f].Small? && k.arenas[f].d < DESC_COUNT {
          assert FreeAt(k, k.arenas[f].d, f) == FreeAt(h, k.arenas[f].d, f);
        }
      }
    }
  }

  lemma AddLargeInv(h: Heap, size: nat)
    requires Inv(h) && AddLarge(h, size).Some?
    ensures var (k, a) := AddLarge(h, size).value; Inv(k) && a !in h.live
  {
    LargePages(size);
    hide IsBlock, Split, Listed, Counted, PagesFor;
    NewRange(h, PagesFor(size));
    var (pool, r) := KernelPages.Alloc(h.pool, PagesFor(size)).value;
    var (k, a) := AddLarge(h, size).value;
    AddedRanges(h, k, r, Large(r.count));
    hide Ranges;
    assert PageOf(a) == r.start;
    if a in h.live {
      OldHeld(h, k.(live := h.live), a, r.start);
    }
    LargeSplit(h, k, r.start, a);
    LargeOld(h, k, r.start);
    forall b | b in k.live
      ensures Held(k, b)
    {
      if b != a {
        OldHeld(h, k, b, r.start);
      }
    }
  }

  // Giving pages back.

  lemma DroppedRanges(h: Heap, k: Heap, g: nat)
    requires Ranges(h) && g in h.arenas
    requires k.arenas == h.arenas - {g}
    requires var r := RangeOf(g, h.arenas[g]);
             r.start + r.count <= |h.pool.bits| && k.pool == KernelPages.Free(h.pool, r)
    ensures Ranges(k)
  {
    KernelPages.FreeSafe(h.pool, RangeOf(g, h.arenas[g]));
  }

  lemma RangeInside(h: Heap, g: nat)
    requires Ranges(h) && g in h.arenas
    ensures var r := RangeOf(g, h.arenas[g]); r.start + r.count <= |h.pool.bits|
  {
  }

  lemma DropLargeInv(h: Heap, a: nat, g: nat)
    requires Inv(h) && a in h.live && g == PageOf(a) && g in h.arenas && h.arenas[g].Large?
    ensures g + h.arenas[g].pages <= |h.pool.bits| && Inv(DropLarge(h, a, g, h.arenas[g].pages))
  {
    RangeInside(h, g);
    var k := DropLarge(h, a, g, h.arenas[g].pages);
    DroppedRanges(h, k, g);
    hide Ranges, IsBlock, PageOf;
    assert Held(h, a);
    forall d | 0 <= d < DESC_COUNT
      ensures Listed(k, d) && k.pageCount[d] == |PagesOf(k, d)|
    {
      assert Listed(h, d) && h.pageCount[d] == |PagesOf(h, d)|;
      assert PagesOf(k, d) == PagesOf(h, d);
    }
    DropLargeSplit(h, k, a, g);
    hide Split;
    forall b | b in k.live
      ensures Held(k, b)
    {
      assert Held(h, b);
    }
    forall f | f in k.arenas
      ensures Counted(k, f)
    {
      assert Counted(h, f);
      if k.arenas[f].Small? && k.arenas[f].d < DESC_COUNT {
        assert FreeAt(k, k.arenas[f].d, f) == FreeAt(h, k.arenas[f].d, f);
      }
    }
  }

  lemma DropLargeSplit(h: Heap, k: Heap, a: nat, g: nat)
    requires Inv(h) && g == PageOf(a) && k.arenas == h.arenas - {g} && k.lists == h.lists && k.live == h.live - {a}
    ensures Split(k)
  {
    hide Ranges, IsBlock, PageOf;
    forall f, c: nat | f in k.arenas && k.arenas[f].Small? && k.arenas[f].d < DESC_COUNT && IsBlock(c, f, k.arenas[f].d)
      ensures c in k.lists[k.arenas[f].d] <==> c !in k.live
    {
      BlockPage(c, f, k.arenas[f].d);
      assert c in h.lists[h.arenas[f].d] <==> c !in h.live;
    }
  }

  lemma {:induction false} OutsideMembers(q: seq<nat>, g: nat)
    ensures forall a: nat :: a in Outside(q, g) <==> a in q && PageOf(a) != g
    ensures NoDup(q) ==> NoDup(Outside(q, g))
    decreases |q|
  {
    hide PageOf;
    if q != [] {
      OutsideMembers(q[1..], g);
      assert q == [q[0]] + q[1..];
      if NoDup(q) {
        assert q[0] !in q[1..];
        OutsideNoDup(q, g);
      }
    }
  }

  lemma OutsideNoDup(q: seq<nat>, g: nat)
    requires q != [] && q[0] !in Outside(q[1..], g) && NoDup(Outside(q[1..], g))
    ensures NoDup(Outside(q, g))
  {
    hide PageOf;
    var r, t := Outside(q, g), Outside(q[1..], g);
    if PageOf(q[0]) != g {
      assert forall x | 0 < x < |r| :: r[x] == t[x - 1] && r[x] in t;
    }
  }

  lemma FreeMembers(h: Heap, d: nat, g: nat, a: nat)
    requires d < |h.lists|
    ensures a in FreeAt(h, d, g) <==> a in h.lists[d] && PageOf(a) == g
  {
    hide PageOf;
    if a in h.lists[d] {
      var x :| 0 <= x < |h.lists[d]| && h.lists[d][x] == a;
    }
  }

  /** When the count says that all blocks are back, all of them are on the list. */
  lemma AllFree(h: Heap, g: nat, d: nat, a: nat)
    requires Inv(h) && g in h.arenas && h.arenas[g] == Small(d, Total(d)) && d < DESC_COUNT && IsBlock(a, g, d)
    ensures a in h.lists[d] && a !in h.live
  {
    assert a in h.lists[d] <==> a !in h.live;
    assert Counted(h, g) && Listed(h, d);
    hide Ranges, Split, IsBlock, PageOf, Total, Blocks;
    var all, free := Members(Blocks(g, d, Total(d))), FreeAt(h, d, g);
    BlocksDistinct(g, d);
    forall b | b in free
      ensures b in all
    {
      FreeMembers(h, d, g, b);
      BlocksMembers(g, d, b);
    }
    SubsetFull(free, all);
    BlocksMembers(g, d, a);
    FreeMembers(h, d, g, a);
  }

  lemma SubsetFull(a: set<nat>, b: set<nat>)
    requires a <= b && |a| == |b|
    ensures a == b
  {
    assert b == a + (b - a);
  }

  lemma DroppedListed(h: Heap, k: Heap, g: nat, d: nat)
    requires d < |h.lists| == |k.lists| && Listed(h, d) && k.lists[d] == Outside(h.lists[d], g)
             && k.arenas == h.arenas - {g}
    ensures Listed(k, d)
  {
    hide IsBlock, PageOf, Outside;
    OutsideMembers(h.lists[d], g);
    forall x | 0 <= x < |k.lists[d]|
      ensures var f := PageOf(k.lists[d][x]);
              f in k.arenas && k.arenas[f].Small? && k.arenas[f].d == d && IsBlock(k.lists[d][x], f, d)
    {
      assert k.lists[d][x] in k.lists[d];
      assert k.lists[d][x] in h.lists[d];
    }
  }

  /** Other lists have no block of an arena that is not theirs. */
  lemma OthersListed(h: Heap, k: Heap, g: nat, d: nat, e: nat)
    requires e < |h.lists| == |k.lists| && Listed(h, e) && k.lists[e] == h.lists[e] && k.arenas == h.arenas - {g}
    requires g in h.arenas && h.arenas[g].Small? && h.arenas[g].d == d && e != d
    ensures Listed(k, e)
  {
    hide IsBlock, PageOf;
  }

  lemma DroppedSplit(h: Heap, k: Heap, g: nat, d: nat)
    requires Inv(h) && d < DESC_COUNT && k.lists == h.lists[d := Outside(h.lists[d], g)] && k.arenas == h.arenas - {g}
             && k.live == h.live
    ensures Split(k)
  {
    hide Ranges, IsBlock, PageOf, Outside;
    OutsideMembers(h.lists[d], g);
    forall f, c: nat | f in k.arenas && k.arenas[f].Small? && k.arenas[f].d < DESC_COUNT && IsBlock(c, f, k.arenas[f].d)
      ensures c in k.lists[k.arenas[f].d] <==> c !in k.live
    {
      BlockPage(c, f, k.arenas[f].d);
      assert c in h.lists[h.arenas[f].d] <==> c !in h.live;
    }
  }

  lemma DroppedCounted(h: Heap, k: Heap, g: nat, d: nat, f: nat)
    requires |h.lists| == DESC_COUNT && d < DESC_COUNT && k.lists == h.lists[d := Outside(h.lists[d], g)]
    requires k.arenas == h.arenas - {g} && f in k.arenas && Counted(h, f)
    ensures Counted(k, f)
  {
    hide PageOf, Outside, FreeAt;
    if k.arenas[f].Small? && k.arenas[f].d < DESC_COUNT {
      var e := k.arenas[f].d;
      OutsideMembers(h.lists[d], g);
      forall a: nat
        ensures a in FreeAt(k, e, f) <==> a in FreeAt(h, e, f)
      {
        FreeMembers(k, e, f, a);
        FreeMembers(h, e, f, a);
      }
      assert FreeAt(k, e, f) == FreeAt(h, e, f);
    }
  }

  lemma DropPageInv(h: Heap, g: nat, d: nat)
    requires Inv(h) && d < DESC_COUNT && g in h.arenas && h.arenas[g] == Small(d, Total(d))
    ensures h.pageCount[d] > 0 && g < |h.pool.bits| && Inv(DropPage(h, g, d))
  {
    RangeInside(h, g);
    assert g in PagesOf(h, d) && h.pageCount[d] == |PagesOf(h, d)|;
    var k := DropPage(h, g, d);
    DroppedRanges(h, k, g);
    hide Ranges, IsBlock, PageOf, Outside, Total;
    DroppedSplit(h, k, g, d);
    forall e | 0 <= e < DESC_COUNT
      ensures Listed(k, e) && k.pageCount[e] == |PagesOf(k, e)|
    {
      assert Listed(h, e) && h.pageCount[e] == |PagesOf(h, e)|;
      if e == d {
        DroppedListed(h, k, g, d);
        assert PagesOf(k, d) == PagesOf(h, d) - {g};
      } else {
        OthersListed(h, k, g, d, e);
        assert PagesOf(k, e) == PagesOf(h, e);
      }
    }
    forall a | a in k.live
      ensures Held(k, a)
    {
      assert Held(h, a);
      if PageOf(a) == g {
        AllFree(h, g, d, a);
      }
    }
    forall f | f in k.arenas
      ensures Counted(k, f)
    {
      DroppedCounted(h, k, g, d, f);
    }
  }
}
