/** kmalloc and kfree as the code runs them (src/kernel/mm/arena.c). */
module ArenaHeap {
  import opened Prelude
  import KernelPages
  import opened Arena
  import opened ArenaProofs
  import opened ArenaMachine

  /** list_remove */
  function RemoveFirst(q: seq<nat>, a: nat): seq<nat> {
    if q == [] then [] else if q[0] == a then q[1..] else [q[0]] + RemoveFirst(q[1..], a)
  }

  /** `q` without the first `n` blocks of an arena. */
  ghost function Without(q: seq<nat>, g: nat, d: nat, n: nat): seq<nat> {
    if q == [] then []
    else if exists i | 0 <= i < n :: q[0] == Addr(g, d, i) then Without(q[1..], g, d, n)
    else [q[0]] + Without(q[1..], g, d, n)
  }

  lemma {:induction false} WithoutNone(q: seq<nat>, g: nat, d: nat)
    ensures Without(q, g, d, 0) == q
    decreases |q|
  {
    if q != [] {
      WithoutNone(q[1..], g, d);
    }
  }

  lemma {:induction false} WithoutMembers(q: seq<nat>, g: nat, d: nat, n: nat, a: nat)
    ensures a in Without(q, g, d, n) ==> a in q
    decreases |q|
  {
    if q != [] {
      WithoutMembers(q[1..], g, d, n, a);
    }
  }

  lemma {:induction false} RemoveAbsent(q: seq<nat>, a: nat)
    requires a !in q
    ensures RemoveFirst(q, a) == q
    decreases |q|
  {
    if q != [] {
      RemoveAbsent(q[1..], a);
    }
  }

  lemma {:induction false} WithoutNext(q: seq<nat>, g: nat, d: nat, n: nat)
    requires NoDup(q) && d < DESC_COUNT
    ensures RemoveFirst(Without(q, g, d, n), Addr(g, d, n)) == Without(q, g, d, n + 1)
    decreases |q|
  {
    if q != [] {
      var a := Addr(g, d, n);
      WithoutNext(q[1..], g, d, n);
      var tail := Without(q[1..], g, d, n);
      if q[0] == a {
        forall i | 0 <= i < n
          ensures q[0] != Addr(g, d, i)
        {
          BlocksApart(g, d, i, n);
          assert Size(d) > 0;
        }
        WithoutMembers(q[1..], g, d, n, a);
        assert a !in q[1..];
        RemoveAbsent(tail, a);
        assert ([q[0]] + tail)[1..] == tail;
      } else if exists i | 0 <= i < n :: q[0] == Addr(g, d, i) {
        var i :| 0 <= i < n && q[0] == Addr(g, d, i);
      } else {
        assert !(exists i | 0 <= i < n + 1 :: q[0] == Addr(g, d, i));
        assert ([q[0]] + tail)[1..] == tail;
      }
    }
  }

  /** Without all its blocks, nothing of the arena's page is left. */
  lemma {:induction false} WithoutAll(q: seq<nat>, g: nat, d: nat)
    requires d < DESC_COUNT && forall x | 0 <= x < |q| && PageOf(q[x]) == g :: IsBlock(q[x], g, d)
    ensures Without(q, g, d, Total(d)) == Outside(q, g)
    decreases |q|
  {
    hide PageOf, Addr, Total;
    if q != [] {
      WithoutAll(q[1..], g, d);
      if IsBlock(q[0], g, d) {
        BlockPage(q[0], g, d);
      }
    }
  }

  class KernelHeap {
    var pool: KernelPages.Pool
    var arenas: map<nat, Arena>
    var lists: seq<seq<nat>>
    var pageCount: seq<nat>
    ghost var live: map<nat, nat>

    ghost function State(): Heap
      reads this
    {
      Heap(pool, arenas, lists, pageCount, live)
    }

    /** arena_init */
    constructor (pool: KernelPages.Pool)
      requires KernelPages.Inv(pool)
      ensures State() == Start(pool) && Inv(State())
    {
      this.pool, arenas := pool, map[];
      lists, pageCount, live := [[], [], [], [], [], [], []], [0, 0, 0, 0, 0, 0, 0], map[];
      StartInv(pool);
    }

    /** The blocks of a new arena, pushed one by one. */
    method PushBlocks(g: nat, d: nat)
      requires d < |lists|
      modifies this`lists
      ensures lists == old(lists)[d := Blocks(g, d, Total(d)) + old(lists)[d]]
    {
      hide Total, Addr;
      ghost var q := lists[d];
      var i := 0;
      assert Blocks(g, d, 0) + q == q;
      while i < Total(d)
        invariant 0 <= i <= Total(d) && lists == old(lists)[d := Blocks(g, d, i) + q]
      {
        assert [Addr(g, d, i)] + (Blocks(g, d, i) + q) == Blocks(g, d, i + 1) + q;
        lists := lists[d := [Addr(g, d, i)] + lists[d]];
        i := i + 1;
      }
    }

    method NewArena(d: nat) returns (ok: bool)
      requires |lists| == |pageCount| == DESC_COUNT && d < DESC_COUNT
      modifies this`pool, this`arenas, this`lists, this`pageCount
      ensures ok <==> AddPage(old(State()), d).Some?
      ensures ok ==> AddPage(old(State()), d) == Some(State())
      ensures !ok ==> State() == old(State())
    {
      hide Total, Blocks, KernelPages.Alloc;
      var r := KernelPages.Alloc(pool, 1);
      if r.None? {
        return false;
      }
      var g := r.value.1.start;
      pool := r.value.0;
      pageCount := pageCount[d := pageCount[d] + 1];
      arenas := arenas[g := Small(d, Total(d))];
      PushBlocks(g, d);
      ok := true;
    }

    /** kmalloc of more than 1024 bytes. */
    method AllocateLarge(size: nat) returns (r: Option<nat>)
      modifies this
      ensures var s := AddLarge(old(State()), size);
              if s.None? then r == None && State() == old(State()) else r == Some(s.value.1) && State() == s.value.0
    {
      hide KernelPages.Alloc;
      var pages := (size + HEADER + KernelPages.PAGE_SIZE - 1) / KernelPages.PAGE_SIZE;
      LargePages(size);
      var p := KernelPages.Alloc(pool, pages);
      if p.None? {
        return None;
      }
      var g := p.value.1.start;
      pool := p.value.0;
      arenas := arenas[g := Large(p.value.1.count)];
      var a := g * KernelPages.PAGE_SIZE + HEADER;
      live := live[a := size];
      r := Some(a);
    }

    /** The first block of a list that is not empty. */
    method TakeBlock(d: nat, size: nat) returns (a: nat)
      requires CanPop(State(), d)
      modifies this`lists, this`arenas, this`live
      ensures State() == Pop(old(State()), d, size).0 && a == Pop(old(State()), d, size).1
    {
      a := lists[d][0];
      lists := lists[d := lists[d][1..]];
      var g := PageOf(a);
      var n := arenas[g].free;
      arenas := arenas[g := arenas[g].(free := if n > 0 then n - 1 else 0)];
      live := live[a := size];
    }

    /** kmalloc */
    method Allocate(size: nat) returns (r: Option<nat>)
      requires Inv(State())
      modifies this
      ensures var s := Kmalloc(old(State()), size);
              if s.None? then r == None && State() == old(State()) else r == Some(s.value.1) && State() == s.value.0
      ensures Inv(State()) && (r.Some? ==> r.value !in old(live))
    {
      hide Ranges, Split, Listed, Held, Counted, PagesOf, AddPage, AddLarge, Pop, CanPop;
      KmallocInv(State(), size);
      if size > 1024 {
        r := AllocateLarge(size);
        return;
      }
      var d := 0;
      while d < DESC_COUNT && Size(d) < size
        invariant 0 <= d <= ClassOf(size)
      {
        d := d + 1;
      }
      var ok := true;
      if lists[d] == [] {
        ok := NewArena(d);
      }
      if !ok {
        return None;
      }
      PoppedAfter(old(State()), State(), d, size);
      var a := TakeBlock(d, size);
      r := Some(a);
    }

    /** kfree */
    method Release(a: nat)
      requires Inv(State()) && a in live
      modifies this
      ensures PageOf(a) in old(arenas) && State() == Kfree(old(State()), a) && Inv(State())
    {
      hide Ranges, Split, IsBlock, Listed, Counted, Total, PagesOf;
      KfreeInv(State(), a);
      ghost var h := State();
      var g := PageOf(a);
      var arena := arenas[g];
      live := live - {a};
      if arena.Large? {
        DropLargeInv(h, a, g);
        pool := KernelPages.Free(pool, KernelPages.Range(g, arena.pages));
        arenas := arenas - {g};
        return;
      }
      var d := arena.d;
      assert arena.free < Total(d);
      lists := lists[d := [a] + lists[d]];
      arenas := arenas[g := arena.(free := arena.free + 1)];
      ghost var k := State();
      assert k == Push(h, a, g, d);
      PushInv(h, a, g, d);
      if arena.free + 1 == Total(d) && pageCount[d] > BUF_COUNT {
        DropPageInv(k, g, d);
        RemoveBlocks(g, d);
        pool := KernelPages.Free(pool, KernelPages.Range(g, 1));
        arenas := arenas - {g};
        pageCount := pageCount[d := pageCount[d] - 1];
      }
    }

    /** The blocks of a page leave their list. */
    method RemoveBlocks(g: nat, d: nat)
      requires Inv(State()) && d < DESC_COUNT
      requires g in arenas && arenas[g].Small? && arenas[g].d == d
      modifies this`lists
      ensures lists == old(lists)[d := Outside(old(lists)[d], g)]
    {
      ghost var q := lists[d];
      assert Listed(State(), d);
      hide Ranges, Split, Listed, Counted, Held, Total, Addr, PagesOf;
      WithoutNone(q, g, d);
      var i := 0;
      while i < Total(d)
        invariant 0 <= i <= Total(d) && lists == old(lists)[d := Without(q, g, d, i)]
      {
        WithoutNext(q, g, d, i);
        lists := lists[d := RemoveFirst(lists[d], Addr(g, d, i))];
        i := i + 1;
      }
      WithoutAll(q, g, d);
    }
  }

  lemma PoppedAfter(h: Heap, k: Heap, d: nat, size: nat)
    requires Inv(h) && d < DESC_COUNT && size <= Size(d)
    requires if h.lists[d] == [] then AddPage(h, d) == Some(k) else k == h
    ensures CanPop(k, d)
  {
    hide Ranges, Split, Listed, Held, Counted, PagesOf, AddPage, Pop;
    if h.lists[d] == [] {
      AddPageInv(h, d);
      NewBlocks(h, d);
    }
    PopInv(k, d, size);
  }
}
