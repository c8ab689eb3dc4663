/**
 * kmalloc and kfree (src/kernel/mm/arena.c) over the kernel's page bitmap.
 * Addresses count from the first page of the bitmap.
 */
module Arena {
  import opened Prelude
  import opened KernelPages

  const DESC_COUNT: nat := 7
  const BUF_COUNT: nat := 4
  const HEADER: nat := 16

  /** block_size of the descriptors: 16, 32 .. 1024. */
  function Size(d: nat): nat {
    if d == 0 then 16 else if d == 1 then 32 else if d == 2 then 64 else if d == 3 then 128
    else if d == 4 then 256 else if d == 5 then 512 else 1024
  }

  function Total(d: nat): nat {
    (PAGE_SIZE - HEADER) / Size(d)
  }

  /** The first descriptor whose blocks are big enough. */
  function ClassOf(size: nat): (d: nat)
    requires size <= 1024
    ensures d < DESC_COUNT && size <= Size(d) && (d > 0 ==> Size(d - 1) < size)
  {
    if size <= 16 then 0 else if size <= 32 then 1 else if size <= 64 then 2 else if size <= 128 then 3
    else if size <= 256 then 4 else if size <= 512 then 5 else 6
  }

  /** get_arena_block */
  function Addr(g: nat, d: nat, i: nat): nat {
    g * PAGE_SIZE + HEADER + i * Size(d)
  }

  /** get_block_arena */
  function PageOf(a: nat): nat {
    a / PAGE_SIZE
  }

  predicate IsBlock(a: nat, g: nat, d: nat) {
    exists i | 0 <= i < Total(d) :: a == Addr(g, d, i)
  }

  datatype Arena = Small(d: nat, free: nat) | Large(pages: nat)

  /** `live` is what callers hold, with the size they asked for. */
  datatype Heap = Heap(
    pool: Pool,
    arenas: map<nat, Arena>,
    lists: seq<seq<nat>>,
    pageCount: seq<nat>,
    live: map<nat, nat>)

  function RangeOf(g: nat, a: Arena): Range {
    Range(g, if a.Small? then 1 else a.pages)
  }

  // Blocks.

  lemma BlockInPage(g: nat, d: nat, i: nat)
    requires d < DESC_COUNT && i < Total(d)
    ensures PageOf(Addr(g, d, i)) == g
    ensures g * PAGE_SIZE + HEADER <= Addr(g, d, i) && Addr(g, d, i) + Size(d) <= (g + 1) * PAGE_SIZE
  {
  }

  lemma BlocksApart(g: nat, d: nat, i: nat, j: nat)
    requires d < DESC_COUNT && i < j
    ensures Addr(g, d, i) + Size(d) <= Addr(g, d, j)
  {
  }

  lemma BlockPage(a: nat, g: nat, d: nat)
    requires d < DESC_COUNT && IsBlock(a, g, d)
    ensures PageOf(a) == g && g * PAGE_SIZE + HEADER <= a && a + Size(d) <= (g + 1) * PAGE_SIZE
  {
    var i :| 0 <= i < Total(d) && a == Addr(g, d, i);
    BlockInPage(g, d, i);
  }

  /** The blocks of a new arena as kmalloc pushes them. */
  function Blocks(g: nat, d: nat, n: nat): seq<nat> {
    if n == 0 then [] else [Addr(g, d, n - 1)] + Blocks(g, d, n - 1)
  }

  lemma {:induction false} BlocksAt(g: nat, d: nat, n: nat)
    ensures |Blocks(g, d, n)| == n
    ensures forall x | 0 <= x < n :: Blocks(g, d, n)[x] == Addr(g, d, n - 1 - x)
    decreases n
  {
    hide Addr;
    if n > 0 {
      BlocksAt(g, d, n - 1);
    }
  }

  function Members(q: seq<nat>): set<nat> {
    set x | 0 <= x < |q| :: q[x]
  }

  lemma {:induction false} CountMembers(q: seq<nat>)
    requires NoDup(q)
    ensures |Members(q)| == |q|
    decreases |q|
  {
    if q != [] {
      CountMembers(q[1..]);
      assert q == [q[0]] + q[1..];
      assert Members(q) == {q[0]} + Members(q[1..]);
    }
  }

  lemma BlocksDistinct(g: nat, d: nat)
    requires d < DESC_COUNT
    ensures NoDup(Blocks(g, d, Total(d))) && |Members(Blocks(g, d, Total(d)))| == Total(d)
  {
    BlocksAt(g, d, Total(d));
    var q := Blocks(g, d, Total(d));
    forall x, y | 0 <= x < y < |q|
      ensures q[x] != q[y]
    {
      BlocksApart(g, d, Total(d) - 1 - y, Total(d) - 1 - x);
      assert Size(d) > 0;
    }
    CountMembers(q);
  }

  lemma BlocksMembers(g: nat, d: nat, a: nat)
    ensures a in Blocks(g, d, Total(d)) <==> IsBlock(a, g, d)
  {
    hide Addr;
    BlocksAt(g, d, Total(d));
    var q, n := Blocks(g, d, Total(d)), Total(d);
    if IsBlock(a, g, d) {
      var i :| 0 <= i < n && a == Addr(g, d, i);
      assert q[n - 1 - i] == a;
    }
    if a in q {
      var x :| 0 <= x < |q| && q[x] == a;
      assert a == Addr(g, d, n - 1 - x);
    }
  }

  // The operations.

  /** A new arena for small blocks; None when no page is free. */
  function AddPage(h: Heap, d: nat): Option<Heap>
    requires d < |h.lists| == |h.pageCount|
  {
    match Alloc(h.pool, 1)
    case None => None
    case Some((pool, r)) =>
      Some(h.(pool := pool, arenas := h.arenas[r.start := Small(d, Total(d))],
              lists := h.lists[d := Blocks(r.start, d, Total(d)) + h.lists[d]],
              pageCount := h.pageCount[d := h.pageCount[d] + 1]))
  }

  /** The list is not empty, and its first block lies in a small arena. */
  predicate CanPop(h: Heap, d: nat) {
    d < |h.lists| && h.lists[d] != [] && PageOf(h.lists[d][0]) in h.arenas && h.arenas[PageOf(h.lists[d][0])].Small?
  }

  /** The block at the head of a list goes to a caller. */
  function Pop(h: Heap, d: nat, size: nat): (Heap, nat)
    requires CanPop(h, d)
  {
    var a := h.lists[d][0];
    var g := PageOf(a);
    var s := h.arenas[g];
    (h.(lists := h.lists[d := h.lists[d][1..]],
        arenas := h.arenas[g := s.(free := if s.free > 0 then s.free - 1 else 0)],
        live := h.live[a := size]), a)
  }

  function PagesFor(size: nat): nat {
    (size + HEADER + PAGE_SIZE - 1) / PAGE_SIZE
  }

  function AddLarge(h: Heap, size: nat): Option<(Heap, nat)> {
    match Alloc(h.pool, PagesFor(size))
    case None => None
    case Some((pool, r)) =>
      var a := r.start * PAGE_SIZE + HEADER;
      Some((h.(pool := pool, arenas := h.arenas[r.start := Large(r.count)], live := h.live[a := size]), a))
  }

  /** A block comes back to the head of its list. */
  function Push(h: Heap, a: nat, g: nat, d: nat): Heap
    requires d < |h.lists| && g in h.arenas && h.arenas[g].Small?
  {
    h.(lists := h.lists[d := [a] + h.lists[d]], arenas := h.arenas[g := h.arenas[g].(free := h.arenas[g].free + 1)],
       live := h.live - {a})
  }

  /** `q` without the addresses in page `g`. */
  function Outside(q: seq<nat>, g: nat): seq<nat> {
    if q == [] then []
    else if PageOf(q[0]) == g then Outside(q[1..], g)
    else [q[0]] + Outside(q[1..], g)
  }

  function DropPage(h: Heap, g: nat, d: nat): Heap
    requires d < |h.lists| == |h.pageCount| && h.pageCount[d] > 0 && g < |h.pool.bits|
  {
    h.(pool := Free(h.pool, Range(g, 1)), arenas := h.arenas - {g},
       lists := h.lists[d := Outside(h.lists[d], g)], pageCount := h.pageCount[d := h.pageCount[d] - 1])
  }

  function DropLarge(h: Heap, a: nat, g: nat, pages: nat): Heap
    requires g + pages <= |h.pool.bits|
  {
    h.(pool := Free(h.pool, Range(g, pages)), arenas := h.arenas - {g}, live := h.live - {a})
  }

  // What every call keeps.

  /** The pages of the arenas are held; other callers of alloc_kpage hold others. */
  ghost predicate Ranges(h: Heap) {
    && KernelPages.Inv(h.pool)
    && (forall g | g in h.arenas :: RangeOf(g, h.arenas[g]) in h.pool.live)
    && (forall g | g in h.arenas && h.arenas[g].Small? :: h.arenas[g].d < DESC_COUNT)
  }

  /** A list holds blocks of the arenas of its size, each once. */
  predicate Listed(h: Heap, d: nat)
    requires d < |h.lists|
  {
    && NoDup(h.lists[d])
    && forall x | 0 <= x < |h.lists[d]| ::
         var g := PageOf(h.lists[d][x]);
         g in h.arenas && h.arenas[g].Small? && h.arenas[g].d == d && IsBlock(h.lists[d][x], g, d)
  }

  /** A block is on its list or with a caller, not both. */
  ghost predicate Split(h: Heap)
    requires |h.lists| == DESC_COUNT
  {
    forall g, a: nat |
      g in h.arenas && h.arenas[g].Small? && h.arenas[g].d < DESC_COUNT && IsBlock(a, g, h.arenas[g].d) ::
      a in h.lists[h.arenas[g].d] <==> a !in h.live
  }

  /** What callers hold is a block big enough, or the inside of a large arena. */
  predicate Held(h: Heap, a: nat)
    requires a in h.live
  {
    var g := PageOf(a);
    && g in h.arenas
    && match h.arenas[g]
       case Small(d, _) => d < DESC_COUNT && IsBlock(a, g, d) && h.live[a] <= Size(d)
       case Large(pages) => a == g * PAGE_SIZE + HEADER && HEADER + h.live[a] <= pages * PAGE_SIZE
  }

  /** The free blocks of arena `g`. */
  function FreeAt(h: Heap, d: nat, g: nat): set<nat>
    requires d < |h.lists|
  {
    set x | 0 <= x < |h.lists[d]| && PageOf(h.lists[d][x]) == g :: h.lists[d][x]
  }

  predicate Counted(h: Heap, g: nat)
    requires |h.lists| == DESC_COUNT && g in h.arenas
  {
    h.arenas[g].Small? && h.arenas[g].d < DESC_COUNT ==> h.arenas[g].free == |FreeAt(h, h.arenas[g].d, g)|
  }

  function PagesOf(h: Heap, d: nat): set<nat> {
    set g | g in h.arenas && h.arenas[g].Small? && h.arenas[g].d == d
  }

  ghost predicate Inv(h: Heap) {
    && |h.lists| == DESC_COUNT && |h.pageCount| == DESC_COUNT
    && Ranges(h) && Split(h)
    && (forall d | 0 <= d < DESC_COUNT :: Listed(h, d) && h.pageCount[d] == |PagesOf(h, d)|)
    && (forall a | a in h.live :: Held(h, a))
    && (forall g | g in h.arenas :: Counted(h, g))
  }
}
