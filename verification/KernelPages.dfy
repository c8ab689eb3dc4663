/** Kernel pages from the kernel bitmap (src/kernel/mm/memory.c, lines 382 to 426). */
module KernelPages {
  import opened Prelude
  import opened Bitmap

  const PAGE_SIZE: nat := 4096

  /** A range of pages some caller holds, as offsets into the bitmap. */
  datatype Range = Range(start: nat, count: nat)

  predicate In(i: int, r: Range) {
    r.start <= i < r.start + r.count
  }

  /** `base` is the bitmap when the first caller came; `live` the ranges held now. */
  datatype Pool = Pool(base: seq<bool>, bits: seq<bool>, live: set<Range>)

  ghost predicate Inv(p: Pool) {
    && |p.bits| == |p.base|
    && (forall r | r in p.live :: r.count > 0 && r.start + r.count <= |p.bits|)
    && (forall r, i | r in p.live && In(i, r) :: !p.base[i])
    && (forall r, s, i | r in p.live && s in p.live && In(i, r) && In(i, s) :: r == s)
    && (forall i | 0 <= i < |p.bits| :: p.bits[i] <==> p.base[i] || exists r :: r in p.live && In(i, r))
  }

  /** alloc_kpage; None is the panic. */
  function Alloc(p: Pool, count: nat): Option<(Pool, Range)>
    requires count > 0
  {
    var s := FirstFit(p.bits, count);
    if s == |p.bits| then None
    else Some((p.(bits := Fill(p.bits, s, count, true), live := p.live + {Range(s, count)}), Range(s, count)))
  }

  /** free_kpage of a range that alloc_kpage returned. */
  function Free(p: Pool, r: Range): Pool
    requires r.start + r.count <= |p.bits|
  {
    p.(bits := Fill(p.bits, r.start, r.count, false), live := p.live - {r})
  }

  lemma AllocSafe(p: Pool, count: nat)
    requires Inv(p) && count > 0 && Alloc(p, count).Some?
    ensures var (p1, r) := Alloc(p, count).value;
            && Inv(p1) && r.count == count && r !in p.live
            && (forall s, i | s in p.live && In(i, s) :: !In(i, r))
  {
    var (p1, r) := Alloc(p, count).value;
    assert Clear(p.bits, r.start, count);
    forall s, i | s in p.live && In(i, s)
      ensures !In(i, r)
    {
      assert p.bits[i];
    }
    assert In(r.start, r);
    assert r in p1.live;
    assert p1.live == p.live + {r};
  }

  lemma FreeSafe(p: Pool, r: Range)
    requires Inv(p) && r in p.live
    ensures Inv(Free(p, r)) && !(exists i | In(i, r) :: Free(p, r).bits[i])
  {
    var p1 := Free(p, r);
    forall i | 0 <= i < |p1.bits|
      ensures p1.bits[i] <==> p1.base[i] || exists s :: s in p1.live && In(i, s)
    {
      if In(i, r) {
        assert !p.base[i];
      } else if exists s :: s in p.live && In(i, s) {
        var s :| s in p.live && In(i, s);
        assert s in p1.live;
      }
    }
  }

  datatype Event = Allocate(count: nat) | Release(r: Range)

  /** Callers ask for at least one page and give back what they hold. */
  predicate Legal(p: Pool, e: Event) {
    match e
    case Allocate(count) => count > 0
    case Release(r) => r in p.live
  }

  ghost predicate Reaches(p: Pool, es: seq<Event>, q: Pool)
    decreases |es|
  {
    if es == [] then q == p
    else
      && Legal(p, es[0])
      && match es[0]
         case Allocate(count) => Alloc(p, count).Some? && Reaches(Alloc(p, count).value.0, es[1..], q)
         case Release(r) => r.start + r.count <= |p.bits| && Reaches(Free(p, r), es[1..], q)
  }

  lemma {:induction false} RunSafe(p: Pool, es: seq<Event>, q: Pool)
    requires Inv(p) && Reaches(p, es, q)
    ensures Inv(q) && q.base == p.base
    decreases |es|
  {
    hide Inv;
    if es != [] {
      match es[0]
      case Allocate(count) =>
        AllocSafe(p, count);
        RunSafe(Alloc(p, count).value.0, es[1..], q);
      case Release(r) =>
        FreeSafe(p, r);
        RunSafe(Free(p, r), es[1..], q);
    }
  }

  /**
   * Whatever the callers did: no two of them hold the same page, and once all
   * ranges are back the bitmap is what it was at the start.
   */
  lemma NeverOverlap(bits: seq<bool>, es: seq<Event>, q: Pool, r: Range, s: Range, i: int)
    requires Reaches(Pool(bits, bits, {}), es, q)
    requires r in q.live && s in q.live && In(i, r) && In(i, s)
    ensures r == s && 0 <= i < |q.bits| == |bits| && q.bits[i] && !bits[i]
  {
    RunSafe(Pool(bits, bits, {}), es, q);
  }

  lemma AllBack(bits: seq<bool>, es: seq<Event>, q: Pool)
    requires Reaches(Pool(bits, bits, {}), es, q) && q.live == {}
    ensures q.bits == bits
  {
    RunSafe(Pool(bits, bits, {}), es, q);
  }

  /** An allocation fails exactly when no run of free pages is long enough. */
  lemma PanicsOnlyWhenFull(p: Pool, count: nat)
    requires count > 0
    ensures Alloc(p, count).None? <==> forall s: nat :: !Clear(p.bits, s, count)
  {
    var f := FirstFit(p.bits, count);
    forall s: nat | f == |p.bits|
      ensures !Clear(p.bits, s, count)
    {
      if s < |p.bits| {
        assert !Clear(p.bits, s, count);
      }
    }
    assert f < |p.bits| ==> Clear(p.bits, f, count);
  }

  /** Giving a range back at once undoes its allocation. */
  lemma FreeUndoesAlloc(p: Pool, count: nat)
    requires Inv(p) && count > 0 && Alloc(p, count).Some?
    ensures var (p1, r) := Alloc(p, count).value; r.start + r.count <= |p1.bits| && Free(p1, r) == p
  {
    AllocSafe(p, count);
    var (p1, r) := Alloc(p, count).value;
    assert Clear(p.bits, r.start, count);
    assert Free(p1, r).bits == p.bits;
    assert Free(p1, r).live == p.live;
  }

  /** alloc_kpage on the kernel map; None is the panic of scan_page. */
  method AllocKpage(map_: Map, count: nat) returns (vaddr: Option<nat>)
    requires count > 0
    modifies map_.bits
    ensures var b := old(map_.Contents()); var s := FirstFit(b, count);
            if s < |b|
            then vaddr == Some((s + map_.offset) * PAGE_SIZE) && map_.Contents() == Fill(b, s, count, true)
            else vaddr == None && map_.Contents() == b
  {
    var index := map_.Scan(count);
    vaddr := if index.None? then None else Some(index.value * PAGE_SIZE);
  }

  /** free_kpage; the caller's range is allocated, as reset_page asserts. */
  method FreeKpage(map_: Map, vaddr: nat, count: nat)
    requires vaddr % PAGE_SIZE == 0 && count > 0
    requires map_.offset <= vaddr / PAGE_SIZE && vaddr / PAGE_SIZE + count <= map_.offset + |map_.Contents()|
    requires forall i | vaddr / PAGE_SIZE - map_.offset <= i < vaddr / PAGE_SIZE - map_.offset + count ::
               map_.Contents()[i]
    modifies map_.bits
    ensures map_.Contents() == Fill(old(map_.Contents()), vaddr / PAGE_SIZE - map_.offset, count, false)
  {
    ghost var b := map_.Contents();
    var index := vaddr / PAGE_SIZE;
    for i := 0 to count
      invariant map_.Contents() == Fill(b, index - map_.offset, i, false)
    {
      var held := map_.Test(index + i);
      assert held;
      map_.Set(index + i, false);
    }
  }
}
