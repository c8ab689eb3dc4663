/**
 * The buffer cache (src/kernel/fs/buffer.c), one call after the other.  A
 * buffer is its position in the array that get_new_buffer hands out.
 */
module BufferCache {
  import opened Prelude

  datatype Addr = Addr(dev: bv32, block: bv32)

  type Block = seq<Byte>

  /** `released` is the time of the last brelse that left the buffer unused. */
  datatype Buf = Buf(addr: Addr, count: nat, dirty: bool, valid: bool, data: Block, released: nat)

  /** What a block holds; a disk is all zero (an empty block) until written. */
  function At(disk: map<Addr, Block>, a: Addr): Block {
    if a in disk then disk[a] else []
  }

  /**
   * `table` gives each bucket its list, `free` and `dirtyList` go from head to
   * tail.  `plain` is the disk as it would be without a cache.
   */
  datatype Cache = Cache(
    capacity: nat,
    mask: bv32,
    bufs: seq<Buf>,
    table: map<nat, seq<nat>>,
    free: seq<nat>,
    dirtyList: seq<nat>,
    disk: map<Addr, Block>,
    plain: map<Addr, Block>,
    clock: nat)

  /** hash_fn */
  function Hash(a: Addr, mask: bv32): nat {
    var k0 := a.dev ^ a.block;
    var k1 := k0 + !(k0 << 15);
    var k2 := k1 ^ (k1 >> 10);
    var k3 := k2 + (k2 << 3);
    var k4 := k3 ^ (k3 >> 6);
    var k5 := k4 + !(k4 << 11);
    var k6 := k5 ^ (k5 >> 16);
    (k6 & mask) as nat
  }

  function Bucket(c: Cache, k: nat): seq<nat> {
    if k in c.table then c.table[k] else []
  }

  /** The position of `x`, or |q|. */
  function Find(q: seq<nat>, x: nat): (p: nat)
    ensures p <= |q| && x !in q[..p]
    ensures p < |q| ==> q[p] == x
  {
    if q == [] || q[0] == x then 0 else 1 + Find(q[1..], x)
  }

  /** list_remove, without effect on a node that is in no list. */
  function Remove(q: seq<nat>, x: nat): seq<nat> {
    var p := Find(q, x);
    if p == |q| then q else q[..p] + q[p + 1..]
  }

  predicate Below(q: seq<nat>, n: nat) {
    forall p | 0 <= p < |q| :: 0 <= q[p] < n
  }

  lemma RemoveMembers(q: seq<nat>, x: nat)
    requires NoDup(q)
    ensures NoDup(Remove(q, x)) && x !in Remove(q, x)
    ensures forall y | y != x :: y in Remove(q, x) <==> y in q
  {
    var p := Find(q, x);
    if p < |q| {
      assert q == q[..p] + [x] + q[p + 1..];
    }
  }

  // The operations.

  /** The walk through one bucket. */
  function Scan(bufs: seq<Buf>, q: seq<nat>, a: Addr): (r: Option<nat>)
    requires Below(q, |bufs|)
    ensures r.Some? ==> r.value in q && r.value < |bufs| && bufs[r.value].addr == a
    ensures r.None? ==> forall p | 0 <= p < |q| :: bufs[q[p]].addr != a
  {
    if q == [] then None
    else if bufs[q[0]].addr == a then Some(q[0])
    else Scan(bufs, q[1..], a)
  }

  function Bdirty(c: Cache, i: nat, dirty: bool): Cache
    requires i < |c.bufs|
  {
    if c.bufs[i].dirty == dirty then c
    else c.(bufs := c.bufs[i := c.bufs[i].(dirty := dirty)],
            dirtyList := if !dirty then Remove(c.dirtyList, i)
                         else if i in c.dirtyList then c.dirtyList else [i] + c.dirtyList)
  }

  function Bwrite(c: Cache, i: nat): (r: Cache)
    requires i < |c.bufs|
    ensures |r.bufs| == |c.bufs|
  {
    if !c.bufs[i].dirty then c
    else
      var d := Bdirty(c.(disk := c.disk[c.bufs[i].addr := c.bufs[i].data]), i, false);
      d.(bufs := d.bufs[i := d.bufs[i].(valid := true)])
  }

  function HashRemove(c: Cache, i: nat): Cache
    requires i < |c.bufs|
  {
    var k := Hash(c.bufs[i].addr, c.mask);
    c.(table := c.table[k := Remove(Bucket(c, k), i)])
  }

  function HashInsert(c: Cache, i: nat): Cache
    requires i < |c.bufs|
  {
    var k := Hash(c.bufs[i].addr, c.mask);
    c.(table := c.table[k := [i] + Bucket(c, k)])
  }

  const NEW_BUF: Buf := Buf(Addr(0xffffffff, 0), 0, false, false, [], 0)

  /** get_free_buffer; None when the caller has to wait for a release. */
  function GetFree(c: Cache): (r: Option<(Cache, nat)>)
    requires Below(c.free, |c.bufs|)
    ensures r.Some? ==> r.value.1 < |r.value.0.bufs|
  {
    if |c.bufs| < c.capacity then Some((c.(bufs := c.bufs + [NEW_BUF]), |c.bufs|))
    else if c.free == [] then None
    else
      var i := c.free[|c.free| - 1];
      var d := HashRemove(Bwrite(c.(free := c.free[..|c.free| - 1]), i), i);
      Some((d.(bufs := d.bufs[i := d.bufs[i].(valid := false, dirty := false)]), i))
  }

  predicate TableInRange(c: Cache) {
    forall k | k in c.table :: Below(c.table[k], |c.bufs|)
  }

  /** getblk */
  function Getblk(c: Cache, a: Addr): Option<(Cache, nat)>
    requires TableInRange(c) && Below(c.free, |c.bufs|)
  {
    match Scan(c.bufs, Bucket(c, Hash(a, c.mask)), a)
    case Some(i) =>
      var d := c.(bufs := c.bufs[i := c.bufs[i].(count := c.bufs[i].count + 1)]);
      Some((if c.bufs[i].count == 0 then d.(free := Remove(c.free, i)) else d, i))
    case None =>
      match GetFree(c)
      case None => None
      case Some((d, i)) =>
        Some((HashInsert(d.(bufs := d.bufs[i := d.bufs[i].(count := 1, addr := a)]), i), i))
  }

  /** The rest of bread, once it has the buffer. */
  function Load(c: Cache, i: nat): Cache
    requires i < |c.bufs|
  {
    if c.bufs[i].valid then c
    else c.(bufs := c.bufs[i := c.bufs[i].(data := At(c.disk, c.bufs[i].addr), dirty := false, valid := true)])
  }

  function Brelse(c: Cache, i: nat): Cache
    requires i < |c.bufs| && c.bufs[i].count > 0
  {
    var n := c.bufs[i].count - 1;
    if n > 0 then c.(bufs := c.bufs[i := c.bufs[i].(count := n)])
    else c.(bufs := c.bufs[i := c.bufs[i].(count := 0, released := c.clock)],
            free := [i] + c.free, clock := c.clock + 1)
  }

  /** A client that holds a buffer writes into it and marks it, with bdirty or directly. */
  function Store(c: Cache, i: nat, data: Block, direct: bool): Cache
    requires i < |c.bufs|
  {
    var d := c.(bufs := c.bufs[i := c.bufs[i].(data := data)], plain := c.plain[c.bufs[i].addr := data]);
    if direct then d.(bufs := d.bufs[i := d.bufs[i].(dirty := true)]) else Bdirty(d, i, true)
  }

  /** bsync: from the head of the dirty list, each node's successor saved first. */
  function Flush(c: Cache, todo: seq<nat>): (r: Cache)
    requires Below(todo, |c.bufs|)
    ensures |r.bufs| == |c.bufs|
    decreases |todo|
  {
    if todo == [] then c else Flush(Bwrite(c, todo[0]), todo[1..])
  }

  function Bsync(c: Cache): Cache
    requires Below(c.dirtyList, |c.bufs|)
  {
    Flush(c, c.dirtyList)
  }

  // What every call keeps.

  /** At most one buffer for a block. */
  predicate Unique(c: Cache) {
    forall i, j | 0 <= i < j < |c.bufs| :: c.bufs[i].addr != c.bufs[j].addr
  }

  predicate BucketOk(c: Cache, k: nat, q: seq<nat>) {
    NoDup(q) && Below(q, |c.bufs|) && forall p | 0 <= p < |q| :: Hash(c.bufs[q[p]].addr, c.mask) == k
  }

  /** Every buffer stands in the bucket of its block, and nothing else does. */
  predicate Hashed(c: Cache) {
    && (forall k | k in c.table :: BucketOk(c, k, c.table[k]))
    && (forall i | 0 <= i < |c.bufs| :: i in Bucket(c, Hash(c.bufs[i].addr, c.mask)))
  }

  /** The free list is the unused buffers, the last released one first. */
  predicate Lru(c: Cache) {
    && Below(c.free, |c.bufs|)
    && (forall p | 0 <= p < |c.free| :: c.bufs[c.free[p]].released < c.clock)
    && (forall p, q | 0 <= p < q < |c.free| :: c.bufs[c.free[p]].released > c.bufs[c.free[q]].released)
    && (forall i | 0 <= i < |c.bufs| :: c.bufs[i].count == 0 <==> i in c.free)
  }

  predicate DirtyListed(c: Cache) {
    && NoDup(c.dirtyList) && Below(c.dirtyList, |c.bufs|)
    && forall p | 0 <= p < |c.dirtyList| :: c.bufs[c.dirtyList[p]].dirty
  }

  /** Cache and disk together hold the plain disk. */
  ghost predicate Coherent(c: Cache) {
    && (forall i | 0 <= i < |c.bufs| && c.bufs[i].valid :: c.bufs[i].data == At(c.plain, c.bufs[i].addr))
    && (forall i | 0 <= i < |c.bufs| && c.bufs[i].dirty :: c.bufs[i].valid)
    && (forall a ::
         At(c.disk, a) == At(c.plain, a) || exists i :: 0 <= i < |c.bufs| && c.bufs[i].dirty && c.bufs[i].addr == a)
  }

  ghost predicate Inv(c: Cache) {
    Unique(c) && Hashed(c) && Lru(c) && DirtyListed(c) && Coherent(c) && |c.bufs| <= c.capacity
  }
}
