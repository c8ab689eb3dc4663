/** The count of a buffer is the number of clients that hold its block. */
module BufferHolders {
  import opened Prelude
  import opened BufferCache
  import opened BufferProofs
  import opened BufferMachine

  /** The buffer of block `a` counts `n` holders; without a buffer there are none. */
  predicate Counts(bufs: seq<Buf>, a: Addr, n: int) {
    && (forall i | 0 <= i < |bufs| && bufs[i].addr == a :: bufs[i].count == n)
    && (n != 0 ==> n > 0 && exists i :: 0 <= i < |bufs| && bufs[i].addr == a)
  }

  /** `e` asks for block `a`. */
  predicate Asks(e: Event, a: Addr) {
    (e.Get? || e.Read?) && e.a == a
  }

  /** `e` gives back the buffer of block `a`. */
  predicate GivesBack(c: Cache, e: Event, a: Addr) {
    e.Release? && e.i < |c.bufs| && c.bufs[e.i].addr == a
  }

  /** All buffers but `i` have the same block and the same count in `ds`. */
  predicate Others(bs: seq<Buf>, ds: seq<Buf>, i: int) {
    |bs| <= |ds| && forall j | 0 <= j < |bs| && j != i :: ds[j].addr == bs[j].addr && ds[j].count == bs[j].count
  }

  /** Buffer `i` of `ds` is that of block `a` with one holder more than in `bs`; all others are as before. */
  predicate Fetched(bs: seq<Buf>, ds: seq<Buf>, i: nat, a: Addr) {
    && i < |ds| && |ds| == Max(|bs|, i + 1) && i <= |bs| && Others(bs, ds, i)
    && ds[i].addr == a
    && if i < |bs| && bs[i].addr == a then ds[i].count == bs[i].count + 1
       else
         && ds[i].count == 1 && (i < |bs| ==> bs[i].count == 0)
         && forall j | 0 <= j < |bs| :: bs[j].addr != a
  }

  predicate Single(bufs: seq<Buf>) {
    forall i, j | 0 <= i < j < |bufs| :: bufs[i].addr != bufs[j].addr
  }

  lemma HitFetched(c: Cache, a: Addr)
    requires InRange(c) && Hashed(c) && Scan(c.bufs, Bucket(c, Hash(a, c.mask)), a).Some?
    ensures Getblk(c, a).Some? && var (d, i) := Getblk(c, a).value; Fetched(c.bufs, d.bufs, i, a)
  {
    ScanExact(c, a);
    hide Hash, Remove, GetFree, HashInsert, Bucket, Scan, Hashed, Fetched;
    var i := Scan(c.bufs, Bucket(c, Hash(a, c.mask)), a).value;
    HitBufs(c.bufs, i, a);
  }

  lemma HitBufs(bs: seq<Buf>, i: nat, a: Addr)
    requires i < |bs| && bs[i].addr == a
    ensures Fetched(bs, bs[i := bs[i].(count := bs[i].count + 1)], i, a)
  {
  }

  lemma RecycleAlike(c: Cache, a: Addr)
    requires c.free != [] && Below(c.free, |c.bufs|)
    ensures var d, i := Recycle(c, a), c.free[|c.free| - 1];
            |d.bufs| == |c.bufs| && d.bufs[i].addr == a && d.bufs[i].count == 1 && Others(c.bufs, d.bufs, i)
  {
    hide Hash, Remove;
  }

  lemma MissFetched(c: Cache, a: Addr)
    requires Inv(c) && (forall i | 0 <= i < |c.bufs| :: c.bufs[i].addr != a) && (|c.bufs| < c.capacity || c.free != [])
    ensures TableInRange(c) && Below(c.free, |c.bufs|)
    ensures Getblk(c, a).Some? && var (d, i) := Getblk(c, a).value; Fetched(c.bufs, d.bufs, i, a)
  {
    hide Hash, Hashed, Coherent, DirtyListed, Unique, Remove, Recycle, Bwrite, Getblk;
    if |c.bufs| < c.capacity {
      MissMakes(c, a);
    } else {
      MissRecycles(c, a);
      var i := c.free[|c.free| - 1];
      assert i in c.free;
      BwriteEffect(c, i);
      RecycleAlike(Bwrite(c, i), a);
    }
  }

  lemma GetFetched(c: Cache, a: Addr)
    requires Inv(c)
    ensures InRange(c)
    ensures Getblk(c, a).Some? ==> var (d, i) := Getblk(c, a).value; Fetched(c.bufs, d.bufs, i, a)
  {
    InvInRange(c);
    GetblkInv(c, a);
    ScanExact(c, a);
    hide Hash, Hashed, Coherent, DirtyListed, Unique, Getblk, Scan, Bucket, Fetched;
    if Scan(c.bufs, Bucket(c, Hash(a, c.mask)), a).Some? {
      HitFetched(c, a);
    } else if |c.bufs| < c.capacity || c.free != [] {
      MissFetched(c, a);
    }
  }

  lemma FetchedCounts(bs: seq<Buf>, ds: seq<Buf>, i: nat, a: Addr, b: Addr, n: int)
    requires Fetched(bs, ds, i, a) && Single(bs) && Counts(bs, b, n)
    ensures Counts(ds, b, n + One(a == b))
  {
    if n != 0 {
      var k :| 0 <= k < |bs| && bs[k].addr == b;
      assert bs[k].count == n && (k != i ==> ds[k].addr == b);
    }
  }

  lemma AlikeCounts(bs: seq<Buf>, ds: seq<Buf>, a: Addr, n: int)
    requires |bs| == |ds| && Others(bs, ds, -1) && Counts(bs, a, n)
    ensures Counts(ds, a, n)
  {
    if n != 0 {
      var k :| 0 <= k < |bs| && bs[k].addr == a;
      assert ds[k].addr == a;
    }
  }

  lemma LoadAlike(c: Cache, i: nat)
    requires i < |c.bufs|
    ensures |Load(c, i).bufs| == |c.bufs| && Others(c.bufs, Load(c, i).bufs, -1)
  {
  }

  lemma GetCounts(c: Cache, b: Addr, a: Addr, n: int)
    requires Inv(c) && Counts(c.bufs, a, n)
    ensures InRange(c)
    ensures Getblk(c, b).Some? ==>
              var (d, i) := Getblk(c, b).value; i < |d.bufs| && Counts(d.bufs, a, n + One(a == b))
  {
    GetFetched(c, b);
    assert Single(c.bufs);
    hide Inv, Getblk, Hash, Counts, Fetched, Single, InRange;
    if Getblk(c, b).Some? {
      var (d, i) := Getblk(c, b).value;
      FetchedCounts(c.bufs, d.bufs, i, b, a, n);
      FetchedIn(c.bufs, d.bufs, i, b);
    }
  }

  lemma ReadCounts(c: Cache, b: Addr, a: Addr, n: int)
    requires Inv(c) && Counts(c.bufs, a, n)
    ensures InRange(c)
    ensures Bread(c, b).Some? ==> Counts(Bread(c, b).value.0.bufs, a, n + One(a == b))
  {
    GetCounts(c, b, a, n);
    hide Inv, Getblk, Hash, Counts, Load, Others, InRange;
    if Getblk(c, b).Some? {
      var (d, i) := Getblk(c, b).value;
      LoadAlike(d, i);
      AlikeCounts(d.bufs, Load(d, i).bufs, a, n + One(a == b));
    }
  }

  lemma FetchedIn(bs: seq<Buf>, ds: seq<Buf>, i: nat, a: Addr)
    requires Fetched(bs, ds, i, a)
    ensures i < |ds|
  {
  }

  lemma StoreAlike(c: Cache, i: nat, data: Block, direct: bool)
    requires i < |c.bufs|
    ensures var d := Store(c, i, data, direct); |d.bufs| == |c.bufs| && Others(c.bufs, d.bufs, -1)
  {
    hide Remove;
  }

  lemma ReleaseBufs(c: Cache, i: nat)
    requires i < |c.bufs| && c.bufs[i].count > 0
    ensures var d := Brelse(c, i);
            && |d.bufs| == |c.bufs| && Others(c.bufs, d.bufs, i)
            && d.bufs[i].addr == c.bufs[i].addr && d.bufs[i].count == c.bufs[i].count - 1
  {
    hide Hash, Others;
    var d := Brelse(c, i);
    assert d.bufs == c.bufs[i := d.bufs[i]];
    hide Brelse;
    Replaced(c.bufs, i, d.bufs[i]);
  }

  lemma Replaced(bs: seq<Buf>, i: nat, b: Buf)
    requires i < |bs|
    ensures Others(bs, bs[i := b], i)
  {
  }

  lemma ReleaseCounts(c: Cache, i: nat, a: Addr, n: int)
    requires Unique(c) && i < |c.bufs| && c.bufs[i].count > 0 && Counts(c.bufs, a, n)
    ensures Counts(Brelse(c, i).bufs, a, n - One(c.bufs[i].addr == a))
  {
    ReleaseBufs(c, i);
    hide Brelse;
    var d := Brelse(c, i);
    if n != 0 {
      var k :| 0 <= k < |c.bufs| && c.bufs[k].addr == a;
      assert d.bufs[k].addr == a;
    }
  }

  /** One more for each getblk and bread of the block, one less for each brelse, and nothing else. */
  lemma StepCounts(c: Cache, e: Event, a: Addr, n: int)
    requires Inv(c) && Legal(c, e) && Counts(c.bufs, a, n)
    ensures InRange(c)
    ensures Step(c, e).Some? ==> Counts(Step(c, e).value.bufs, a, n + One(Asks(e, a)) - One(GivesBack(c, e, a)))
  {
    hide Hashed, Coherent, DirtyListed, Lru, Getblk, Bread, Bwrite, Flush, Store, Brelse, Counts, Hash;
    InvInRange(c);
    match e
    case Get(b) => GetCounts(c, b, a, n);
    case Read(b) => ReadCounts(c, b, a, n);
    case Write(i, data, direct) =>
      StoreAlike(c, i, data, direct);
      AlikeCounts(c.bufs, Store(c, i, data, direct).bufs, a, n);
    case WriteBack(i) =>
      BwriteEffect(c, i);
      AlikeCounts(c.bufs, Bwrite(c, i).bufs, a, n);
    case Release(i) => ReleaseCounts(c, i, a, n);
    case Sync =>
      FlushEffect(c, c.dirtyList);
      assert Bsync(c) == Flush(c, c.dirtyList);
      AlikeCounts(c.bufs, Flush(c, c.dirtyList).bufs, a, n);
  }

  /** How much more often a run asked for block `a` than it gave it back. */
  function Holders(c: Cache, es: seq<Event>, a: Addr): int
    decreases |es|
  {
    if es == [] || !InRange(c) || !Legal(c, es[0]) || Step(c, es[0]).None? then 0
    else One(Asks(es[0], a)) - One(GivesBack(c, es[0], a)) + Holders(Step(c, es[0]).value, es[1..], a)
  }

  lemma {:induction false} RunCounts(c: Cache, es: seq<Event>, a: Addr, n: int)
    requires Inv(c) && Run(c, es).Some? && Counts(c.bufs, a, n)
    ensures Inv(Run(c, es).value) && Counts(Run(c, es).value.bufs, a, n + Holders(c, es, a))
    decreases |es|
  {
    hide Inv, Step, Counts, Asks, GivesBack;
    if es != [] {
      StepInv(c, es[0]);
      StepCounts(c, es[0], a, n);
      var m := n + One(Asks(es[0], a)) - One(GivesBack(c, es[0], a));
      RunCounts(Step(c, es[0]).value, es[1..], a, m);
    }
  }

  /** After every run the count of a block's buffer is the number of clients that have it. */
  lemma CountIsHolders(capacity: nat, mask: bv32, disk: map<Addr, Block>, es: seq<Event>, a: Addr)
    requires Run(Start(capacity, mask, disk), es).Some?
    ensures Counts(Run(Start(capacity, mask, disk), es).value.bufs, a, Holders(Start(capacity, mask, disk), es, a))
  {
    var c := Start(capacity, mask, disk);
    StartInv(capacity, mask, disk);
    NoHolders(a);
    hide Inv, Run, Counts, Holders, Hash;
    RunCounts(c, es, a, 0);
  }

  lemma NoHolders(a: Addr)
    ensures Counts([], a, 0)
  {
  }

  // Holding a buffer for long.

  /** How often buffer `j` is given back. */
  function Releases(es: seq<Event>, j: nat): nat {
    if es == [] then 0 else One(es[0] == Release(j)) + Releases(es[1..], j)
  }

  lemma ReleaseKeeps(c: Cache, e: Event, j: nat)
    requires Inv(c) && Legal(c, e) && j < |c.bufs| && c.bufs[j].count > One(e == Release(j))
    ensures InRange(c)
    ensures Step(c, e).Some? ==>
              var d := Step(c, e).value;
              && j < |d.bufs| && d.bufs[j].addr == c.bufs[j].addr
              && d.bufs[j].count >= c.bufs[j].count - One(e == Release(j))
  {
    if e != Release(j) && !(e.Write? && e.i == j) {
      HeldStays(c, e, j);
      hide Inv, Step;
    } else {
      InvInRange(c);
      hide Inv, Remove;
    }
  }

  /** With more holders than releases to come, a buffer keeps its block, whatever else happens. */
  lemma {:induction false} HeldThrough(c: Cache, es: seq<Event>, j: nat)
    requires Inv(c) && Run(c, es).Some? && j < |c.bufs| && c.bufs[j].count > Releases(es, j)
    ensures var d := Run(c, es).value;
            && j < |d.bufs| && d.bufs[j].addr == c.bufs[j].addr
            && d.bufs[j].count >= c.bufs[j].count - Releases(es, j)
    decreases |es|
  {
    hide Inv, Step;
    if es != [] {
      StepInv(c, es[0]);
      ReleaseKeeps(c, es[0], j);
      HeldThrough(Step(c, es[0]).value, es[1..], j);
    }
  }
}
