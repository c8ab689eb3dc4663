/** What the calls of the buffer cache keep. */
module BufferProofs {
  import opened Prelude
  import opened BufferCache

  lemma SameAddrs(c: Cache, d: Cache)
    requires |d.bufs| == |c.bufs| && d.table == c.table && d.mask == c.mask
    requires forall i | 0 <= i < |c.bufs| :: d.bufs[i].addr == c.bufs[i].addr
    ensures Unique(c) ==> Unique(d)
    ensures Hashed(c) ==> Hashed(d)
  {
    hide Hash;
    if Hashed(c) {
      forall k | k in d.table
        ensures BucketOk(d, k, d.table[k])
      {
        assert BucketOk(c, k, c.table[k]);
      }
      forall i | 0 <= i < |d.bufs|
        ensures i in Bucket(d, Hash(d.bufs[i].addr, d.mask))
      {
        assert i in Bucket(c, Hash(c.bufs[i].addr, c.mask));
      }
    }
  }

  lemma SameUse(c: Cache, d: Cache)
    requires |d.bufs| == |c.bufs| && d.free == c.free && d.clock == c.clock
    requires forall i | 0 <= i < |c.bufs| ::
               d.bufs[i].count == c.bufs[i].count && d.bufs[i].released == c.bufs[i].released
    ensures Lru(c) ==> Lru(d)
  {
  }

  lemma DirtyListChange(c: Cache, i: nat, dirty: bool)
    requires DirtyListed(c) && i < |c.bufs|
    ensures DirtyListed(Bdirty(c, i, dirty))
    ensures !dirty ==> i !in Bdirty(c, i, dirty).dirtyList
  {
    RemoveMembers(c.dirtyList, i);
    var d := Bdirty(c, i, dirty);
    forall p | 0 <= p < |d.dirtyList|
      ensures d.dirtyList[p] < |d.bufs| && d.bufs[d.dirtyList[p]].dirty
    {
      assert d.dirtyList[p] in d.dirtyList;
      if d.dirtyList[p] != i || !dirty {
        assert d.dirtyList[p] in c.dirtyList;
      }
    }
  }

  lemma BwriteCoherent(c: Cache, i: nat)
    requires Coherent(c) && i < |c.bufs| && Unique(c)
    ensures Coherent(Bwrite(c, i))
  {
    var d := Bwrite(c, i);
    forall a
      ensures At(d.disk, a) == At(d.plain, a) || exists j :: 0 <= j < |d.bufs| && d.bufs[j].dirty && d.bufs[j].addr == a
    {
      if a != c.bufs[i].addr && At(c.disk, a) != At(c.plain, a) {
        var j :| 0 <= j < |c.bufs| && c.bufs[j].dirty && c.bufs[j].addr == a;
        assert d.bufs[j].dirty && d.bufs[j].addr == a;
      }
    }
  }

  /** bwrite leaves the buffer clean and everything else as it was. */
  lemma BwriteInv(c: Cache, i: nat)
    requires Inv(c) && i < |c.bufs|
    ensures Inv(Bwrite(c, i)) && !Bwrite(c, i).bufs[i].dirty
    ensures At(Bwrite(c, i).disk, c.bufs[i].addr) == At(c.plain, c.bufs[i].addr)
  {
    hide Hash;
    var d := Bwrite(c, i);
    BwriteCoherent(c, i);
    if c.bufs[i].dirty {
      DirtyListChange(c.(disk := c.disk[c.bufs[i].addr := c.bufs[i].data]), i, false);
    }
    hide Hashed, Coherent, Lru;
    SameAddrs(c, d);
    SameUse(c, d);
  }

  lemma LoadInv(c: Cache, i: nat)
    requires Inv(c) && i < |c.bufs|
    ensures Inv(Load(c, i))
    ensures Load(c, i).bufs[i].valid && Load(c, i).bufs[i].data == At(c.plain, c.bufs[i].addr)
  {
    hide Hash;
    var d := Load(c, i);
    if !c.bufs[i].valid {
      LoadCoherent(c, i);
      assert DirtyListed(d);
    }
    hide Hashed, Coherent, Lru;
    SameAddrs(c, d);
    SameUse(c, d);
  }

  lemma LoadCoherent(c: Cache, i: nat)
    requires Coherent(c) && i < |c.bufs| && Unique(c) && !c.bufs[i].valid
    ensures Coherent(Load(c, i)) && At(c.disk, c.bufs[i].addr) == At(c.plain, c.bufs[i].addr)
  {
    var d := Load(c, i);
    forall a
      ensures At(d.disk, a) == At(d.plain, a) || exists j :: 0 <= j < |d.bufs| && d.bufs[j].dirty && d.bufs[j].addr == a
    {
      if At(c.disk, a) != At(c.plain, a) {
        var j :| 0 <= j < |c.bufs| && c.bufs[j].dirty && c.bufs[j].addr == a;
        assert d.bufs[j].dirty && d.bufs[j].addr == a;
      }
    }
  }

  lemma StoreShape(c: Cache, i: nat, data: Block, direct: bool)
    requires i < |c.bufs|
    ensures var d := Store(c, i, data, direct);
            && d.bufs == c.bufs[i := c.bufs[i].(data := data, dirty := true)]
            && d.disk == c.disk && d.plain == c.plain[c.bufs[i].addr := data]
  {
  }

  lemma StoreCoherent(c: Cache, i: nat, data: Block, direct: bool)
    requires Coherent(c) && i < |c.bufs| && Unique(c) && c.bufs[i].valid
    ensures Coherent(Store(c, i, data, direct))
  {
    var d := Store(c, i, data, direct);
    StoreShape(c, i, data, direct);
    hide Store;
    assert forall j | 0 <= j < |c.bufs| && j != i :: c.bufs[j].addr != c.bufs[i].addr;
    hide Unique;
    assert d.bufs[i].dirty && d.bufs[i].addr == c.bufs[i].addr;
    forall a
      ensures At(d.disk, a) == At(d.plain, a) || exists j :: 0 <= j < |d.bufs| && d.bufs[j].dirty && d.bufs[j].addr == a
    {
      if a != c.bufs[i].addr && At(c.disk, a) != At(c.plain, a) {
        var j :| 0 <= j < |c.bufs| && c.bufs[j].dirty && c.bufs[j].addr == a;
        assert d.bufs[j].dirty && d.bufs[j].addr == a;
      }
    }
  }

  lemma StoreListed(c: Cache, i: nat, data: Block, direct: bool)
    requires DirtyListed(c) && i < |c.bufs|
    ensures DirtyListed(Store(c, i, data, direct))
  {
    var c1 := c.(bufs := c.bufs[i := c.bufs[i].(data := data)], plain := c.plain[c.bufs[i].addr := data]);
    assert DirtyListed(c1);
    if !direct {
      DirtyListChange(c1, i, true);
    }
  }

  lemma StoreInv(c: Cache, i: nat, data: Block, direct: bool)
    requires Inv(c) && i < |c.bufs| && c.bufs[i].valid
    ensures Inv(Store(c, i, data, direct))
  {
    hide Hash, Hashed, Coherent, Lru, DirtyListed, Unique, Remove;
    var d := Store(c, i, data, direct);
    StoreCoherent(c, i, data, direct);
    StoreListed(c, i, data, direct);
    SameAddrs(c, d);
    SameUse(c, d);
  }

  lemma ReleasedFirst(c: Cache, i: nat)
    requires Lru(c) && i < |c.bufs| && c.bufs[i].count == 1
    ensures var d := Brelse(c, i);
            && Below(d.free, |d.bufs|)
            && (forall p | 0 <= p < |d.free| :: d.bufs[d.free[p]].released < d.clock)
            && (forall p, q | 0 <= p < q < |d.free| :: d.bufs[d.free[p]].released > d.bufs[d.free[q]].released)
  {
    var d := Brelse(c, i);
    assert forall p | 0 < p < |d.free| :: d.free[p] == c.free[p - 1] && d.free[p] in c.free && d.free[p] != i;
    assert forall p | 0 < p < |d.free| :: d.bufs[d.free[p]] == c.bufs[c.free[p - 1]];
  }

  lemma BrelseLru(c: Cache, i: nat)
    requires Lru(c) && i < |c.bufs| && c.bufs[i].count > 0
    ensures Lru(Brelse(c, i))
  {
    var d := Brelse(c, i);
    if c.bufs[i].count == 1 {
      ReleasedFirst(c, i);
      forall j | 0 <= j < |d.bufs|
        ensures d.bufs[j].count == 0 <==> j in d.free
      {
        assert j in d.free <==> j == i || j in c.free;
      }
    }
  }

  lemma SameContents(c: Cache, d: Cache)
    requires |d.bufs| == |c.bufs| && d.dirtyList == c.dirtyList && d.disk == c.disk && d.plain == c.plain
    requires forall i | 0 <= i < |c.bufs| ::
               && d.bufs[i].dirty == c.bufs[i].dirty && d.bufs[i].valid == c.bufs[i].valid
               && d.bufs[i].data == c.bufs[i].data && d.bufs[i].addr == c.bufs[i].addr
    ensures DirtyListed(c) ==> DirtyListed(d)
    ensures Coherent(c) ==> Coherent(d)
  {
    if Coherent(c) {
      forall a
        ensures At(d.disk, a) == At(d.plain, a) ||
                exists j :: 0 <= j < |d.bufs| && d.bufs[j].dirty && d.bufs[j].addr == a
      {
        if At(c.disk, a) != At(c.plain, a) {
          var j :| 0 <= j < |c.bufs| && c.bufs[j].dirty && c.bufs[j].addr == a;
          assert d.bufs[j].dirty && d.bufs[j].addr == a;
        }
      }
    }
  }

  lemma BrelseInv(c: Cache, i: nat)
    requires Inv(c) && i < |c.bufs| && c.bufs[i].count > 0
    ensures Inv(Brelse(c, i))
  {
    hide Hash, Hashed, Coherent, Lru, DirtyListed, Unique;
    var d := Brelse(c, i);
    BrelseLru(c, i);
    SameAddrs(c, d);
    SameContents(c, d);
  }

  // getblk

  /** The hash table finds the buffer of a block, whichever bucket the hash sends it to. */
  lemma ScanExact(c: Cache, a: Addr)
    requires Hashed(c)
    ensures TableInRange(c)
    ensures var r := Scan(c.bufs, Bucket(c, Hash(a, c.mask)), a);
            && (r.Some? ==> r.value < |c.bufs| && c.bufs[r.value].addr == a)
            && (r.None? ==> forall i | 0 <= i < |c.bufs| :: c.bufs[i].addr != a)
  {
    hide Hash;
    assert forall k | k in c.table :: BucketOk(c, k, c.table[k]);
    var q := Bucket(c, Hash(a, c.mask));
    var r := Scan(c.bufs, q, a);
    forall i | 0 <= i < |c.bufs| && r.None?
      ensures c.bufs[i].addr != a
    {
      assert i in Bucket(c, Hash(c.bufs[i].addr, c.mask));
    }
  }

  /** Where the elements that stay come from. */
  lemma RemoveOrder(q: seq<nat>, x: nat, p: nat, r: nat)
    requires p < r < |Remove(q, x)|
    ensures exists p1, r1 :: 0 <= p1 < r1 < |q| && Remove(q, x)[p] == q[p1] && Remove(q, x)[r] == q[r1]
  {
    var at := Find(q, x);
    var p1 := if at == |q| || p < at then p else p + 1;
    var r1 := if at == |q| || r < at then r else r + 1;
    assert Remove(q, x)[p] == q[p1] && Remove(q, x)[r] == q[r1];
  }

  lemma RemoveBelow(q: seq<nat>, x: nat, n: nat)
    requires Below(q, n)
    ensures Below(Remove(q, x), n)
  {
  }

  lemma TakeOrder(c: Cache, i: nat, d: Cache)
    requires Lru(c) && d.clock == c.clock && d.free == Remove(c.free, i) && |d.bufs| == |c.bufs|
    requires i !in d.free && forall x | x in d.free :: x in c.free
    requires forall j | 0 <= j < |c.bufs| && j != i :: d.bufs[j].released == c.bufs[j].released
    ensures Below(d.free, |d.bufs|)
    ensures forall p | 0 <= p < |d.free| :: d.bufs[d.free[p]].released < d.clock
    ensures forall p, q | 0 <= p < q < |d.free| :: d.bufs[d.free[p]].released > d.bufs[d.free[q]].released
  {
    hide Remove;
    RemoveBelow(c.free, i, |c.bufs|);
    forall p | 0 <= p < |d.free|
      ensures d.bufs[d.free[p]].released < d.clock
    {
      assert d.free[p] in d.free && d.free[p] in c.free;
    }
    forall p, q | 0 <= p < q < |d.free|
      ensures d.bufs[d.free[p]].released > d.bufs[d.free[q]].released
    {
      RemoveOrder(c.free, i, p, q);
      assert d.free[p] in d.free && d.free[q] in d.free;
    }
  }

  /** A buffer that was unused and is used again leaves the free list. */
  lemma TakeLru(c: Cache, i: nat, d: Cache)
    requires Lru(c) && i < |c.bufs| && c.bufs[i].count == 0
    requires d.clock == c.clock && d.free == Remove(c.free, i) && |d.bufs| == |c.bufs|
    requires d.bufs[i].count > 0
    requires forall j | 0 <= j < |c.bufs| && j != i ::
               d.bufs[j].count == c.bufs[j].count && d.bufs[j].released == c.bufs[j].released
    ensures Lru(d)
  {
    hide Remove;
    FreeNoDup(c);
    RemoveMembers(c.free, i);
    TakeOrder(c, i, d);
  }

  lemma FreeNoDup(c: Cache)
    requires Lru(c)
    ensures NoDup(c.free)
  {
  }

  lemma HitInv(c: Cache, i: nat)
    requires Inv(c) && i < |c.bufs|
    ensures var d := c.(bufs := c.bufs[i := c.bufs[i].(count := c.bufs[i].count + 1)]);
            Inv(if c.bufs[i].count == 0 then d.(free := Remove(c.free, i)) else d)
  {
    hide Hash, Hashed, Coherent, DirtyListed, Unique, Remove;
    var d0 := c.(bufs := c.bufs[i := c.bufs[i].(count := c.bufs[i].count + 1)]);
    var d := if c.bufs[i].count == 0 then d0.(free := Remove(c.free, i)) else d0;
    SameAddrs(c, d);
    SameContents(c, d);
    if c.bufs[i].count == 0 {
      TakeLru(c, i, d);
    } else {
      assert Lru(d);
    }
  }

  /** A buffer enters the table under a block that no buffer had. */
  lemma InsertHashed(c: Cache, d: Cache, i: nat)
    requires i < |d.bufs| && d.mask == c.mask
    requires forall k | k in c.table :: BucketOk(d, k, c.table[k]) && i !in c.table[k]
    requires forall j | 0 <= j < |d.bufs| && j != i :: j in Bucket(c, Hash(d.bufs[j].addr, c.mask))
    requires d.table == c.table[Hash(d.bufs[i].addr, c.mask) := [i] + Bucket(c, Hash(d.bufs[i].addr, c.mask))]
    ensures Hashed(d)
  {
    hide Hash;
    var h := Hash(d.bufs[i].addr, c.mask);
    var q := Bucket(c, h);
    PushBucket(d, h, q, i);
    forall k | k in d.table
      ensures BucketOk(d, k, d.table[k])
    {
    }
    forall j | 0 <= j < |d.bufs|
      ensures j in Bucket(d, Hash(d.bufs[j].addr, d.mask))
    {
      var k := Hash(d.bufs[j].addr, c.mask);
      if k == h {
        assert j in [i] + q;
      }
    }
  }

  lemma PushBucket(d: Cache, k: nat, q: seq<nat>, i: nat)
    requires i < |d.bufs| && BucketOk(d, k, q) && i !in q && Hash(d.bufs[i].addr, d.mask) == k
    ensures BucketOk(d, k, [i] + q)
  {
    hide Hash;
    assert forall p | 0 < p < |[i] + q| :: ([i] + q)[p] == q[p - 1];
  }

  lemma NewBufInv(c: Cache, a: Addr)
    requires Inv(c) && |c.bufs| < c.capacity && forall i | 0 <= i < |c.bufs| :: c.bufs[i].addr != a
    ensures var d := c.(bufs := c.bufs + [NEW_BUF.(count := 1, addr := a)]);
            Inv(HashInsert(d, |c.bufs|))
  {
    hide Hash, Hashed, Lru, DirtyListed, Coherent;
    var e := HashInsert(c.(bufs := c.bufs + [NEW_BUF.(count := 1, addr := a)]), |c.bufs|);
    NewBufLists(c, e, a);
    NewBufHashed(c, a);
  }

  lemma NewBufHashed(c: Cache, a: Addr)
    requires Hashed(c)
    ensures Hashed(HashInsert(c.(bufs := c.bufs + [NEW_BUF.(count := 1, addr := a)]), |c.bufs|))
  {
    hide Hash, NoDup;
    var i := |c.bufs|;
    var e := HashInsert(c.(bufs := c.bufs + [NEW_BUF.(count := 1, addr := a)]), i);
    assert forall j | 0 <= j < i :: e.bufs[j] == c.bufs[j];
    forall k | k in c.table
      ensures BucketOk(e, k, c.table[k]) && i !in c.table[k]
    {
      assert BucketOk(c, k, c.table[k]);
      StillBucket(c, e, k, c.table[k]);
    }
    hide BucketOk;
    assert forall j | 0 <= j < |e.bufs| && j != i :: j in Bucket(c, Hash(e.bufs[j].addr, c.mask));
    InsertHashed(c, e, i);
  }

  lemma StillBucket(c: Cache, e: Cache, k: nat, q: seq<nat>)
    requires BucketOk(c, k, q) && |c.bufs| <= |e.bufs| && e.mask == c.mask
    requires forall j | 0 <= j < |c.bufs| :: e.bufs[j] == c.bufs[j]
    ensures BucketOk(e, k, q) && |c.bufs| !in q
  {
    hide Hash, NoDup;
  }

  lemma NewBufLists(c: Cache, e: Cache, a: Addr)
    requires Lru(c) && DirtyListed(c) && Coherent(c)
    requires e.bufs == c.bufs + [NEW_BUF.(count := 1, addr := a)]
    requires e.free == c.free && e.dirtyList == c.dirtyList && e.disk == c.disk && e.plain == c.plain
             && e.clock == c.clock
    ensures Lru(e) && DirtyListed(e) && Coherent(e)
  {
    forall b
      ensures At(e.disk, b) == At(e.plain, b) || exists j :: 0 <= j < |e.bufs| && e.bufs[j].dirty && e.bufs[j].addr == b
    {
      if At(c.disk, b) != At(c.plain, b) {
        var j :| 0 <= j < |c.bufs| && c.bufs[j].dirty && c.bufs[j].addr == b;
        assert e.bufs[j].dirty && e.bufs[j].addr == b;
      }
    }
    assert |c.bufs| !in c.free;
  }

  // Recycling the least recently released buffer, once it is clean.

  function Recycled(b: Buf, a: Addr): Buf {
    b.(valid := false, dirty := false, count := 1, addr := a)
  }

  function Recycle(c: Cache, a: Addr): Cache
    requires c.free != [] && Below(c.free, |c.bufs|)
  {
    var i := c.free[|c.free| - 1];
    var d := HashRemove(c, i);
    HashInsert(d.(bufs := d.bufs[i := Recycled(d.bufs[i], a)], free := c.free[..|c.free| - 1]), i)
  }

  lemma RecycleLists(c: Cache, a: Addr, i: nat)
    requires Lru(c) && DirtyListed(c) && Coherent(c) && c.free != [] && i == c.free[|c.free| - 1] && !c.bufs[i].dirty
    ensures var e := Recycle(c, a); Lru(e) && DirtyListed(e) && Coherent(e)
  {
    hide Hash, Coherent, NoDup;
    RecycleCoherent(c, a, i);
    var e := Recycle(c, a);
    assert forall j | 0 <= j < |c.bufs| && j != i :: e.bufs[j] == c.bufs[j];
    LastIsRemoved(c.free, i, c);
    TakeLru(c, i, e);
  }

  lemma RecycleCoherent(c: Cache, a: Addr, i: nat)
    requires Below(c.free, |c.bufs|) && Coherent(c) && c.free != [] && i == c.free[|c.free| - 1] && !c.bufs[i].dirty
    ensures Coherent(Recycle(c, a))
  {
    hide Hash;
    var e := Recycle(c, a);
    assert forall j | 0 <= j < |c.bufs| && j != i :: e.bufs[j] == c.bufs[j];
    forall b
      ensures At(e.disk, b) == At(e.plain, b) || exists j :: 0 <= j < |e.bufs| && e.bufs[j].dirty && e.bufs[j].addr == b
    {
      if At(c.disk, b) != At(c.plain, b) {
        var j :| 0 <= j < |c.bufs| && c.bufs[j].dirty && c.bufs[j].addr == b;
        assert e.bufs[j].dirty && e.bufs[j].addr == b;
      }
    }
  }

  lemma LastIsRemoved(q: seq<nat>, i: nat, c: Cache)
    requires Lru(c) && q == c.free && q != [] && i == q[|q| - 1]
    ensures Remove(q, i) == q[..|q| - 1]
  {
    FreeNoDup(c);
    var p := Find(q, i);
    assert i !in q[..p];
    assert p == |q| - 1;
  }

  lemma DropBucket(c: Cache, e: Cache, k: nat, i: nat)
    requires k in c.table && BucketOk(c, k, c.table[k]) && |e.bufs| == |c.bufs| && e.mask == c.mask
    requires forall j | 0 <= j < |c.bufs| && j != i :: e.bufs[j] == c.bufs[j]
    ensures BucketOk(e, k, Remove(c.table[k], i))
  {
    hide Hash, Remove;
    var q, r := c.table[k], Remove(c.table[k], i);
    RemoveMembers(q, i);
    forall p | 0 <= p < |r|
      ensures 0 <= r[p] < |e.bufs| && Hash(e.bufs[r[p]].addr, e.mask) == k
    {
      assert r[p] in r && r[p] in q;
    }
  }

  lemma KeepBucket(c: Cache, e: Cache, k: nat, i: nat)
    requires k in c.table && BucketOk(c, k, c.table[k]) && |e.bufs| == |c.bufs| && e.mask == c.mask
    requires i < |c.bufs| && k != Hash(c.bufs[i].addr, c.mask)
    requires forall j | 0 <= j < |c.bufs| && j != i :: e.bufs[j] == c.bufs[j]
    ensures BucketOk(e, k, c.table[k]) && i !in c.table[k]
  {
    hide Hash;
  }

  lemma RecycleHashed(c: Cache, a: Addr, i: nat)
    requires Hashed(c) && c.free != [] && Below(c.free, |c.bufs|) && i == c.free[|c.free| - 1]
    ensures Hashed(Recycle(c, a))
  {
    hide Hash, BucketOk, Remove;
    var d := HashRemove(c, i);
    var e := Recycle(c, a);
    var h := Hash(c.bufs[i].addr, c.mask);
    assert i in Bucket(c, h);
    forall k | k in d.table
      ensures BucketOk(e, k, d.table[k]) && i !in d.table[k]
    {
      if k == h {
        DropBucket(c, e, h, i);
        BucketDistinct(c, h);
        RemoveMembers(c.table[h], i);
      } else {
        KeepBucket(c, e, k, i);
      }
    }
    BucketDistinct(c, h);
    RemoveMembers(c.table[h], i);
    forall j | 0 <= j < |e.bufs| && j != i
      ensures j in Bucket(d, Hash(e.bufs[j].addr, c.mask))
    {
      assert j in Bucket(c, Hash(c.bufs[j].addr, c.mask));
    }
    InsertHashed(d, e, i);
  }

  lemma BucketDistinct(c: Cache, k: nat)
    requires k in c.table && BucketOk(c, k, c.table[k])
    ensures NoDup(c.table[k])
  {
  }

  lemma RecycleUnique(c: Cache, a: Addr)
    requires Unique(c) && c.free != [] && Below(c.free, |c.bufs|)
    requires forall i | 0 <= i < |c.bufs| :: c.bufs[i].addr != a
    ensures Unique(Recycle(c, a)) && |Recycle(c, a).bufs| == |c.bufs|
  {
    hide Hash;
  }

  lemma RecycleInv(c: Cache, a: Addr)
    requires Inv(c) && c.free != [] && !c.bufs[c.free[|c.free| - 1]].dirty
    requires forall i | 0 <= i < |c.bufs| :: c.bufs[i].addr != a
    ensures Inv(Recycle(c, a))
  {
    hide Hash, Hashed, Coherent, DirtyListed, Unique;
    var i := c.free[|c.free| - 1];
    RecycleLists(c, a, i);
    RecycleHashed(c, a, i);
    RecycleUnique(c, a);
    hide Lru;
  }

  lemma BwriteFree(c: Cache, i: nat, q: seq<nat>)
    requires i < |c.bufs|
    ensures Bwrite(c.(free := q), i) == Bwrite(c, i).(free := q)
    ensures Bwrite(c, i).free == c.free
  {
    hide Remove;
    var b := c.bufs[i];
    if b.dirty {
      var clean := c.bufs[i := b.(dirty := false)];
      var w := clean[i := clean[i].(valid := true)];
      var c1 := c.(disk := c.disk[b.addr := b.data]);
      assert Bdirty(c1, i, false) == c1.(bufs := clean, dirtyList := Remove(c.dirtyList, i));
      assert Bwrite(c, i) == c1.(bufs := w, dirtyList := Remove(c.dirtyList, i));
      var f1 := c.(free := q).(disk := c.disk[b.addr := b.data]);
      assert Bdirty(f1, i, false) == f1.(bufs := clean, dirtyList := Remove(c.dirtyList, i));
      assert Bwrite(c.(free := q), i) == f1.(bufs := w, dirtyList := Remove(c.dirtyList, i));
    }
  }

  lemma EvictThenInsert(w: Cache, i: nat, a: Addr, q: seq<nat>)
    requires w.free != [] && Below(w.free, |w.bufs|) && i == w.free[|w.free| - 1] && q == w.free[..|w.free| - 1]
    ensures var d := HashRemove(w.(free := q), i);
            var e := d.(bufs := d.bufs[i := d.bufs[i].(valid := false, dirty := false)]);
            HashInsert(e.(bufs := e.bufs[i := e.bufs[i].(count := 1, addr := a)]), i) == Recycle(w, a)
  {
    hide Hash, Remove;
    var d := HashRemove(w.(free := q), i);
    var e := d.(bufs := d.bufs[i := d.bufs[i].(valid := false, dirty := false)]);
    assert e.bufs[i := e.bufs[i].(count := 1, addr := a)] == w.bufs[i := Recycled(w.bufs[i], a)];
  }

  /** On a miss with all buffers made, getblk recycles the victim after writing it back. */
  lemma MissRecycles(c: Cache, a: Addr)
    requires Hashed(c) && Below(c.free, |c.bufs|) && |c.bufs| >= c.capacity && c.free != []
    requires forall i | 0 <= i < |c.bufs| :: c.bufs[i].addr != a
    ensures TableInRange(c)
    ensures var i := c.free[|c.free| - 1];
            && Bwrite(c, i).free == c.free
            && Getblk(c, a) == Some((Recycle(Bwrite(c, i), a), i))
  {
    hide Hash, Bwrite, HashRemove, HashInsert, Recycle;
    ScanExact(c, a);
    var i, q := c.free[|c.free| - 1], c.free[..|c.free| - 1];
    BwriteFree(c, i, q);
    EvictThenInsert(Bwrite(c, i), i, a, q);
  }

  lemma LruBelow(c: Cache)
    requires Lru(c)
    ensures Below(c.free, |c.bufs|)
  {
  }

  lemma MissMakes(c: Cache, a: Addr)
    requires Hashed(c) && Below(c.free, |c.bufs|) && |c.bufs| < c.capacity
    requires forall i | 0 <= i < |c.bufs| :: c.bufs[i].addr != a
    ensures TableInRange(c)
    ensures Getblk(c, a)
            == Some((HashInsert(c.(bufs := c.bufs + [NEW_BUF.(count := 1, addr := a)]), |c.bufs|), |c.bufs|))
  {
    hide Hash, HashInsert;
    ScanExact(c, a);
    assert (c.bufs + [NEW_BUF])[|c.bufs| := NEW_BUF.(count := 1, addr := a)]
           == c.bufs + [NEW_BUF.(count := 1, addr := a)];
  }

  /** getblk returns the one buffer of the block, in use, and keeps all the rest. */
  lemma GetblkInv(c: Cache, a: Addr)
    requires Inv(c)
    ensures TableInRange(c) && Below(c.free, |c.bufs|)
    ensures Getblk(c, a).Some? ==>
              var (d, i) := Getblk(c, a).value;
              Inv(d) && i < |d.bufs| && d.bufs[i].addr == a && d.bufs[i].count > 0
    ensures Getblk(c, a).None? <==>
              && |c.bufs| == c.capacity && (forall i | 0 <= i < |c.bufs| :: c.bufs[i].count > 0)
              && forall i | 0 <= i < |c.bufs| :: c.bufs[i].addr != a
  {
    hide Hash, Hashed, Coherent, DirtyListed, Unique, Remove;
    ScanExact(c, a);
    LruBelow(c);
    match Scan(c.bufs, Bucket(c, Hash(a, c.mask)), a)
    case Some(i) =>
      HitInv(c, i);
    case None =>
      if |c.bufs| < c.capacity {
        MissMakes(c, a);
        NewBufInv(c, a);
      } else if c.free != [] {
        var i := c.free[|c.free| - 1];
        assert c.free[|c.free| - 1] in c.free;
        MissRecycles(c, a);
        BwriteInv(c, i);
        BwriteAddrs(c, i);
        RecycleInv(Bwrite(c, i), a);
      }
  }

  lemma BwriteAddrs(c: Cache, i: nat)
    requires i < |c.bufs|
    ensures Bwrite(c, i).free == c.free && forall j | 0 <= j < |c.bufs| :: Bwrite(c, i).bufs[j].addr == c.bufs[j].addr
  {
  }
}
