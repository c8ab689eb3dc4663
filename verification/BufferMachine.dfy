/** Every sequence of calls to the buffer cache behaves like the plain disk. */
module BufferMachine {
  import opened Prelude
  import opened BufferCache
  import opened BufferProofs

  datatype Event =
    | Get(a: Addr)
    | Read(a: Addr)
    | Write(i: nat, data: Block, direct: bool)
    | WriteBack(i: nat)
    | Release(i: nat)
    | Sync

  /** Clients use buffers they hold, and write into buffers that bread filled. */
  predicate Legal(c: Cache, e: Event) {
    match e
    case Write(i, _, _) => i < |c.bufs| && c.bufs[i].count > 0 && c.bufs[i].valid
    case WriteBack(i) => i < |c.bufs| && c.bufs[i].count > 0
    case Release(i) => i < |c.bufs| && c.bufs[i].count > 0
    case _ => true
  }

  /** bread */
  function Bread(c: Cache, a: Addr): (r: Option<(Cache, nat)>)
    requires TableInRange(c) && Below(c.free, |c.bufs|)
  {
    match Getblk(c, a)
    case None => None
    case Some((d, i)) => if i < |d.bufs| then Some((Load(d, i), i)) else None
  }

  predicate InRange(c: Cache) {
    TableInRange(c) && Below(c.free, |c.bufs|) && Below(c.dirtyList, |c.bufs|)
  }

  /** None while the caller waits for a buffer. */
  function Step(c: Cache, e: Event): Option<Cache>
    requires Legal(c, e) && InRange(c)
  {
    match e
    case Get(a) => var r := Getblk(c, a); if r.None? then None else Some(r.value.0)
    case Read(a) => var r := Bread(c, a); if r.None? then None else Some(r.value.0)
    case Write(i, data, direct) => Some(Store(c, i, data, direct))
    case WriteBack(i) => Some(Bwrite(c, i))
    case Release(i) => Some(Brelse(c, i))
    case Sync => Some(Bsync(c))
  }

  lemma InvInRange(c: Cache)
    requires Inv(c)
    ensures InRange(c)
  {
    hide Hash;
    assert forall k | k in c.table :: BucketOk(c, k, c.table[k]);
  }

  /** bread returns the block's only buffer, holding what was last stored there. */
  lemma BreadReturnsPlain(c: Cache, a: Addr)
    requires Inv(c)
    ensures InRange(c)
    ensures Bread(c, a).Some? ==>
              var (d, i) := Bread(c, a).value;
              && Inv(d) && i < |d.bufs| && d.bufs[i].addr == a && d.bufs[i].count > 0
              && d.bufs[i].valid && d.bufs[i].data == At(d.plain, a)
    ensures Bread(c, a).None? <==> Getblk(c, a).None?
  {
    hide Inv;
    InvInRange(c);
    GetblkInv(c, a);
    if Getblk(c, a).Some? {
      var (d, i) := Getblk(c, a).value;
      LoadInv(d, i);
    }
  }

  lemma {:induction false} FlushEffect(c: Cache, todo: seq<nat>)
    requires Inv(c) && Below(todo, |c.bufs|)
    ensures var r := Flush(c, todo);
            && Inv(r) && r.plain == c.plain
            && (forall x | x in r.dirtyList :: x in c.dirtyList)
            && (forall i | 0 <= i < |c.bufs| :: r.bufs[i].addr == c.bufs[i].addr && r.bufs[i].count == c.bufs[i].count)
            && (forall i | 0 <= i < |c.bufs| :: r.bufs[i].dirty <==> c.bufs[i].dirty && i !in todo)
    decreases |todo|
  {
    hide Inv, Bwrite;
    if todo != [] {
      var w := Bwrite(c, todo[0]);
      BwriteInv(c, todo[0]);
      BwriteEffect(c, todo[0]);
      FlushEffect(w, todo[1..]);
    }
  }

  lemma BwriteEffect(c: Cache, i: nat)
    requires Inv(c) && i < |c.bufs|
    ensures var r := Bwrite(c, i);
            && r.plain == c.plain && (forall x | x in r.dirtyList :: x in c.dirtyList)
            && (forall j | 0 <= j < |c.bufs| :: r.bufs[j].addr == c.bufs[j].addr && r.bufs[j].count == c.bufs[j].count)
            && (forall j | 0 <= j < |c.bufs| :: r.bufs[j].dirty <==> c.bufs[j].dirty && j != i)
  {
    hide Remove, Hashed, Coherent;
    RemoveMembers(c.dirtyList, i);
  }

  lemma NoneListed(c: Cache, r: Cache)
    requires DirtyListed(r) && |r.bufs| == |c.bufs| && forall x | x in r.dirtyList :: x in c.dirtyList
    requires forall i | 0 <= i < |r.bufs| :: r.bufs[i].dirty ==> i !in c.dirtyList
    ensures r.dirtyList == []
  {
    var first := if r.dirtyList == [] then 0 else r.dirtyList[0];
    assert r.dirtyList != [] ==> first in r.dirtyList;
  }

  /** After bsync no marked buffer is dirty, so the disk lacks only what was marked directly. */
  lemma SyncEffect(c: Cache)
    requires Inv(c)
    ensures InRange(c)
    ensures var r := Bsync(c);
            && Inv(r) && r.plain == c.plain && r.dirtyList == []
            && forall a :: At(r.disk, a) == At(c.plain, a)
                 || exists i :: 0 <= i < |c.bufs| && c.bufs[i].dirty && i !in c.dirtyList && c.bufs[i].addr == a
  {
    InvInRange(c);
    FlushEffect(c, c.dirtyList);
    var r := Bsync(c);
    NoneListed(c, r);
    hide Hashed, Lru, DirtyListed, Unique, Bsync;
    forall a
      ensures At(r.disk, a) == At(c.plain, a)
           || exists i :: 0 <= i < |c.bufs| && c.bufs[i].dirty && i !in c.dirtyList && c.bufs[i].addr == a
    {
      if At(r.disk, a) != At(r.plain, a) {
        var i :| 0 <= i < |r.bufs| && r.bufs[i].dirty && r.bufs[i].addr == a;
        assert c.bufs[i].dirty && i !in c.dirtyList && c.bufs[i].addr == a;
      }
    }
  }

  lemma StepInv(c: Cache, e: Event)
    requires Inv(c) && Legal(c, e)
    ensures InRange(c) && (Step(c, e).Some? ==> Inv(Step(c, e).value))
  {
    hide Inv, Getblk, Bread, Store, Bwrite, Brelse, Bsync, InRange;
    InvInRange(c);
    match e
    case Get(a) => GetblkInv(c, a);
    case Read(a) => BreadReturnsPlain(c, a);
    case Write(i, data, direct) => StoreInv(c, i, data, direct);
    case WriteBack(i) => BwriteInv(c, i);
    case Release(i) => BrelseInv(c, i);
    case Sync => SyncEffect(c);
  }

  // Runs.

  function Start(capacity: nat, mask: bv32, disk: map<Addr, Block>): Cache {
    Cache(capacity, mask, [], map[], [], [], disk, disk, 0)
  }

  /** None when a client breaks its part or has to wait. */
  function Run(c: Cache, es: seq<Event>): Option<Cache>
    decreases |es|
  {
    if es == [] then Some(c)
    else if !InRange(c) || !Legal(c, es[0]) then None
    else match Step(c, es[0])
      case None => None
      case Some(d) => Run(d, es[1..])
  }

  /** What the clients stored in a run, and where. */
  function Log(c: Cache, es: seq<Event>): seq<(Addr, Block)>
    decreases |es|
  {
    if es == [] || !InRange(c) || !Legal(c, es[0]) then []
    else match Step(c, es[0])
      case None => []
      case Some(d) => (if es[0].Write? then [(c.bufs[es[0].i].addr, es[0].data)] else []) + Log(d, es[1..])
  }

  /** The block a log leaves at `a` on a disk. */
  function LastStored(disk: map<Addr, Block>, log: seq<(Addr, Block)>, a: Addr): Block
    decreases |log|
  {
    if log == [] then At(disk, a) else LastStored(disk[log[0].0 := log[0].1], log[1..], a)
  }

  lemma GetFreePlain(c: Cache)
    requires Below(c.free, |c.bufs|) && GetFree(c).Some?
    ensures GetFree(c).value.0.plain == c.plain
  {
    hide Hash, Remove, At;
  }

  lemma GetblkPlain(c: Cache, a: Addr)
    requires InRange(c) && Getblk(c, a).Some?
    ensures Getblk(c, a).value.0.plain == c.plain
  {
    hide Hash, Scan, Remove, GetFree, Bucket;
    if GetFree(c).Some? {
      GetFreePlain(c);
    }
  }

  lemma {:induction false} FlushPlain(c: Cache, todo: seq<nat>)
    requires Below(todo, |c.bufs|)
    ensures Flush(c, todo).plain == c.plain
    decreases |todo|
  {
    if todo != [] {
      FlushPlain(Bwrite(c, todo[0]), todo[1..]);
    }
  }

  lemma StepPlain(c: Cache, e: Event)
    requires InRange(c) && Legal(c, e) && Step(c, e).Some?
    ensures Step(c, e).value.plain == if e.Write? then c.plain[c.bufs[e.i].addr := e.data] else c.plain
  {
    hide Getblk, Hash;
    match e
    case Get(a) => GetblkPlain(c, a);
    case Read(a) => GetblkPlain(c, a);
    case Sync => FlushPlain(c, c.dirtyList);
    case _ =>
  }

  lemma {:induction false} RunPlain(c: Cache, es: seq<Event>, a: Addr)
    requires Inv(c) && Run(c, es).Some?
    ensures Inv(Run(c, es).value) && At(Run(c, es).value.plain, a) == LastStored(c.plain, Log(c, es), a)
    decreases |es|
  {
    hide Inv, Step, Legal, InRange;
    if es != [] {
      StepInv(c, es[0]);
      StepPlain(c, es[0]);
      var d := Step(c, es[0]).value;
      RunPlain(d, es[1..], a);
      if es[0].Write? {
        assert Log(c, es)[1..] == Log(d, es[1..]);
      } else {
        assert Log(c, es) == Log(d, es[1..]);
      }
    }
  }

  lemma StartInv(capacity: nat, mask: bv32, disk: map<Addr, Block>)
    ensures Inv(Start(capacity, mask, disk))
  {
    hide Hash;
  }

  /**
   * After any run, with evictions, write-backs and syncs wherever they happen to
   * fall, bread gives what was last stored in the block, or what the disk held.
   */
  lemma ReadsLastStored(capacity: nat, mask: bv32, disk: map<Addr, Block>, es: seq<Event>, a: Addr)
    requires Run(Start(capacity, mask, disk), es).Some?
    ensures var c := Run(Start(capacity, mask, disk), es).value;
            && InRange(c)
            && (Bread(c, a).Some? ==>
                  var (d, i) := Bread(c, a).value;
                  && i < |d.bufs| && d.bufs[i].addr == a && d.bufs[i].valid
                  && d.bufs[i].data == LastStored(disk, Log(Start(capacity, mask, disk), es), a))
  {
    var c0 := Start(capacity, mask, disk);
    StartInv(capacity, mask, disk);
    hide Inv, Run, Log, Bread, Getblk;
    RunPlain(c0, es, a);
    var c := Run(c0, es).value;
    BreadReturnsPlain(c, a);
    if Bread(c, a).Some? {
      BreadPlain(c, a);
    }
  }

  lemma BreadPlain(c: Cache, a: Addr)
    requires InRange(c) && Bread(c, a).Some?
    ensures Bread(c, a).value.0.plain == c.plain
  {
    hide Getblk;
    GetblkPlain(c, a);
  }

  // Buffers in use, and the order of reuse.

  predicate Same(b: Buf, d: Buf) {
    d.addr == b.addr && d.count >= b.count && (b.valid ==> d.valid && d.data == b.data)
  }

  lemma BwriteSame(c: Cache, i: nat, j: nat)
    requires i < |c.bufs| && j < |c.bufs|
    ensures Same(c.bufs[j], Bwrite(c, i).bufs[j])
  {
    hide Remove;
  }

  lemma {:induction false} FlushSame(c: Cache, todo: seq<nat>, j: nat)
    requires Below(todo, |c.bufs|) && j < |c.bufs|
    ensures Same(c.bufs[j], Flush(c, todo).bufs[j])
    decreases |todo|
  {
    hide Bwrite;
    if todo != [] {
      BwriteSame(c, todo[0], j);
      FlushSame(Bwrite(c, todo[0]), todo[1..], j);
    }
  }

  lemma HitSame(c: Cache, a: Addr, j: nat)
    requires InRange(c) && j < |c.bufs| && Scan(c.bufs, Bucket(c, Hash(a, c.mask)), a).Some?
    ensures Getblk(c, a).Some?
    ensures var (d, i) := Getblk(c, a).value; j < |d.bufs| && Same(c.bufs[j], d.bufs[j])
  {
    hide Hash, Remove, GetFree, HashInsert, Bucket, Scan;
  }

  lemma MissSame(c: Cache, a: Addr, j: nat)
    requires InRange(c) && Hashed(c) && Lru(c) && j < |c.bufs| && c.bufs[j].count > 0
    requires forall i | 0 <= i < |c.bufs| :: c.bufs[i].addr != a
    requires |c.bufs| < c.capacity || c.free != []
    ensures Getblk(c, a).Some?
    ensures var (d, i) := Getblk(c, a).value; j < |d.bufs| && Same(c.bufs[j], d.bufs[j])
  {
    hide Hash, Hashed, Remove, Recycle, Bwrite, Getblk;
    if |c.bufs| < c.capacity {
      MissMakes(c, a);
    } else {
      MissRecycles(c, a);
      var i := c.free[|c.free| - 1];
      assert i in c.free;
      BwriteSame(c, i, j);
      BwriteFree(c, i, c.free);
      RecycleOthers(Bwrite(c, i), a, j);
    }
  }

  lemma GetblkSame(c: Cache, a: Addr, j: nat)
    requires Inv(c) && j < |c.bufs| && c.bufs[j].count > 0
    ensures InRange(c)
    ensures Getblk(c, a).Some? ==>
              var (d, i) := Getblk(c, a).value; j < |d.bufs| && Same(c.bufs[j], d.bufs[j])
  {
    InvInRange(c);
    GetblkInv(c, a);
    ScanExact(c, a);
    hide Hash, Hashed, Coherent, DirtyListed, Unique, Getblk, Scan, Bucket, Same;
    if Scan(c.bufs, Bucket(c, Hash(a, c.mask)), a).Some? {
      HitSame(c, a, j);
    } else if |c.bufs| < c.capacity || c.free != [] {
      MissSame(c, a, j);
    }
  }

  lemma RecycleOthers(c: Cache, a: Addr, j: nat)
    requires c.free != [] && Below(c.free, |c.bufs|) && j < |c.bufs| && j != c.free[|c.free| - 1]
    ensures j < |Recycle(c, a).bufs| && Recycle(c, a).bufs[j] == c.bufs[j]
  {
    hide Hash, Remove;
  }

  /** A buffer some client holds keeps its block and, but for its own writes, its contents. */
  lemma HeldStays(c: Cache, e: Event, j: nat)
    requires Inv(c) && Legal(c, e) && j < |c.bufs| && c.bufs[j].count > 0
    ensures InRange(c)
    ensures Step(c, e).Some? && !(e.Release? && e.i == j) && !(e.Write? && e.i == j) ==>
              j < |Step(c, e).value.bufs| && Same(c.bufs[j], Step(c, e).value.bufs[j])
  {
    hide Inv, Getblk, Bwrite, Bsync;
    InvInRange(c);
    match e
    case Get(a) => GetblkSame(c, a, j);
    case Read(a) => GetblkSame(c, a, j); GetblkInv(c, a);
    case Write(i, data, direct) =>
    case WriteBack(i) => BwriteSame(c, i, j);
    case Release(i) =>
    case Sync => SyncSame(c, j);
  }

  lemma SyncSame(c: Cache, j: nat)
    requires Below(c.dirtyList, |c.bufs|) && j < |c.bufs|
    ensures |Bsync(c).bufs| == |c.bufs| && Same(c.bufs[j], Bsync(c).bufs[j])
  {
    FlushSame(c, c.dirtyList, j);
  }

  /** The buffer that is recycled is the one whose last release lies furthest back. */
  lemma VictimIsOldest(c: Cache, j: nat)
    requires Inv(c) && |c.bufs| == c.capacity && GetFree.requires(c) && GetFree(c).Some?
    requires j < |c.bufs| && c.bufs[j].count == 0
    ensures var i := GetFree(c).value.1;
            i < |c.bufs| && c.bufs[i].count == 0 && c.bufs[i].released <= c.bufs[j].released
  {
    hide Hash, Hashed, Coherent, DirtyListed, Unique, Remove, Bwrite, HashRemove;
    var i := c.free[|c.free| - 1];
    assert i in c.free && j in c.free;
  }

  // Clients that mark their writes with bdirty.

  predicate Marked(c: Cache) {
    forall i | 0 <= i < |c.bufs| && c.bufs[i].dirty :: i in c.dirtyList
  }

  lemma BwriteMarked(c: Cache, i: nat)
    requires Marked(c) && DirtyListed(c) && i < |c.bufs|
    ensures Marked(Bwrite(c, i))
  {
    hide Remove;
    RemoveMembers(c.dirtyList, i);
  }

  lemma {:induction false} FlushMarked(c: Cache, todo: seq<nat>)
    requires Inv(c) && Marked(c) && Below(todo, |c.bufs|)
    ensures Marked(Flush(c, todo))
    decreases |todo|
  {
    hide Bwrite;
    if todo != [] {
      BwriteMarked(c, todo[0]);
      BwriteInv(c, todo[0]);
      FlushMarked(Bwrite(c, todo[0]), todo[1..]);
    }
  }

  lemma RecycleMarked(c: Cache, a: Addr)
    requires Marked(c) && c.free != [] && Below(c.free, |c.bufs|)
    ensures Marked(Recycle(c, a))
  {
    hide Hash, Remove;
  }

  lemma HitMarked(c: Cache, a: Addr)
    requires InRange(c) && Marked(c) && Scan(c.bufs, Bucket(c, Hash(a, c.mask)), a).Some?
    ensures Getblk(c, a).Some? && Marked(Getblk(c, a).value.0)
  {
    hide Hash, Remove, GetFree, HashInsert, Bucket, Scan;
  }

  lemma MissMarked(c: Cache, a: Addr)
    requires InRange(c) && Hashed(c) && DirtyListed(c) && Marked(c) && Below(c.free, |c.bufs|)
    requires forall i | 0 <= i < |c.bufs| :: c.bufs[i].addr != a
    requires |c.bufs| < c.capacity || c.free != []
    ensures Getblk(c, a).Some? && Marked(Getblk(c, a).value.0)
  {
    hide Hash, Hashed, Remove, Recycle, Bwrite, Getblk, DirtyListed;
    if |c.bufs| < c.capacity {
      MissMakes(c, a);
    } else {
      MissRecycles(c, a);
      var i := c.free[|c.free| - 1];
      BwriteMarked(c, i);
      RecycleMarked(Bwrite(c, i), a);
    }
  }

  lemma GetblkMarked(c: Cache, a: Addr)
    requires Inv(c) && Marked(c)
    ensures InRange(c) && (Getblk(c, a).Some? ==> Marked(Getblk(c, a).value.0))
  {
    InvInRange(c);
    GetblkInv(c, a);
    ScanExact(c, a);
    hide Hash, Hashed, Coherent, DirtyListed, Unique, Getblk, Scan, Bucket, Marked;
    if Scan(c.bufs, Bucket(c, Hash(a, c.mask)), a).Some? {
      HitMarked(c, a);
    } else if |c.bufs| < c.capacity || c.free != [] {
      MissMarked(c, a);
    }
  }

  lemma StepMarked(c: Cache, e: Event)
    requires Inv(c) && Marked(c) && Legal(c, e) && (e.Write? ==> !e.direct)
    ensures InRange(c) && (Step(c, e).Some? ==> Marked(Step(c, e).value))
  {
    hide Getblk, Bwrite, Hash, Hashed, Coherent, Unique, NoDup, Lru;
    InvInRange(c);
    match e
    case Get(a) => GetblkMarked(c, a);
    case Read(a) => GetblkMarked(c, a);
    case WriteBack(i) => BwriteMarked(c, i);
    case Sync => FlushMarked(c, c.dirtyList);
    case _ =>
  }

  lemma {:induction false} RunMarked(c: Cache, es: seq<Event>)
    requires Inv(c) && Marked(c) && Run(c, es).Some? && forall e | e in es :: e.Write? ==> !e.direct
    ensures Inv(Run(c, es).value) && Marked(Run(c, es).value)
    decreases |es|
  {
    hide Inv, Step, Legal, InRange, Marked;
    if es != [] {
      assert es[0] in es;
      StepInv(c, es[0]);
      StepMarked(c, es[0]);
      RunMarked(Step(c, es[0]).value, es[1..]);
    }
  }

  /** For such clients bsync leaves every block on the disk as it was last stored. */
  lemma SyncedDisk(capacity: nat, mask: bv32, disk: map<Addr, Block>, es: seq<Event>, a: Addr)
    requires Run(Start(capacity, mask, disk), es).Some? && forall e | e in es :: e.Write? ==> !e.direct
    ensures var c := Run(Start(capacity, mask, disk), es).value;
            InRange(c) && At(Bsync(c).disk, a) == LastStored(disk, Log(Start(capacity, mask, disk), es), a)
  {
    var c0 := Start(capacity, mask, disk);
    StartInv(capacity, mask, disk);
    assert Marked(c0);
    hide Inv, Run, Log, Bsync;
    RunPlain(c0, es, a);
    RunMarked(c0, es);
    SyncEffect(Run(c0, es).value);
  }

  // Clients that set the flag themselves.

  lemma {:induction false} FlushElsewhere(c: Cache, todo: seq<nat>, a: Addr)
    requires Below(todo, |c.bufs|) && forall p | 0 <= p < |todo| :: c.bufs[todo[p]].addr != a
    ensures At(Flush(c, todo).disk, a) == At(c.disk, a)
    decreases |todo|
  {
    if todo != [] {
      var w := Bwrite(c, todo[0]);
      BwriteAddrs(c, todo[0]);
      assert At(w.disk, a) == At(c.disk, a);
      hide Bwrite, At;
      FlushElsewhere(w, todo[1..], a);
    }
  }

  /** The block has a buffer with news that is not on the dirty list. */
  ghost predicate Unlisted(c: Cache, a: Addr) {
    exists i :: 0 <= i < |c.bufs| && Stale(c, i, a)
  }

  predicate Stale(c: Cache, i: nat, a: Addr)
    requires i < |c.bufs|
  {
    c.bufs[i].addr == a && c.bufs[i].dirty && i !in c.dirtyList && c.bufs[i].data != At(c.disk, a)
  }

  lemma UnlistedStays(c: Cache, i: nat)
    requires Inv(c) && i < |c.bufs| && c.bufs[i].dirty && i !in c.dirtyList
    ensures InRange(c) && At(Bsync(c).disk, c.bufs[i].addr) == At(c.disk, c.bufs[i].addr)
    ensures c.bufs[i].data == At(c.plain, c.bufs[i].addr)
  {
    InvInRange(c);
    hide Hash, Hashed, Lru;
    forall p | 0 <= p < |c.dirtyList|
      ensures c.bufs[c.dirtyList[p]].addr != c.bufs[i].addr
    {
      assert c.dirtyList[p] in c.dirtyList;
    }
    FlushElsewhere(c, c.dirtyList, c.bufs[i].addr);
  }

  /** bsync brings a block up to date exactly when it has no such buffer. */
  lemma SyncExactly(c: Cache, a: Addr)
    requires Inv(c)
    ensures InRange(c) && (At(Bsync(c).disk, a) == At(c.plain, a) <==> !Unlisted(c, a))
  {
    SyncEffect(c);
    hide Hashed, Lru, DirtyListed, Unique, Bsync, Coherent;
    forall i | 0 <= i < |c.bufs| && c.bufs[i].addr == a && c.bufs[i].dirty && i !in c.dirtyList
      ensures At(Bsync(c).disk, a) == At(c.disk, a) && c.bufs[i].data == At(c.plain, a)
    {
      UnlistedStays(c, i);
    }
    if At(Bsync(c).disk, a) != At(c.plain, a) {
      var i :| 0 <= i < |c.bufs| && c.bufs[i].dirty && i !in c.dirtyList && c.bufs[i].addr == a;
      assert Stale(c, i, a);
    }
  }

  /** So a write into a clean buffer that sets the flag directly is missed by the next bsync. */
  lemma DirectMissed(c: Cache, i: nat, data: Block)
    requires Inv(c) && Legal(c, Write(i, data, true)) && !c.bufs[i].dirty && data != At(c.disk, c.bufs[i].addr)
    ensures var d := Store(c, i, data, true);
            InRange(d) && At(Bsync(d).disk, c.bufs[i].addr) != data == At(d.plain, c.bufs[i].addr)
  {
    var d := Store(c, i, data, true);
    StoreInv(c, i, data, true);
    assert i !in c.dirtyList;
    assert Stale(d, i, c.bufs[i].addr);
    SyncExactly(d, c.bufs[i].addr);
  }

  // Clients that always set the flag directly.

  lemma GetblkUnlisted(c: Cache, a: Addr)
    requires InRange(c) && Getblk(c, a).Some? && c.dirtyList == []
    ensures Getblk(c, a).value.0.dirtyList == []
  {
    hide Hash, Scan, Bucket, At;
  }

  lemma StepUnlisted(c: Cache, e: Event)
    requires InRange(c) && Legal(c, e) && Step(c, e).Some? && c.dirtyList == [] && (e.Write? ==> e.direct)
    ensures Step(c, e).value.dirtyList == []
  {
    hide Getblk, Hash, At;
    match e
    case Get(a) => GetblkUnlisted(c, a);
    case Read(a) => GetblkUnlisted(c, a);
    case _ =>
  }

  lemma {:induction false} RunUnlisted(c: Cache, es: seq<Event>)
    requires Run(c, es).Some? && c.dirtyList == [] && forall e | e in es :: e.Write? ==> e.direct
    ensures Run(c, es).value.dirtyList == []
    decreases |es|
  {
    hide Step, Legal, InRange;
    if es != [] {
      assert es[0] in es;
      StepUnlisted(c, es[0]);
      RunUnlisted(Step(c, es[0]).value, es[1..]);
    }
  }

  /** For them bsync never does anything, whatever was stored. */
  lemma SyncIdle(capacity: nat, mask: bv32, disk: map<Addr, Block>, es: seq<Event>)
    requires Run(Start(capacity, mask, disk), es).Some? && forall e | e in es :: e.Write? ==> e.direct
    ensures var c := Run(Start(capacity, mask, disk), es).value; InRange(c) && Bsync(c) == c
  {
    hide Run;
    RunUnlisted(Start(capacity, mask, disk), es);
    StartInv(capacity, mask, disk);
    RunPlain(Start(capacity, mask, disk), es, Addr(0, 0));
    InvInRange(Run(Start(capacity, mask, disk), es).value);
  }
}
