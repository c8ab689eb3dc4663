/**
 * minix_bmap, minix_read and minix_write working on buffers: tables and blocks
 * are what bread returns, and they change by writing into the buffer, setting
 * its flag and releasing it.
 */
module MinixMount {
  import opened Prelude
  import opened MinixFs
  import opened MinixProofs
  import opened MinixFiles
  import opened MinixCached
  import MinixRuns
  import Bitmap
  import Cache = BufferCache
  import Proofs = BufferProofs
  import Machine = BufferMachine

  /** Zone z has the address `addrs[z]`; `puts` are the stores made so far. */
  datatype Mount = Mount(
    zmap: seq<bool>,
    first: nat,
    inodes: map<nat, Inode>,
    owner: map<nat, (nat, seq<nat>)>,
    addrs: seq<Cache.Addr>,
    cache: Cache.Cache,
    puts: seq<Put>)

  /** Without the cache every zone would hold a block. */
  predicate Sized(m: Mount) {
    forall z | 0 <= z < |m.addrs| :: |Cache.At(m.cache.plain, m.addrs[z])| == BLOCK_SIZE
  }

  /** The file system on the disk that the cache stands for. */
  function Plain(m: Mount): (fs: Fs)
    requires Sized(m)
    ensures |fs.zones| == |m.addrs| && fs.inodes == m.inodes
  {
    Fs(seq<Block>(|m.addrs|, z requires 0 <= z < |m.addrs| => Cache.At(m.cache.plain, m.addrs[z])),
       m.zmap, m.first, m.inodes, m.owner)
  }

  /** Some buffer is not held. */
  predicate Room(c: Cache.Cache) {
    |c.bufs| < c.capacity || c.free != []
  }

  ghost predicate Mounted(m: Mount) {
    Cache.Inv(m.cache) && NoDup(m.addrs) && Sized(m)
  }

  ghost predicate Ready(m: Mount) {
    Mounted(m) && Room(m.cache)
  }

  // bread, and brelse with or without a change in between.

  /** None while the caller waits. */
  function Open(m: Mount, z: nat): (r: Option<(Cache.Cache, nat)>)
    ensures r.Some? ==>
              var (d, i) := r.value;
              i < |d.bufs| && d.bufs[i].count > 0 && |d.bufs[i].data| == BLOCK_SIZE
  {
    if z >= |m.addrs| || !Machine.InRange(m.cache) then None
    else match Machine.Bread(m.cache, m.addrs[z])
      case None => None
      case Some((d, i)) =>
        if i < |d.bufs| && d.bufs[i].count > 0 && |d.bufs[i].data| == BLOCK_SIZE then Some((d, i)) else None
  }

  function Close(m: Mount, d: Cache.Cache, i: nat): Mount
    requires i < |d.bufs| && d.bufs[i].count > 0
  {
    m.(cache := Cache.Brelse(d, i))
  }

  /** The buffer's flag is set directly. */
  function Save(m: Mount, z: nat, d: Cache.Cache, i: nat, b: Block): Mount
    requires i < |d.bufs| && d.bufs[i].count > 0
  {
    m.(cache := Cache.Brelse(Cache.Store(d, i, b, true), i), puts := m.puts + [Put(z, b)])
  }

  /** What Open gave. */
  ghost predicate Opened(m: Mount, z: nat, d: Cache.Cache, i: nat) {
    && z < |m.addrs| && Sized(m) && Cache.Inv(d) && d.plain == m.cache.plain
    && i < |d.bufs| && d.bufs[i].count > 0 && d.bufs[i].addr == m.addrs[z] && d.bufs[i].valid
    && d.bufs[i].data == Plain(m).zones[z]
    && (d.bufs[i].count > 1 ==> Room(d))
    && (m.cache.dirtyList == [] ==> d.dirtyList == [])
  }

  lemma GetblkRoom(c: Cache.Cache, a: Cache.Addr)
    requires Machine.InRange(c) && Room(c)
    ensures Cache.Getblk(c, a).Some?
    ensures var (d, i) := Cache.Getblk(c, a).value; i < |d.bufs| && (d.bufs[i].count > 1 ==> Room(d))
  {
    hide Cache.Hash, Cache.HashRemove, Cache.Bwrite, Cache.Remove;
  }

  lemma OpenWorks(m: Mount, z: nat)
    requires Ready(m) && z < |m.addrs|
    ensures Open(m, z).Some? && Opened(m, z, Open(m, z).value.0, Open(m, z).value.1)
  {
    var c, a := m.cache, m.addrs[z];
    Machine.InvInRange(c);
    Machine.BreadReturnsPlain(c, a);
    GetblkRoom(c, a);
    Machine.BreadPlain(c, a);
    if c.dirtyList == [] {
      Machine.GetblkUnlisted(c, a);
    }
    hide Cache.Inv, Cache.Getblk, Machine.InRange;
  }

  lemma CloseReady(m: Mount, z: nat, d: Cache.Cache, i: nat)
    requires Mounted(m) && Opened(m, z, d, i)
    ensures Ready(Close(m, d, i)) && Plain(Close(m, d, i)) == Plain(m)
    ensures m.cache.dirtyList == [] ==> Close(m, d, i).cache.dirtyList == []
  {
    hide Cache.Inv, NoDup;
    Proofs.BrelseInv(d, i);
  }

  lemma SaveReady(m: Mount, z: nat, d: Cache.Cache, i: nat, b: Block)
    requires Mounted(m) && Opened(m, z, d, i)
    ensures Ready(Save(m, z, d, i, b)) && Plain(Save(m, z, d, i, b)) == Written(Plain(m), z, b)
    ensures m.cache.dirtyList == [] ==> Save(m, z, d, i, b).cache.dirtyList == []
  {
    hide Cache.Inv;
    Proofs.StoreInv(d, i, b, true);
    Proofs.BrelseInv(Cache.Store(d, i, b, true), i);
    var n := Save(m, z, d, i, b);
    assert n.cache.plain == m.cache.plain[m.addrs[z] := b];
    forall y | 0 <= y < |m.addrs|
      ensures Cache.At(n.cache.plain, m.addrs[y]) == if y == z then b else Cache.At(m.cache.plain, m.addrs[y])
    {
    }
    assert Plain(n).zones == Plain(m).zones[z := b];
  }

  // minix_bmap.

  /** The file system without its bytes, which is all minix_balloc looks at. */
  function Frame(m: Mount): Fs {
    Fs(seq<Block>(|m.addrs|, z => ZeroBlock()), m.zmap, m.first, m.inodes, m.owner)
  }

  /** Zone `n` goes to place `p` of file `ino`. */
  function Taken(m: Mount, ino: nat, p: seq<nat>, n: nat): Mount
    requires 0 <= n + 1 - m.first < |m.zmap|
  {
    m.(zmap := m.zmap[n + 1 - m.first := true], owner := m.owner[n := (ino, p)])
  }

  /** minix_balloc; the zone in sixteen bits. */
  function NewZoneOf(m: Mount): (r: Option<nat>)
    ensures r.Some? ==> r.value < 0x10000 && 0 <= r.value + 1 - m.first < |m.zmap|
  {
    match Balloc(Frame(m))
    case None => None
    case Some(n) => if n >= 0x10000 then None else Some(n)
  }

  /** The round of the loop that works on the inode. */
  function GrowInode(m: Mount, ino: nat, k: nat): (r: Option<(Mount, nat)>)
    requires ino in m.inodes && k < 9
    ensures r.Some? ==> ino in r.value.0.inodes
  {
    var z := m.inodes[ino].zone[k];
    if z != 0 then Some((m, z))
    else match NewZoneOf(m)
      case None => None
      case Some(n) =>
        Some((Taken(m, ino, [k], n).(inodes := m.inodes[ino := m.inodes[ino].(zone := m.inodes[ino].zone[k := n])]), n))
  }

  /** A round that works on the table in zone `z`. */
  function GrowTable(m: Mount, ino: nat, p: seq<nat>, z: nat): (r: Option<(Mount, nat)>)
    requires ino in m.inodes && ValidPath(p) && |p| > 1
    ensures r.Some? ==> ino in r.value.0.inodes
  {
    match Open(m, z)
    case None => None
    case Some((d, i)) =>
      var table: Block := d.bufs[i].data;
      var v := Entry(table, Last(p));
      if v != 0 then Some((Close(m, d, i), v))
      else match NewZoneOf(m)
        case None => None
        case Some(n) => Some((Save(Taken(m, ino, p, n), z, d, i, SetEntry(table, Last(p), n)), n))
  }

  /** minix_bmap with `create`: the mount and the zone at the end of the path. */
  function CreateThrough(m: Mount, ino: nat, p: seq<nat>): (r: Option<(Mount, nat)>)
    requires ino in m.inodes && ValidPath(p)
    ensures r.Some? ==> ino in r.value.0.inodes
    decreases |p|
  {
    if |p| == 1 then GrowInode(m, ino, p[0])
    else match CreateThrough(m, ino, Up(p))
      case None => None
      case Some((k, z)) => GrowTable(k, ino, p, z)
  }

  /** minix_bmap without `create`. */
  function BmapThrough(m: Mount, ino: nat, p: seq<nat>): (r: Option<(Mount, nat)>)
    requires ino in m.inodes && ValidPath(p)
    ensures r.Some? ==> ino in r.value.0.inodes
    decreases |p|
  {
    if |p| == 1 then Some((m, m.inodes[ino].zone[p[0]]))
    else match BmapThrough(m, ino, Up(p))
      case None => None
      case Some((k, z)) =>
        if z == 0 then Some((k, 0))
        else match Open(k, z)
          case None => None
          case Some((d, i)) => var table: Block := d.bufs[i].data; Some((Close(k, d, i), Entry(table, Last(p))))
  }

  /** The same file system with other contents: `n` comes of `m` by code that leaves the plain one as `fs`. */
  ghost predicate Became(m: Mount, n: Mount, fs: Fs, puts: seq<Put>) {
    && Ready(n) && n.addrs == m.addrs && Plain(n) == fs && n.puts == m.puts + puts
    && (m.cache.dirtyList == [] ==> n.cache.dirtyList == [])
  }

  lemma SameBalloc(m: Mount)
    requires Sized(m)
    ensures var b := Balloc(Plain(m)); NewZoneOf(m) == if b.Some? && b.value < 0x10000 then b else None
  {
    hide Bitmap.FirstFit;
  }

  lemma GrowInodeWorks(m: Mount, ino: nat, p: seq<nat>)
    requires Ready(m) && ino in m.inodes && ValidPath(p) && |p| == 1
    ensures var r, g := GrowInode(m, ino, p[0]), Grow(Plain(m), ino, p);
            && (r.Some? <==> g.Some?)
            && (r.Some? ==> Became(m, r.value.0, g.value, GrowPuts(Plain(m), ino, p)) && ino in g.value.inodes
                            && r.value.1 == At(g.value, ino, p))
  {
    hide Balloc, Cache.Inv, NoDup, NewZoneOf;
    SameBalloc(m);
    assert p == [p[0]];
    var r := GrowInode(m, ino, p[0]);
    if r.Some? {
      assert Plain(r.value.0).zones == Plain(m).zones;
      assert m.puts + [] == m.puts;
    }
  }

  /** One table of the walk: it leads to `z`, and its zone is `z`. */
  ghost predicate OnTable(m: Mount, ino: nat, p: seq<nat>, z: nat) {
    && Ready(m) && Wired(Plain(m)) && ino in m.inodes && ValidPath(p) && |p| > 1
    && z == At(Plain(m), ino, Up(p)) != 0
  }

  lemma TableEntry(m: Mount, ino: nat, p: seq<nat>, z: nat)
    requires OnTable(m, ino, p, z)
    ensures z < |m.addrs| && At(Plain(m), ino, p) == Entry(Plain(m).zones[z], Last(p))
    ensures Open(m, z).Some? && Opened(m, z, Open(m, z).value.0, Open(m, z).value.1)
  {
    AtBound(Plain(m), ino, Up(p));
    OpenWorks(m, z);
  }

  lemma GrowTableWorks(m: Mount, ino: nat, p: seq<nat>, z: nat)
    requires OnTable(m, ino, p, z)
    ensures var r, g := GrowTable(m, ino, p, z), Grow(Plain(m), ino, p);
            && (r.Some? <==> g.Some?)
            && (r.Some? ==> Became(m, r.value.0, g.value, GrowPuts(Plain(m), ino, p)) && ino in g.value.inodes
                            && r.value.1 == At(g.value, ino, p))
  {
    TableEntry(m, ino, p, z);
    SameBalloc(m);
    var (d, i) := Open(m, z).value;
    if At(Plain(m), ino, p) != 0 {
      KeepTable(m, ino, p, z, d, i);
    } else if NewZoneOf(m).Some? {
      FillTable(m, ino, p, z, d, i, NewZoneOf(m).value);
    }
    hide Wired, Balloc, NewZoneOf, Cache.Inv, NoDup, At, Entry, Became, GrowPuts, Taken, Save, Close, SetEntry, Plain,
         Sized;
  }

  lemma KeepTable(m: Mount, ino: nat, p: seq<nat>, z: nat, d: Cache.Cache, i: nat)
    requires OnTable(m, ino, p, z) && Opened(m, z, d, i) && At(Plain(m), ino, p) != 0
    ensures Grow(Plain(m), ino, p) == Some(Plain(m)) && Became(m, Close(m, d, i), Plain(m), GrowPuts(Plain(m), ino, p))
  {
    hide Wired, Balloc, NewZoneOf, Cache.Inv, NoDup, At, Entry;
    CloseReady(m, z, d, i);
    assert m.puts + [] == m.puts;
  }

  lemma FillTable(m: Mount, ino: nat, p: seq<nat>, z: nat, d: Cache.Cache, i: nat, n: nat)
    requires OnTable(m, ino, p, z) && z < |m.addrs| && Opened(m, z, d, i)
    requires At(Plain(m), ino, p) == 0 && Balloc(Plain(m)) == Some(n) && n < 0x10000 && 0 <= n + 1 - m.first < |m.zmap|
    ensures var k, fs := Save(Taken(m, ino, p, n), z, d, i, SetEntry(Plain(m).zones[z], Last(p), n)), Plain(m);
            && Grow(fs, ino, p).Some? && Became(m, k, Grow(fs, ino, p).value, GrowPuts(fs, ino, p))
            && ino in Grow(fs, ino, p).value.inodes && n == At(Grow(fs, ino, p).value, ino, p)
  {
    hide Wired, Balloc, Cache.Inv, NoDup, Entry, SetEntry, Grow, GrowPuts, At, Sized, Save, Taken, Became, Room;
    GrowInTable(Plain(m), ino, p, z, n);
    hide *;
    SaveTaken(m, ino, p, z, d, i, n, SetEntry(Plain(m).zones[z], Last(p), n));
  }

  lemma SaveTaken(m: Mount, ino: nat, p: seq<nat>, z: nat, d: Cache.Cache, i: nat, n: nat, b: Block)
    requires Mounted(m) && Opened(m, z, d, i) && 0 <= n + 1 - m.first < |m.zmap|
    ensures var k, fs := Save(Taken(m, ino, p, n), z, d, i, b), Plain(m);
            Became(m, k, fs.(zmap := fs.zmap[n + 1 - fs.first := true], owner := fs.owner[n := (ino, p)],
                             zones := fs.zones[z := b]), [Put(z, b)])
  {
    hide Cache.Inv, NoDup;
    var t := Taken(m, ino, p, n);
    assert Plain(t).zones == Plain(m).zones;
    hide Cache.Brelse, Cache.Store, Sized, Room;
    SaveReady(t, z, d, i, b);
  }

  /** On the plain disk: one entry of one table. */
  lemma GrowInTable(fs: Fs, ino: nat, p: seq<nat>, z: nat, n: nat)
    requires Wired(fs) && ino in fs.inodes && ValidPath(p) && |p| > 1 && 0 != z == At(fs, ino, Up(p)) && z < |fs.zones|
    requires At(fs, ino, p) == 0 && Balloc(fs) == Some(n) && n < 0x10000 && 0 <= n + 1 - fs.first < |fs.zmap|
    ensures var b := SetEntry(fs.zones[z], Last(p), n);
            && GrowPuts(fs, ino, p) == [Put(z, b)]
            && Grow(fs, ino, p) == Some(fs.(zmap := fs.zmap[n + 1 - fs.first := true], owner := fs.owner[n := (ino, p)],
                                            zones := fs.zones[z := b]))
            && At(Grow(fs, ino, p).value, ino, p) == n
  {
    hide Balloc, Entry, SetEntry, At, Sane, FreshZero, Owned, GrowPuts;
    TableGrown(fs, ino, p, z, n);
    GrownAt(fs, ino, p, n, ino, p);
  }

  lemma TableGrown(fs: Fs, ino: nat, p: seq<nat>, z: nat, n: nat)
    requires ino in fs.inodes && ValidPath(p) && |p| > 1 && 0 != z == At(fs, ino, Up(p)) && z < |fs.zones|
    requires At(fs, ino, p) == 0 && Balloc(fs) == Some(n) && n < 0x10000 && 0 <= n + 1 - fs.first < |fs.zmap|
    ensures var b := SetEntry(fs.zones[z], Last(p), n);
            && GrowPuts(fs, ino, p) == [Put(z, b)] && Grow(fs, ino, p) == Some(Grown(fs, ino, p, n))
            && Grown(fs, ino, p, n) == fs.(zmap := fs.zmap[n + 1 - fs.first := true], owner := fs.owner[n := (ino, p)],
                                           zones := fs.zones[z := b])
  {
    hide Balloc, Entry, SetEntry, At;
    var fs1 := fs.(zmap := fs.zmap[n + 1 - fs.first := true], owner := fs.owner[n := (ino, p)]);
    AtSameTables(fs, fs1, ino, Up(p));
  }

  lemma {:induction false} CreateThroughWorks(m: Mount, ino: nat, p: seq<nat>)
    requires Ready(m) && Wired(Plain(m)) && ino in m.inodes && ValidPath(p)
    ensures var r, g := CreateThrough(m, ino, p), Create(Plain(m), ino, p);
            && (r.Some? <==> g.Some?)
            && (r.Some? ==>
                  Became(m, r.value.0, g.value, CreatePuts(Plain(m), ino, p)) && r.value.1 == At(g.value, ino, p))
    decreases |p|
  {
    hide Wired, Grow, GrowInode, GrowTable, GrowPuts, At, Cache.Inv, Sized, NoDup, Room;
    if |p| == 1 {
      GrowInodeWorks(m, ino, p);
    } else {
      CreateThroughWorks(m, ino, Up(p));
      if Create(Plain(m), ino, Up(p)).Some? {
        CreateEffect(Plain(m), ino, Up(p));
        var (k, z) := CreateThrough(m, ino, Up(p)).value;
        GrowTableWorks(k, ino, p, z);
      }
    }
  }

  lemma {:induction false} BmapThroughWorks(m: Mount, ino: nat, p: seq<nat>)
    requires Ready(m) && Wired(Plain(m)) && ino in m.inodes && ValidPath(p)
    ensures var r := BmapThrough(m, ino, p);
            r.Some? && Became(m, r.value.0, Plain(m), []) && r.value.1 == At(Plain(m), ino, p)
    decreases |p|
  {
    hide Wired, Entry, Cache.Inv, NoDup, Room, Open;
    assert m.puts + [] == m.puts;
    if |p| > 1 {
      BmapThroughWorks(m, ino, Up(p));
      var (k, z) := BmapThrough(m, ino, Up(p)).value;
      if z != 0 {
        TableEntry(k, ino, p, z);
        var (d, i) := Open(k, z).value;
        CloseReady(k, z, d, i);
      }
    }
  }

  // minix_write.

  function Resized(m: Mount, ino: nat, end: nat): Mount
    requires ino in m.inodes
  {
    m.(inodes := m.inodes[ino := m.inodes[ino].(size := Max(m.inodes[ino].size, end))])
  }

  /** One pass of the loop. */
  function ChunkThrough(m: Mount, ino: nat, offset: nat, chunk: seq<Byte>): (r: Option<Mount>)
    requires ino in m.inodes && offset % BLOCK_SIZE + |chunk| <= BLOCK_SIZE
    ensures r.Some? ==> ino in r.value.inodes
  {
    if offset / BLOCK_SIZE >= TOTAL_BLOCK then None
    else match CreateThrough(m, ino, BlockPath(offset / BLOCK_SIZE))
      case None => None
      case Some((k, z)) =>
        match Open(k, z)
        case None => None
        case Some((d, i)) =>
          var b: Block := d.bufs[i].data;
          Some(Resized(Save(k, z, d, i, Splice(b, offset % BLOCK_SIZE, chunk)), ino, offset + |chunk|))
  }

  function WriteThrough(m: Mount, ino: nat, data: seq<Byte>, offset: nat): (r: Option<Mount>)
    requires ino in m.inodes
    decreases |data|
  {
    if data == [] then Some(m)
    else
      var n := ChunkLength(offset, |data|);
      match ChunkThrough(m, ino, offset, data[..n])
      case None => None
      case Some(k) => WriteThrough(k, ino, data[n..], offset + n)
  }

  lemma BecameThen(m: Mount, k: Mount, n: Mount, fs: Fs, gs: Fs, a: seq<Put>, b: seq<Put>)
    requires Became(m, k, fs, a) && Became(k, n, gs, b)
    ensures Became(m, n, gs, a + b)
  {
    hide Ready, Plain;
    assert m.puts + (a + b) == m.puts + a + b;
  }

  /** The last step of a pass: the bytes go into their zone, and the size follows. */
  lemma SpliceWorks(m: Mount, ino: nat, p: seq<nat>, offset: nat, chunk: seq<Byte>)
    requires Ready(m) && Wired(Plain(m)) && ino in m.inodes && ValidPath(p)
             && offset % BLOCK_SIZE + |chunk| <= BLOCK_SIZE
    requires 0 != At(Plain(m), ino, p)
    ensures var fs, z := Plain(m), At(Plain(m), ino, p);
            && z < |fs.zones| && Open(m, z).Some?
            && var (d, i) := Open(m, z).value;
               var b := Splice(fs.zones[z], offset % BLOCK_SIZE, chunk);
               && d.bufs[i].data == fs.zones[z]
               && var ws := Written(fs, z, b);
                  Became(m, Resized(Save(m, z, d, i, b), ino, offset + |chunk|),
                         SetSize(ws, ino, Max(ws.inodes[ino].size, offset + |chunk|)), [Put(z, b)])
  {
    var fs, z := Plain(m), At(Plain(m), ino, p);
    AtBound(fs, ino, p);
    OpenWorks(m, z);
    var (d, i) := Open(m, z).value;
    var b := Splice(fs.zones[z], offset % BLOCK_SIZE, chunk);
    hide Wired, At, Cache.Inv, NoDup, Splice, Open;
    SaveReady(m, z, d, i, b);
    hide Cache.Brelse, Cache.Store;
    ResizedPlain(Save(m, z, d, i, b), ino, offset + |chunk|);
  }

  lemma ResizedPlain(m: Mount, ino: nat, end: nat)
    requires Ready(m) && ino in m.inodes
    ensures Ready(Resized(m, ino, end))
            && Plain(Resized(m, ino, end)) == SetSize(Plain(m), ino, Max(m.inodes[ino].size, end))
  {
    hide Cache.Inv, NoDup;
    assert Plain(Resized(m, ino, end)).zones == Plain(m).zones;
  }

  lemma ChunkThroughWorks(m: Mount, ino: nat, offset: nat, chunk: seq<Byte>)
    requires Ready(m) && Wired(Plain(m)) && ino in m.inodes && offset % BLOCK_SIZE + |chunk| <= BLOCK_SIZE
    ensures var r, g := ChunkThrough(m, ino, offset, chunk), WriteChunk(Plain(m), ino, offset, chunk);
            && (r.Some? <==> g.Some?)
            && (r.Some? ==> Became(m, r.value, g.value, ChunkPuts(Plain(m), ino, offset, chunk)))
  {
    if offset / BLOCK_SIZE < TOTAL_BLOCK {
      var p, fs := BlockPath(offset / BLOCK_SIZE), Plain(m);
      CreateThroughWorks(m, ino, p);
      if Create(fs, ino, p).Some? {
        hide Wired, At, BlockPath, Create, CreateThrough, CreatePuts, WriteChunk, ChunkPuts, ChunkThrough, Cache.Inv,
             Sized;
        PassWorks(m, ino, offset, chunk);
      } else {
        hide Wired, At, BlockPath, Create, CreateThrough, CreatePuts, ChunkPuts, Cache.Inv, Sized, Became;
      }
    }
  }

  lemma PassWorks(m: Mount, ino: nat, offset: nat, chunk: seq<Byte>)
    requires Ready(m) && Wired(Plain(m)) && ino in m.inodes && offset % BLOCK_SIZE + |chunk| <= BLOCK_SIZE
    requires offset / BLOCK_SIZE < TOTAL_BLOCK && Create(Plain(m), ino, BlockPath(offset / BLOCK_SIZE)).Some?
    ensures var r, g := ChunkThrough(m, ino, offset, chunk), WriteChunk(Plain(m), ino, offset, chunk);
            r.Some? && g.Some? && Became(m, r.value, g.value, ChunkPuts(Plain(m), ino, offset, chunk))
  {
    hide Wired, At, BlockPath, Create, CreateThrough, CreatePuts, WriteChunk, ChunkPuts, ChunkThrough, Splice, Open,
         Cache.Inv, NoDup, Sized, Room, Save, Resized;
    var p, fs := BlockPath(offset / BLOCK_SIZE), Plain(m);
    CreateThroughWorks(m, ino, p);
    CreateEffect(fs, ino, p);
    var (k, z) := CreateThrough(m, ino, p).value;
    SpliceWorks(k, ino, p, offset, chunk);
    hide Became, Plain;
    PlainPass(fs, Plain(k), ino, offset, chunk);
    var (d, i) := Open(k, z).value;
    ThroughPass(m, k, z, d, i, ino, offset, chunk);
    var b := Splice(Plain(k).zones[z], offset % BLOCK_SIZE, chunk);
    BecameThen(m, k, ChunkThrough(m, ino, offset, chunk).value, Plain(k), WriteChunk(fs, ino, offset, chunk).value,
               CreatePuts(fs, ino, p), [Put(z, b)]);
  }

  lemma PlainPass(fs: Fs, gs: Fs, ino: nat, offset: nat, chunk: seq<Byte>)
    requires ino in fs.inodes && ino in gs.inodes && offset % BLOCK_SIZE + |chunk| <= BLOCK_SIZE
    requires offset / BLOCK_SIZE < TOTAL_BLOCK && Create(fs, ino, BlockPath(offset / BLOCK_SIZE)) == Some(gs)
    requires 0 != At(gs, ino, BlockPath(offset / BLOCK_SIZE)) < |gs.zones|
    ensures var z := At(gs, ino, BlockPath(offset / BLOCK_SIZE));
            var b := Splice(gs.zones[z], offset % BLOCK_SIZE, chunk);
            var ws := Written(gs, z, b);
            && WriteChunk(fs, ino, offset, chunk) == Some(SetSize(ws, ino, Max(ws.inodes[ino].size, offset + |chunk|)))
            && ChunkPuts(fs, ino, offset, chunk) == CreatePuts(fs, ino, BlockPath(offset / BLOCK_SIZE)) + [Put(z, b)]
  {
    hide At, BlockPath, Create, CreatePuts, Splice;
  }

  lemma ThroughPass(m: Mount, k: Mount, z: nat, d: Cache.Cache, i: nat, ino: nat, offset: nat, chunk: seq<Byte>)
    requires ino in m.inodes && ino in k.inodes && offset % BLOCK_SIZE + |chunk| <= BLOCK_SIZE
    requires offset / BLOCK_SIZE < TOTAL_BLOCK && CreateThrough(m, ino, BlockPath(offset / BLOCK_SIZE)) == Some((k, z))
    requires Open(k, z) == Some((d, i))
    ensures var b: Block := d.bufs[i].data;
            ChunkThrough(m, ino, offset, chunk) ==
            Some(Resized(Save(k, z, d, i, Splice(b, offset % BLOCK_SIZE, chunk)), ino, offset + |chunk|))
  {
    hide BlockPath, CreateThrough, Splice, Open, Save;
  }

  /** minix_write over the cache: it never waits while a buffer is not held,
      and the zones are those of the plain write. */
  lemma {:induction false} WriteThroughWorks(m: Mount, ino: nat, data: seq<Byte>, offset: nat)
    requires Ready(m) && Wired(Plain(m)) && ino in m.inodes
    ensures var r, g := WriteThrough(m, ino, data, offset), WriteAt(Plain(m), ino, data, offset);
            && (r.Some? <==> g.Some?)
            && (r.Some? ==> Became(m, r.value, g.value, WritePuts(Plain(m), ino, data, offset)))
    decreases |data|
  {
    hide Wired, ChunkThrough, WriteChunk, ChunkPuts, Cache.Inv, NoDup, Sized, Room;
    if data == [] {
      assert m.puts + [] == m.puts;
    } else {
      var n := ChunkLength(offset, |data|);
      ChunkThroughWorks(m, ino, offset, data[..n]);
      if WriteChunk(Plain(m), ino, offset, data[..n]).Some? {
        ChunkEffect(Plain(m), ino, offset, data[..n]);
        var k := ChunkThrough(m, ino, offset, data[..n]).value;
        WriteThroughWorks(k, ino, data[n..], offset + n);
        if WriteThrough(m, ino, data, offset).Some? {
          BecameThen(m, k, WriteThrough(m, ino, data, offset).value, Plain(k),
                     WriteAt(Plain(m), ino, data, offset).value,
                     ChunkPuts(Plain(m), ino, offset, data[..n]), WritePuts(Plain(k), ino, data[n..], offset + n));
        }
      }
    }
  }

  // minix_read.

  /** The loop; the inner None is the assertion that the block has a zone. */
  function ReadLoop(m: Mount, ino: nat, left: nat, offset: nat): Option<(Mount, Option<seq<Byte>>)>
    requires ino in m.inodes
    decreases left
  {
    if left == 0 then Some((m, Some([])))
    else if offset / BLOCK_SIZE >= TOTAL_BLOCK then Some((m, None))
    else match BmapThrough(m, ino, BlockPath(offset / BLOCK_SIZE))
      case None => None
      case Some((k, z)) =>
        if z == 0 then Some((k, None))
        else match Open(k, z)
          case None => None
          case Some((d, i)) =>
            var n, start := ChunkLength(offset, left), offset % BLOCK_SIZE;
            match ReadLoop(Close(k, d, i), ino, left - n, offset + n)
            case None => None
            case Some((q, None)) => Some((q, None))
            case Some((q, Some(rest))) => Some((q, Some(d.bufs[i].data[start..start + n] + rest)))
  }

  function ReadThrough(m: Mount, ino: nat, len: nat, offset: nat): Option<(Mount, Outcome)>
    requires ino in m.inodes
  {
    var size := m.inodes[ino].size;
    if offset >= size then Some((m, Eof))
    else match ReadLoop(m, ino, Min(len, size - offset), offset)
      case None => None
      case Some((k, None)) => Some((k, Hole))
      case Some((k, Some(s))) => Some((k, Got(s)))
  }

  /** One block of a read. */
  lemma BlockRead(m: Mount, ino: nat, p: seq<nat>)
    requires Ready(m) && Wired(Plain(m)) && ino in m.inodes && ValidPath(p)
    ensures var r := BmapThrough(m, ino, p);
            && r.Some? && Became(m, r.value.0, Plain(m), []) && r.value.1 == At(Plain(m), ino, p)
            && (r.value.1 != 0 ==>
                  && r.value.1 < |m.addrs| && Open(r.value.0, r.value.1).Some?
                  && var (d, i) := Open(r.value.0, r.value.1).value;
                     && d.bufs[i].data == Plain(m).zones[r.value.1]
                     && Became(m, Close(r.value.0, d, i), Plain(m), []))
  {
    hide Cache.Inv, NoDup, Sized, Room, BmapThrough, Open, At;
    BmapThroughWorks(m, ino, p);
    var (k, z) := BmapThrough(m, ino, p).value;
    if z != 0 {
      AtBound(Plain(m), ino, p);
      OpenWorks(k, z);
      var (d, i) := Open(k, z).value;
      CloseReady(k, z, d, i);
      assert k.puts + [] == k.puts;
    }
  }

  lemma {:induction false} ReadLoopWorks(m: Mount, ino: nat, left: nat, offset: nat)
    requires Ready(m) && Wired(Plain(m)) && ino in m.inodes
    ensures var r := ReadLoop(m, ino, left, offset);
            r.Some? && Became(m, r.value.0, Plain(m), []) && r.value.1 == ReadBytes(Plain(m), ino, left, offset)
    decreases left
  {
    hide Wired, At, BlockPath, Cache.Inv, NoDup, Sized, Room, BmapThrough, Open, ChunkLength, Close;
    assert m.puts + [] == m.puts;
    if left > 0 && offset / BLOCK_SIZE < TOTAL_BLOCK {
      var p := BlockPath(offset / BLOCK_SIZE);
      BlockRead(m, ino, p);
      var (k, z) := BmapThrough(m, ino, p).value;
      if z != 0 {
        var (d, i) := Open(k, z).value;
        var n := ChunkLength(offset, left);
        ReadLoopWorks(Close(k, d, i), ino, left - n, offset + n);
      }
    }
  }

  /** minix_read over the cache is minix_read over the disk, and leaves the files alone. */
  lemma ReadThroughWorks(m: Mount, ino: nat, len: nat, offset: nat)
    requires Ready(m) && Wired(Plain(m)) && ino in m.inodes
    ensures var r := ReadThrough(m, ino, len, offset);
            r.Some? && Became(m, r.value.0, Plain(m), []) && r.value.1 == ReadAt(Plain(m), ino, len, offset)
  {
    hide Wired, Cache.Inv, NoDup, Sized, Room, ReadLoop, ReadBytes;
    assert m.puts + [] == m.puts;
    if offset < m.inodes[ino].size {
      ReadLoopWorks(m, ino, Min(len, m.inodes[ino].size - offset), offset);
    }
  }

  // Runs.

  /** A file is written or read, or somebody else uses the cache and stores into no zone. */
  datatype Call = Write(w: MinixRuns.Write) | Read(ino: nat, len: nat, offset: nat) | Other(e: Machine.Event)

  /** None when the call is not one of these, has to wait, or fails. */
  function Serve(m: Mount, call: Call): Option<Mount> {
    match call
    case Write(w) =>
      if w.ino !in m.inodes || w.offset > m.inodes[w.ino].size || !Room(m.cache) then None
      else WriteThrough(m, w.ino, w.data, w.offset)
    case Read(ino, len, offset) =>
      if ino !in m.inodes || !Room(m.cache) then None
      else
        var r := ReadThrough(m, ino, len, offset);
        if r.None? then None else Some(r.value.0)
    case Other(e) =>
      if || !Machine.InRange(m.cache) || !Machine.Legal(m.cache, e)
         || (e.Write? && m.cache.bufs[e.i].addr in m.addrs) then None
      else
        var r := Machine.Step(m.cache, e);
        if r.None? then None else Some(m.(cache := r.value))
  }

  function RunThrough(m: Mount, calls: seq<Call>): Option<Mount>
    decreases |calls|
  {
    if calls == [] then Some(m)
    else match Serve(m, calls[0])
      case None => None
      case Some(k) => RunThrough(k, calls[1..])
  }

  function WritesOf(calls: seq<Call>): seq<MinixRuns.Write> {
    if calls == [] then []
    else (if calls[0].Write? then [calls[0].w] else []) + WritesOf(calls[1..])
  }

  /** Nothing is on the dirty list, and the call puts nothing there. */
  predicate Direct(call: Call) {
    call.Other? && call.e.Write? ==> call.e.direct
  }

  /** What one call means for the files. */
  ghost predicate Served(m: Mount, call: Call, k: Mount)
    requires Mounted(m)
  {
    && Mounted(k) && k.addrs == m.addrs
    && (if call.Write? then
          && call.w.ino in m.inodes && call.w.offset <= m.inodes[call.w.ino].size
          && WriteAt(Plain(m), call.w.ino, call.w.data, call.w.offset) == Some(Plain(k))
          && k.puts == m.puts + WritePuts(Plain(m), call.w.ino, call.w.data, call.w.offset)
        else Plain(k) == Plain(m) && k.puts == m.puts)
    && (m.cache.dirtyList == [] && Direct(call) ==> k.cache.dirtyList == [])
  }

  lemma OtherServed(m: Mount, e: Machine.Event)
    requires Mounted(m) && Serve(m, Other(e)).Some?
    ensures Served(m, Other(e), Serve(m, Other(e)).value)
  {
    hide Cache.Inv, NoDup, Machine.Step;
    Machine.StepInv(m.cache, e);
    Machine.StepPlain(m.cache, e);
    var k := Serve(m, Other(e)).value;
    assert Plain(k).zones == Plain(m).zones;
    if m.cache.dirtyList == [] && (e.Write? ==> e.direct) {
      Machine.StepUnlisted(m.cache, e);
    }
  }

  lemma CallServed(m: Mount, call: Call)
    requires Mounted(m) && Wired(Plain(m)) && Serve(m, call).Some?
    ensures Served(m, call, Serve(m, call).value)
  {
    match call
    case Write(w) =>
      hide Cache.Inv, NoDup, Wired, Sized, WriteThrough, WriteAt, WritePuts;
      WriteThroughWorks(m, w.ino, w.data, w.offset);
    case Read(ino, len, offset) =>
      hide Cache.Inv, NoDup, Wired, Sized, ReadThrough;
      ReadThroughWorks(m, ino, len, offset);
      assert m.puts + [] == m.puts;
    case Other(e) => OtherServed(m, e);
  }

  /**
   * Files over the cache: whatever is written and read, with anything else
   * going through the cache between the calls, the file system is the one that
   * the writes alone make of the plain disk, and the stores are theirs.
   */
  lemma {:induction false} RunThroughRefines(m: Mount, calls: seq<Call>)
    requires Mounted(m) && MinixRuns.Good(Plain(m)) && RunThrough(m, calls).Some?
    ensures var k := RunThrough(m, calls).value;
            && Mounted(k) && k.addrs == m.addrs
            && MinixRuns.Run(Plain(m), WritesOf(calls)) == Some(Plain(k)) && MinixRuns.Good(Plain(k))
            && k.puts == m.puts + RunPuts(Plain(m), WritesOf(calls))
            && (m.cache.dirtyList == [] && (forall c | c in calls :: Direct(c)) ==> k.cache.dirtyList == [])
    decreases |calls|
  {
    hide Cache.Inv, NoDup, Sized, MinixRuns.Good, Serve, WriteAt, WritePuts;
    if calls == [] {
      assert m.puts + [] == m.puts;
    } else {
      assert calls[0] in calls;
      MinixRuns.GoodWired(Plain(m));
      hide Wired;
      CallServed(m, calls[0]);
      var k := Serve(m, calls[0]).value;
      FirstWrite(m, calls, k);
      if calls[0].Write? {
        MinixRuns.WriteGood(Plain(m), calls[0].w.ino, calls[0].w.data, calls[0].w.offset);
      }
      RunThroughRefines(k, calls[1..]);
    }
  }

  /** The first call and the writes of a run. */
  lemma FirstWrite(m: Mount, calls: seq<Call>, k: Mount)
    requires Mounted(m) && calls != [] && Served(m, calls[0], k)
    ensures MinixRuns.Run(Plain(m), WritesOf(calls)) == MinixRuns.Run(Plain(k), WritesOf(calls[1..]))
    ensures m.puts + RunPuts(Plain(m), WritesOf(calls)) == k.puts + RunPuts(Plain(k), WritesOf(calls[1..]))
  {
    hide Cache.Inv, NoDup, Sized, WriteAt, WritePuts, MinixRuns.Run, RunPuts, Plain;
    var rest := WritesOf(calls[1..]);
    if calls[0].Write? {
      assert WritesOf(calls) == [calls[0].w] + rest;
      OneWrite(Plain(m), Plain(k), calls[0].w, rest);
    } else {
      assert WritesOf(calls) == rest;
    }
  }

  lemma OneWrite(fs: Fs, gs: Fs, w: MinixRuns.Write, rest: seq<MinixRuns.Write>)
    requires w.ino in fs.inodes && w.offset <= fs.inodes[w.ino].size
    requires WriteAt(fs, w.ino, w.data, w.offset) == Some(gs)
    ensures MinixRuns.Run(fs, [w] + rest) == MinixRuns.Run(gs, rest)
    ensures RunPuts(fs, [w] + rest) == WritePuts(fs, w.ino, w.data, w.offset) + RunPuts(gs, rest)
  {
    hide WriteAt, WritePuts;
    assert ([w] + rest)[1..] == rest;
  }

  /** Reads after any such run give slices of the sequences that the writes build. */
  lemma ReadsThroughCache(m: Mount, calls: seq<Call>, ino: nat, len: nat, offset: nat)
    requires Mounted(m) && MinixRuns.Formatted(Plain(m)) && RunThrough(m, calls).Some? && ino in m.inodes
    requires Room(RunThrough(m, calls).value.cache)
    ensures var k := RunThrough(m, calls).value;
            var files := MinixRuns.PlainRun(map i | i in m.inodes :: [], WritesOf(calls));
            && ino in k.inodes && ino in files && ReadThrough(k, ino, len, offset).Some?
            && ReadThrough(k, ino, len, offset).value.1 ==
               if offset >= |files[ino]| then Eof else Got(files[ino][offset..Min(|files[ino]|, offset + len)])
  {
    hide Cache.Inv, NoDup, Sized, Room, RunThrough, ReadThrough, MinixRuns.Run, MinixRuns.Formatted, WritesOf;
    MinixRuns.FormattedGood(Plain(m));
    hide MinixRuns.Good;
    RunThroughRefines(m, calls);
    var k := RunThrough(m, calls).value;
    MinixRuns.GoodWired(Plain(k));
    MinixRuns.ReadsAfterWrites(Plain(m), WritesOf(calls), ino, len, offset);
    hide Wired;
    ReadThroughWorks(k, ino, len, offset);
  }

  // What reaches the disk.

  /**
   * minix.c sets the flag of its buffers directly.  So after any such run, with
   * others doing the same, bsync does nothing, and a zone is on the disk as the
   * files have it exactly when no buffer with other contents stands for it.
   */
  lemma SyncMissesWrites(m: Mount, calls: seq<Call>, z: nat)
    requires Mounted(m) && MinixRuns.Good(Plain(m)) && RunThrough(m, calls).Some? && z < |m.addrs|
    requires m.cache.dirtyList == [] && forall c | c in calls :: Direct(c)
    ensures var k, hs := RunThrough(m, calls).value, MinixRuns.Run(Plain(m), WritesOf(calls));
            && hs.Some? && |hs.value.zones| == |m.addrs| && Machine.InRange(k.cache) && Cache.Bsync(k.cache) == k.cache
            && (Cache.At(Cache.Bsync(k.cache).disk, m.addrs[z]) == hs.value.zones[z] <==>
                !Machine.Unlisted(k.cache, m.addrs[z]))
  {
    hide Cache.Inv, NoDup, RunThrough, MinixRuns.Run, MinixRuns.Good, WritesOf;
    RunThroughRefines(m, calls);
    var k := RunThrough(m, calls).value;
    Machine.SyncExactly(k.cache, m.addrs[z]);
  }

  // One byte that bsync does not bring to the disk.

  function Seven(): seq<Byte> {
    [7]
  }

  function SevenBlock(): Block {
    Splice(ZeroBlock(), 0, Seven())
  }

  /** The small disk behind an empty cache. */
  function SmallMount(front: seq<Block>, addrs: seq<Cache.Addr>, disk: map<Cache.Addr, Cache.Block>,
                      capacity: nat, mask: bv32): Mount
    requires |front| == 6
  {
    var fs := MinixRuns.SmallDisk(front);
    Mount(fs.zmap, fs.first, fs.inodes, fs.owner, addrs, Machine.Start(capacity, mask, disk), [])
  }

  lemma SmallPlain(front: seq<Block>, addrs: seq<Cache.Addr>, disk: map<Cache.Addr, Cache.Block>,
                   capacity: nat, mask: bv32)
    requires |front| == 6 && Backs(disk, addrs, MinixRuns.SmallDisk(front).zones) && capacity > 0
    ensures var m := SmallMount(front, addrs, disk, capacity, mask);
            && Ready(m) && Plain(m) == MinixRuns.SmallDisk(front) && MinixRuns.Good(Plain(m)) && m.addrs == addrs
            && m.cache.dirtyList == [] && 2 in m.inodes && m.inodes[2].size == 0
            && |addrs| == 9 && Cache.At(disk, addrs[6]) == ZeroBlock()
  {
    var m, fs := SmallMount(front, addrs, disk, capacity, mask), MinixRuns.SmallDisk(front);
    assert forall z | 0 <= z < 9 :: Cache.At(disk, addrs[z]) == fs.zones[z] && |fs.zones[z]| == BLOCK_SIZE;
    assert fs.zones[6] == ZeroBlock();
    assert Plain(m).zones == fs.zones;
    MinixRuns.SmallFree(front);
    MinixRuns.FormattedGood(fs);
    hide Cache.Inv, NoDup;
    Machine.StartInv(capacity, mask, disk);
  }

  /** The write takes zone 6, and its one buffer never goes to the disk. */
  lemma SmallStores(front: seq<Block>, addrs: seq<Cache.Addr>, disk: map<Cache.Addr, Cache.Block>,
                    capacity: nat, mask: bv32)
    requires |front| == 6 && Backs(disk, addrs, MinixRuns.SmallDisk(front).zones) && capacity > 0
    ensures var m := SmallMount(front, addrs, disk, capacity, mask);
            && ChunkThrough(m, 2, 0, Seven()).Some?
            && var k := ChunkThrough(m, 2, 0, Seven()).value;
               k.cache.disk == disk && |k.addrs| == 9 && Cache.At(k.cache.plain, addrs[6]) == SevenBlock()
  {
    var m := SmallMount(front, addrs, disk, capacity, mask);
    SmallPlain(front, addrs, disk, capacity, mask);
    MinixRuns.SmallFree(front);
    SameBalloc(m);
    hide Balloc, NewZoneOf, Cache.Hash, Splice, Plain, MinixRuns.Good, Cache.Inv, NoDup, MinixRuns.Formatted;
    assert BlockPath(0) == [0];
    var (k, z) := CreateThrough(m, 2, [0]).value;
    assert z == 6 && k.cache == m.cache && k.addrs == addrs;
    OpenFirst(k, capacity, mask, disk);
  }

  lemma OpenFirst(m: Mount, capacity: nat, mask: bv32, disk: map<Cache.Addr, Cache.Block>)
    requires m.cache == Machine.Start(capacity, mask, disk) && capacity > 0 && |m.addrs| == 9
    requires Cache.At(disk, m.addrs[6]) == ZeroBlock()
    ensures Open(m, 6).Some?
    ensures var (d, i) := Open(m, 6).value;
            d.disk == d.plain == disk && d.bufs[i].data == ZeroBlock() && d.bufs[i].addr == m.addrs[6]
  {
    hide Cache.Hash;
  }

  lemma MissedByte(front: seq<Block>, addrs: seq<Cache.Addr>, disk: map<Cache.Addr, Cache.Block>,
                   capacity: nat, mask: bv32)
    requires |front| == 6 && Backs(disk, addrs, MinixRuns.SmallDisk(front).zones) && capacity > 0
    ensures var m := SmallMount(front, addrs, disk, capacity, mask);
            var r := RunThrough(m, [Write(MinixRuns.Write(2, Seven(), 0))]);
            && r.Some? && Mounted(r.value) && Machine.InRange(r.value.cache) && |addrs| == |r.value.addrs| == 9
            && Plain(r.value).zones[6] == SevenBlock()
            && Cache.At(Cache.Bsync(r.value.cache).disk, addrs[6]) == ZeroBlock() != SevenBlock()
  {
    hide ChunkThrough, RunThrough, Seven, SevenBlock, SmallMount, Plain, Cache.Inv, NoDup, Sized, Room, MinixRuns.Good,
         Cache.Bsync, Backs;
    var m, calls := SmallMount(front, addrs, disk, capacity, mask), [Write(MinixRuns.Write(2, Seven(), 0))];
    SmallPlain(front, addrs, disk, capacity, mask);
    SmallStores(front, addrs, disk, capacity, mask);
    OneByteRun(m);
    RunThroughRefines(m, calls);
    ByteStays(m, calls, addrs, disk);
    SevenFirst();
  }

  lemma ByteStays(m: Mount, calls: seq<Call>, addrs: seq<Cache.Addr>, disk: map<Cache.Addr, Cache.Block>)
    requires Mounted(m) && MinixRuns.Good(Plain(m)) && RunThrough(m, calls).Some? && m.addrs == addrs && |addrs| == 9
    requires m.cache.dirtyList == [] && (forall c | c in calls :: Direct(c)) && Mounted(RunThrough(m, calls).value)
    requires RunThrough(m, calls).value.addrs == addrs && RunThrough(m, calls).value.cache.disk == disk
    ensures var k := RunThrough(m, calls).value;
            && Machine.InRange(k.cache) && Cache.At(Cache.Bsync(k.cache).disk, addrs[6]) == Cache.At(disk, addrs[6])
            && Plain(k).zones[6] == Cache.At(k.cache.plain, addrs[6])
  {
    hide RunThrough, Cache.Inv, NoDup, MinixRuns.Good, Cache.Bsync;
    SyncMissesWrites(m, calls, 6);
  }

  lemma OneByteRun(m: Mount)
    requires 2 in m.inodes && m.inodes[2].size == 0 && Room(m.cache) && ChunkThrough(m, 2, 0, Seven()).Some?
    ensures RunThrough(m, [Write(MinixRuns.Write(2, Seven(), 0))]) == ChunkThrough(m, 2, 0, Seven())
    ensures forall c | c in [Write(MinixRuns.Write(2, Seven(), 0))] :: Direct(c)
  {
    var k, call := ChunkThrough(m, 2, 0, Seven()).value, Write(MinixRuns.Write(2, Seven(), 0));
    assert ChunkLength(0, 1) == 1 && Seven()[..1] == Seven() && Seven()[1..] == [] && |Seven()| == 1;
    hide ChunkThrough, Seven;
    assert WriteThrough(k, 2, [], 1) == Some(k);
    assert WriteThrough(m, 2, Seven(), 0) == Some(k);
    assert [call][1..] == [];
    assert RunThrough(k, []) == Some(k);
  }

  lemma SevenFirst()
    ensures SevenBlock()[0] == 7 && ZeroBlock() != SevenBlock()
  {
    assert SevenBlock()[0] == 7;
  }
}
