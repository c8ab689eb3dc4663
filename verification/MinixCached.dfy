/** The stores of the Minix file system, and any cache run that makes them. */
module MinixCached {
  import opened Prelude
  import opened MinixFs
  import opened MinixProofs
  import opened MinixFiles
  import MinixRuns
  import Cache = BufferCache
  import Machine = BufferMachine

  /** Block `data` is stored in zone `zone`. */
  datatype Put = Put(zone: nat, data: Block)

  /** What stores leave in the zones. */
  function Applied(zones: seq<Block>, puts: seq<Put>): (r: seq<Block>)
    ensures |r| == |zones|
    decreases |puts|
  {
    if puts == [] then zones
    else Applied(if puts[0].zone < |zones| then zones[puts[0].zone := puts[0].data] else zones, puts[1..])
  }

  lemma {:induction false} AppliedSplit(zones: seq<Block>, a: seq<Put>, b: seq<Put>)
    ensures Applied(zones, a + b) == Applied(Applied(zones, a), b)
    decreases |a|
  {
    if a == [] {
      assert a + b == b;
    } else {
      assert (a + b)[1..] == a[1..] + b;
      AppliedSplit(if a[0].zone < |zones| then zones[a[0].zone := a[0].data] else zones, a[1..], b);
    }
  }

  // The stores of minix_bmap and minix_write, in the order of the code.

  function GrowPuts(fs: Fs, ino: nat, p: seq<nat>): seq<Put>
    requires ino in fs.inodes && ValidPath(p)
  {
    if |p| == 1 || At(fs, ino, p) != 0 || Balloc(fs).None? || Balloc(fs).value >= 0x10000 then []
    else
      var w := At(fs, ino, Up(p));
      if w >= |fs.zones| then [] else [Put(w, SetEntry(fs.zones[w], Last(p), Balloc(fs).value))]
  }

  function CreatePuts(fs: Fs, ino: nat, p: seq<nat>): seq<Put>
    requires ino in fs.inodes && ValidPath(p)
    decreases |p|
  {
    if |p| == 1 then GrowPuts(fs, ino, p)
    else
      CreatePuts(fs, ino, Up(p)) +
      match Create(fs, ino, Up(p))
      case None => []
      case Some(gs) => GrowPuts(gs, ino, p)
  }

  function ChunkPuts(fs: Fs, ino: nat, offset: nat, chunk: seq<Byte>): seq<Put>
    requires ino in fs.inodes && offset % BLOCK_SIZE + |chunk| <= BLOCK_SIZE
  {
    if offset / BLOCK_SIZE >= TOTAL_BLOCK then []
    else
      var p := BlockPath(offset / BLOCK_SIZE);
      CreatePuts(fs, ino, p) +
      match Create(fs, ino, p)
      case None => []
      case Some(gs) =>
        var z := At(gs, ino, p);
        if z >= |gs.zones| then [] else [Put(z, Splice(gs.zones[z], offset % BLOCK_SIZE, chunk))]
  }

  function WritePuts(fs: Fs, ino: nat, data: seq<Byte>, offset: nat): seq<Put>
    requires ino in fs.inodes
    decreases |data|
  {
    if data == [] then []
    else
      var n := ChunkLength(offset, |data|);
      ChunkPuts(fs, ino, offset, data[..n]) +
      match WriteChunk(fs, ino, offset, data[..n])
      case None => []
      case Some(gs) => WritePuts(gs, ino, data[n..], offset + n)
  }

  lemma GrowPutsApplied(fs: Fs, ino: nat, p: seq<nat>)
    requires ino in fs.inodes && ValidPath(p) && Grow(fs, ino, p).Some?
    ensures Grow(fs, ino, p).value.zones == Applied(fs.zones, GrowPuts(fs, ino, p))
  {
    hide SetEntry, Balloc;
    if At(fs, ino, p) == 0 && |p| > 1 {
      var z := Balloc(fs).value;
      var fs1 := fs.(zmap := fs.zmap[z + 1 - fs.first := true], owner := fs.owner[z := (ino, p)]);
      AtSameTables(fs, fs1, ino, Up(p));
    }
  }

  lemma {:induction false} CreatePutsApplied(fs: Fs, ino: nat, p: seq<nat>)
    requires ino in fs.inodes && ValidPath(p) && Create(fs, ino, p).Some?
    ensures Create(fs, ino, p).value.zones == Applied(fs.zones, CreatePuts(fs, ino, p))
    decreases |p|
  {
    hide Grow, GrowPuts, Applied;
    if |p| == 1 {
      GrowPutsApplied(fs, ino, p);
    } else {
      var gs := Create(fs, ino, Up(p)).value;
      CreatePutsApplied(fs, ino, Up(p));
      GrowPutsApplied(gs, ino, p);
      AppliedSplit(fs.zones, CreatePuts(fs, ino, Up(p)), GrowPuts(gs, ino, p));
    }
  }

  lemma ChunkPutsApplied(fs: Fs, ino: nat, offset: nat, chunk: seq<Byte>)
    requires ino in fs.inodes && offset % BLOCK_SIZE + |chunk| <= BLOCK_SIZE && WriteChunk(fs, ino, offset, chunk).Some?
    ensures WriteChunk(fs, ino, offset, chunk).value.zones == Applied(fs.zones, ChunkPuts(fs, ino, offset, chunk))
  {
    hide BlockPath, Create, CreatePuts, At, Splice;
    var p := BlockPath(offset / BLOCK_SIZE);
    var gs := Create(fs, ino, p).value;
    CreatePutsApplied(fs, ino, p);
    var z := At(gs, ino, p);
    var last := [Put(z, Splice(gs.zones[z], offset % BLOCK_SIZE, chunk))];
    AppliedSplit(fs.zones, CreatePuts(fs, ino, p), last);
  }

  /** The stores account for all that minix_write does to the zones. */
  lemma {:induction false} WritePutsApplied(fs: Fs, ino: nat, data: seq<Byte>, offset: nat)
    requires ino in fs.inodes && WriteAt(fs, ino, data, offset).Some?
    ensures WriteAt(fs, ino, data, offset).value.zones == Applied(fs.zones, WritePuts(fs, ino, data, offset))
    decreases |data|
  {
    hide WriteChunk, ChunkPuts, Applied;
    if data == [] {
      AppliedNone(fs.zones);
    } else {
      var n := ChunkLength(offset, |data|);
      var gs := WriteChunk(fs, ino, offset, data[..n]).value;
      ChunkPutsApplied(fs, ino, offset, data[..n]);
      WritePutsApplied(gs, ino, data[n..], offset + n);
      AppliedSplit(fs.zones, ChunkPuts(fs, ino, offset, data[..n]), WritePuts(gs, ino, data[n..], offset + n));
    }
  }

  lemma AppliedNone(zones: seq<Block>)
    ensures Applied(zones, []) == zones
  {
  }

  function RunPuts(fs: Fs, ws: seq<MinixRuns.Write>): seq<Put>
    decreases |ws|
  {
    if ws == [] || ws[0].ino !in fs.inodes then []
    else
      WritePuts(fs, ws[0].ino, ws[0].data, ws[0].offset) +
      match WriteAt(fs, ws[0].ino, ws[0].data, ws[0].offset)
      case None => []
      case Some(gs) => RunPuts(gs, ws[1..])
  }

  lemma {:induction false} RunPutsApplied(fs: Fs, ws: seq<MinixRuns.Write>)
    requires MinixRuns.Run(fs, ws).Some?
    ensures MinixRuns.Run(fs, ws).value.zones == Applied(fs.zones, RunPuts(fs, ws))
    decreases |ws|
  {
    hide WriteAt, WritePuts, Applied;
    if ws == [] {
      AppliedNone(fs.zones);
    } else {
      var w := ws[0];
      var gs := WriteAt(fs, w.ino, w.data, w.offset).value;
      WritePutsApplied(fs, w.ino, w.data, w.offset);
      RunPutsApplied(gs, ws[1..]);
      AppliedSplit(fs.zones, WritePuts(fs, w.ino, w.data, w.offset), RunPuts(gs, ws[1..]));
    }
  }

  // The cache.

  /** Zone z has the address `addrs[z]`, and without the cache the disk would hold the zones. */
  predicate Backs(disk: map<Cache.Addr, Cache.Block>, addrs: seq<Cache.Addr>, zones: seq<Block>) {
    |addrs| == |zones| && NoDup(addrs) && forall z | 0 <= z < |zones| :: Cache.At(disk, addrs[z]) == zones[z]
  }

  /** Among the stores of a log, those into zones are `puts`. */
  predicate Carries(log: seq<(Cache.Addr, Cache.Block)>, addrs: seq<Cache.Addr>, puts: seq<Put>)
    decreases |log|
  {
    if log == [] then puts == []
    else if log[0].0 !in addrs then Carries(log[1..], addrs, puts)
    else
      && puts != [] && puts[0].zone < |addrs| && addrs[puts[0].zone] == log[0].0 && puts[0].data == log[0].1
      && Carries(log[1..], addrs, puts[1..])
  }

  lemma BacksStore(disk: map<Cache.Addr, Cache.Block>, addrs: seq<Cache.Addr>, zones: seq<Block>, z: nat, b: Block)
    requires Backs(disk, addrs, zones) && z < |zones|
    ensures Backs(disk[addrs[z] := b], addrs, zones[z := b])
  {
  }

  lemma {:induction false} BacksLog(disk: map<Cache.Addr, Cache.Block>, addrs: seq<Cache.Addr>, zones: seq<Block>,
                                   log: seq<(Cache.Addr, Cache.Block)>, puts: seq<Put>, z: nat)
    requires Backs(disk, addrs, zones) && Carries(log, addrs, puts) && z < |zones|
    ensures Machine.LastStored(disk, log, addrs[z]) == Applied(zones, puts)[z]
    decreases |log|
  {
    if log != [] {
      var next := disk[log[0].0 := log[0].1];
      if log[0].0 in addrs {
        BacksStore(disk, addrs, zones, puts[0].zone, puts[0].data);
        BacksLog(next, addrs, zones[puts[0].zone := puts[0].data], log[1..], puts[1..], z);
      } else {
        BacksLog(next, addrs, zones, log[1..], puts, z);
      }
    }
  }

  /** bread of a zone gives what the zone holds. */
  predicate Reads(c: Cache.Cache, addrs: seq<Cache.Addr>, zones: seq<Block>)
    requires Machine.InRange(c)
  {
    forall z | 0 <= z < |zones| && z < |addrs| && Machine.Bread(c, addrs[z]).Some? ::
      var (e, i) := Machine.Bread(c, addrs[z]).value;
      i < |e.bufs| && e.bufs[i].addr == addrs[z] && e.bufs[i].data == zones[z]
  }

  lemma BackedReads(c: Cache.Cache, addrs: seq<Cache.Addr>, zones: seq<Block>)
    requires Cache.Inv(c) && Backs(c.plain, addrs, zones)
    ensures Machine.InRange(c) && Reads(c, addrs, zones)
  {
    hide Cache.Inv, Machine.Bread;
    Machine.InvInRange(c);
    forall z | 0 <= z < |zones| && z < |addrs| && Machine.Bread(c, addrs[z]).Some?
      ensures var (e, i) := Machine.Bread(c, addrs[z]).value;
              i < |e.bufs| && e.bufs[i].addr == addrs[z] && e.bufs[i].data == zones[z]
    {
      Machine.BreadReturnsPlain(c, addrs[z]);
      Machine.BreadPlain(c, addrs[z]);
    }
  }

  /**
   * File writes over the cache: in any run of the cache that stores into the
   * zones what the writes store, whatever else is read, stored elsewhere, evicted,
   * written back or synced in between, bread of a zone gives what the file
   * system over a plain disk has there.
   */
  lemma CachedWrites(fs: Fs, ws: seq<MinixRuns.Write>, c: Cache.Cache, es: seq<Machine.Event>, addrs: seq<Cache.Addr>)
    requires MinixRuns.Run(fs, ws).Some?
    requires Cache.Inv(c) && Backs(c.plain, addrs, fs.zones) && Machine.Run(c, es).Some?
    requires Carries(Machine.Log(c, es), addrs, RunPuts(fs, ws))
    ensures var hs, d := MinixRuns.Run(fs, ws).value, Machine.Run(c, es).value;
            Backs(d.plain, addrs, hs.zones) && Machine.InRange(d) && Reads(d, addrs, hs.zones)
  {
    hide Cache.Inv, Machine.Run, Machine.Log, Carries, MinixRuns.Run, RunPuts, Reads;
    var hs, d := MinixRuns.Run(fs, ws).value, Machine.Run(c, es).value;
    RunPutsApplied(fs, ws);
    Machine.RunPlain(c, es, Cache.Addr(0, 0));
    forall z | 0 <= z < |hs.zones|
      ensures Cache.At(d.plain, addrs[z]) == hs.zones[z]
    {
      Machine.RunPlain(c, es, addrs[z]);
      BacksLog(c.plain, addrs, fs.zones, Machine.Log(c, es), RunPuts(fs, ws), z);
    }
    BackedReads(d, addrs, hs.zones);
  }
}
