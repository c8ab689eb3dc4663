/**
 * minix_balloc, minix_bmap and minix_write when space runs out: what the code
 * does then, and exactly when it comes to that.
 */
module MinixSpace {
  import opened Prelude
  import opened MinixFs
  import opened MinixProofs
  import opened MinixFiles
  import Bitmap

  /** What minix_balloc returns when the bitmap is full, and what is left of it in the sixteen bits of a slot. */
  const EOF: nat := 0x1_0000_0000 - 100
  const NO_ZONE: nat := EOF % 0x10000

  /** `Beyond`: a table is to be read that lies outside the file system.  `Panic`: an assertion failed. */
  datatype Reply = Zone(nr: nat) | Beyond | Panic

  predicate Inside(fs: Fs, r: Reply) {
    r.Zone? && r.nr < |fs.zones|
  }

  predicate Full(fs: Fs) {
    forall k | 0 <= k < |fs.zmap| :: fs.zmap[k]
  }

  /** minix_balloc */
  function BallocOut(fs: Fs): Reply {
    if Bitmap.FirstFit(fs.zmap, 1) == |fs.zmap| then Zone(EOF)
    else match Balloc(fs)
      case None => Panic
      case Some(z) => Zone(z)
  }

  /** On a large disk the number may be that of a zone, and then it has no one owner any more. */
  function Disowned(fs: Fs): Fs {
    fs.(owner := fs.owner - {NO_ZONE})
  }

  /** One round of the creating loop of minix_bmap. */
  function GrowOut(fs: Fs, ino: nat, p: seq<nat>): (r: (Fs, Reply))
    requires ino in fs.inodes && ValidPath(p)
    ensures ino in r.0.inodes
  {
    var k := Bitmap.FirstFit(fs.zmap, 1);
    if At(fs, ino, p) != 0 then (fs, Zone(At(fs, ino, p)))
    else if k == |fs.zmap| then (SetSlot(Disowned(fs), ino, p, NO_ZONE), Zone(NO_ZONE))
    else match Balloc(fs)
      case None => (fs.(zmap := fs.zmap[k := true]), Panic)
      case Some(z) => if z >= 0x10000 then (fs, Panic) else (Grown(fs, ino, p, z), Zone(z))
  }

  /** minix_bmap with `create`, for the slots from the top down to `p`. */
  function CreateOut(fs: Fs, ino: nat, p: seq<nat>): (r: (Fs, Reply))
    requires ino in fs.inodes && ValidPath(p)
    ensures ino in r.0.inodes
    decreases |p|
  {
    if |p| == 1 then GrowOut(fs, ino, p)
    else
      var up := CreateOut(fs, ino, Up(p));
      if Inside(fs, up.1) then GrowOut(up.0, ino, p)
      else if up.1.Zone? then (up.0, Beyond)
      else up
  }

  /** One pass of the loop of minix_write; false when it does not end inside the file system. */
  function PassOut(fs: Fs, ino: nat, offset: nat, chunk: seq<Byte>): (r: (Fs, bool))
    requires ino in fs.inodes && offset % BLOCK_SIZE + |chunk| <= BLOCK_SIZE
    ensures ino in r.0.inodes
  {
    if offset / BLOCK_SIZE >= TOTAL_BLOCK then (fs, false)
    else
      var up := CreateOut(fs, ino, BlockPath(offset / BLOCK_SIZE));
      var gs := up.0;
      if !Inside(gs, up.1) then (gs, false)
      else
        var hs := Written(gs, up.1.nr, Splice(gs.zones[up.1.nr], offset % BLOCK_SIZE, chunk));
        (SetSize(hs, ino, Max(hs.inodes[ino].size, offset + |chunk|)), true)
  }

  /** minix_write */
  function WriteOut(fs: Fs, ino: nat, data: seq<Byte>, offset: nat): (Fs, bool)
    requires ino in fs.inodes
    decreases |data|
  {
    if data == [] then (fs, true)
    else
      var n := ChunkLength(offset, |data|);
      var pass := PassOut(fs, ino, offset, data[..n]);
      if pass.1 then WriteOut(pass.0, ino, data[n..], offset + n) else pass
  }

  // With space left all this is what the proofs are about.

  lemma GrowOutAgrees(fs: Fs, ino: nat, p: seq<nat>)
    requires Wired(fs) && ino in fs.inodes && ValidPath(p) && (|p| > 1 ==> At(fs, ino, Up(p)) != 0)
    ensures var (gs, r) := GrowOut(fs, ino, p);
            if Grow(fs, ino, p).Some? then Grow(fs, ino, p) == Some(gs) && r == Zone(At(gs, ino, p)) && Inside(fs, r)
            else Inside(fs, r) <==> Full(fs) && NO_ZONE < |fs.zones|
  {
    AtBound(fs, ino, p);
    ScanFails(fs.zmap);
    if At(fs, ino, p) == 0 && Balloc(fs).Some? {
      var z := Balloc(fs).value;
      NewZone(fs, z);
      GrownAt(fs, ino, p, z, ino, p);
    }
    hide Bitmap.FirstFit;
  }

  lemma {:induction false} CreateOutAgrees(fs: Fs, ino: nat, p: seq<nat>)
    requires Wired(fs) && ino in fs.inodes && ValidPath(p)
    ensures var (gs, r) := CreateOut(fs, ino, p);
            if Create(fs, ino, p).Some?
            then
              && Create(fs, ino, p) == Some(gs) && r == Zone(At(gs, ino, p)) && Inside(fs, r)
              && |gs.zones| == |fs.zones|
            else Inside(fs, r) ==> NO_ZONE < |fs.zones|
    decreases |p|
  {
    hide Wired, GrowOut, Grow, At, Full;
    if |p| == 1 {
      GrowOutAgrees(fs, ino, p);
    } else {
      CreateOutAgrees(fs, ino, Up(p));
      if Create(fs, ino, Up(p)).Some? {
        var gs := Create(fs, ino, Up(p)).value;
        CreateEffect(fs, ino, Up(p));
        GrowOutAgrees(gs, ino, p);
      }
    }
    if Create(fs, ino, p).Some? {
      CreateEffect(fs, ino, p);
    }
  }

  lemma CreateOutStep(fs: Fs, here: Fs, ino: nat, p: seq<nat>)
    requires ino in fs.inodes && ino in here.inodes && ValidPath(p)
    requires if |p| == 1 then here == fs
             else CreateOut(fs, ino, Up(p)).0 == here && Inside(fs, CreateOut(fs, ino, Up(p)).1)
    ensures CreateOut(fs, ino, p) == GrowOut(here, ino, p)
  {
  }

  /** Where the loop stops it stays. */
  lemma {:induction false} CreateOutStops(fs: Fs, ino: nat, path: seq<nat>, k: nat)
    requires ino in fs.inodes && ValidPath(path) && 0 < k < |path| && ValidPath(path[..k])
    requires !Inside(fs, CreateOut(fs, ino, path[..k]).1)
    ensures var (gs, r) := CreateOut(fs, ino, path[..k]);
            CreateOut(fs, ino, path) == (gs, if r.Zone? then Beyond else r)
    decreases |path|
  {
    hide GrowOut;
    if k + 1 == |path| {
      assert Up(path) == path[..k];
    } else {
      assert Up(path)[..k] == path[..k];
      CreateOutStops(fs, ino, Up(path), k);
    }
  }

  lemma PassOutAgrees(fs: Fs, ino: nat, offset: nat, chunk: seq<Byte>)
    requires Wired(fs) && ino in fs.inodes && offset % BLOCK_SIZE + |chunk| <= BLOCK_SIZE
    ensures var (gs, ok) := PassOut(fs, ino, offset, chunk);
            if WriteChunk(fs, ino, offset, chunk).Some? then ok && WriteChunk(fs, ino, offset, chunk) == Some(gs)
            else ok ==> NO_ZONE < |fs.zones|
  {
    hide Wired, At, BlockPath, Create, CreateOut, Splice;
    if offset / BLOCK_SIZE < TOTAL_BLOCK {
      var p := BlockPath(offset / BLOCK_SIZE);
      CreateOutAgrees(fs, ino, p);
      CreateOutZones(fs, ino, p);
      if Create(fs, ino, p).Some? {
        CreateEffect(fs, ino, p);
        AtBound(Create(fs, ino, p).value, ino, p);
      }
    }
  }

  lemma {:induction false} CreateOutZones(fs: Fs, ino: nat, p: seq<nat>)
    requires ino in fs.inodes && ValidPath(p)
    ensures |CreateOut(fs, ino, p).0.zones| == |fs.zones|
    decreases |p|
  {
    hide At, Balloc;
    if |p| > 1 {
      CreateOutZones(fs, ino, Up(p));
    }
  }

  /**
   * minix_write keeps to the model of the theorems while space lasts; without space it does not get to its end,
   * unless the disk is so large that NO_ZONE is one of its zones.
   */
  lemma {:induction false} WriteOutAgrees(fs: Fs, ino: nat, data: seq<Byte>, offset: nat)
    requires Wired(fs) && ino in fs.inodes
    ensures var (hs, ok) := WriteOut(fs, ino, data, offset);
            if WriteAt(fs, ino, data, offset).Some? then ok && WriteAt(fs, ino, data, offset) == Some(hs)
            else ok ==> NO_ZONE < |fs.zones|
    decreases |data|
  {
    hide Wired, PassOut, WriteChunk;
    if data != [] {
      var n := ChunkLength(offset, |data|);
      PassOutAgrees(fs, ino, offset, data[..n]);
      if WriteChunk(fs, ino, offset, data[..n]).Some? {
        var gs := WriteChunk(fs, ino, offset, data[..n]).value;
        ChunkEffect(fs, ino, offset, data[..n]);
        ChunkZones(fs, ino, offset, data[..n]);
        WriteOutAgrees(gs, ino, data[n..], offset + n);
      }
    }
  }

  lemma ChunkZones(fs: Fs, ino: nat, offset: nat, chunk: seq<Byte>)
    requires Wired(fs) && ino in fs.inodes && offset % BLOCK_SIZE + |chunk| <= BLOCK_SIZE
    requires WriteChunk(fs, ino, offset, chunk).Some?
    ensures |WriteChunk(fs, ino, offset, chunk).value.zones| == |fs.zones|
  {
    hide Wired, At, BlockPath, Create, Splice;
    CreateOutAgrees(fs, ino, BlockPath(offset / BLOCK_SIZE));
  }

  // Without it the zones of files are not kept apart.

  /** The way down a path, one table at a time. */
  lemma {:induction false} NoWay(fs: Fs, ino: nat, path: seq<nat>, k: nat)
    requires ino in fs.inodes && ValidPath(path) && 0 < k <= |path| && ValidPath(path[..k])
             && At(fs, ino, path[..k]) == 0
    ensures At(fs, ino, path) == 0
    decreases |path|
  {
    if k == |path| {
      assert path[..k] == path;
    } else {
      assert Up(path)[..k] == path[..k];
      NoWay(fs, ino, Up(path), k);
    }
  }

  /** Writing an empty slot leaves the way to it as it was. */
  lemma {:induction false} WayKept(fs: Fs, ino: nat, p: seq<nat>, v: nat, q: seq<nat>)
    requires ino in fs.inodes && ValidPath(p) && v < 0x10000 && ValidPath(q) && q <= p && |q| < |p|
    requires At(fs, ino, p) == 0 && 0 != At(fs, ino, Up(p)) < |fs.zones|
    ensures ino in SetSlot(fs, ino, p, v).inodes && At(SetSlot(fs, ino, p, v), ino, q) == At(fs, ino, q)
    decreases |q|
  {
    hide Entry, SetEntry;
    if |q| > 1 {
      WayKept(fs, ino, p, v, Up(q));
      assert Up(p)[..|q|] == q;
      if At(fs, ino, q) == 0 {
        NoWay(fs, ino, Up(p), |q|);
      }
      var w := At(fs, ino, Up(p));
      EntryOfSet(fs.zones[w], Last(p), v, Last(q));
    }
  }

  lemma SlotSet(fs: Fs, ino: nat, p: seq<nat>, v: nat)
    requires ino in fs.inodes && ValidPath(p) && v < 0x10000 && At(fs, ino, p) == 0
    requires |p| > 1 ==> 0 != At(fs, ino, Up(p)) < |fs.zones|
    ensures ino in SetSlot(fs, ino, p, v).inodes && At(SetSlot(fs, ino, p, v), ino, p) == v
    ensures |SetSlot(fs, ino, p, v).zones| == |fs.zones|
  {
    hide SetEntry, Entry;
    if |p| > 1 {
      WayKept(fs, ino, p, v, Up(p));
      EntryOfSet(fs.zones[At(fs, ino, Up(p))], Last(p), v, Last(p));
    }
  }

  lemma ScanFails(b: seq<bool>)
    ensures Bitmap.FirstFit(b, 1) == |b| <==> forall k | 0 <= k < |b| :: b[k]
  {
    var f := Bitmap.FirstFit(b, 1);
    if f == |b| {
      forall k | 0 <= k < |b|
        ensures b[k]
      {
        assert !Bitmap.Clear(b, k, 1);
      }
    } else {
      assert !b[f];
    }
  }

  /** There is space and all is in order, or there is none. */
  ghost predicate Going(fs: Fs) {
    Wired(fs) || Full(fs)
  }

  /** With no bit left an empty slot gets a number that belongs to nobody. */
  lemma FullGrows(fs: Fs, ino: nat, p: seq<nat>)
    requires Full(fs) && ino in fs.inodes && ValidPath(p) && (|p| > 1 ==> 0 != At(fs, ino, Up(p)) < |fs.zones|)
    ensures var (gs, r) := GrowOut(fs, ino, p);
            && Full(gs) && |gs.zones| == |fs.zones| && r == Zone(At(gs, ino, p))
            && (At(fs, ino, p) == 0 ==> r == Zone(NO_ZONE) && NO_ZONE !in gs.owner)
            && (At(fs, ino, p) != 0 ==> gs == fs)
            && (NO_ZONE !in fs.owner ==> NO_ZONE !in gs.owner)
  {
    ScanFails(fs.zmap);
    hide Bitmap.FirstFit, Balloc, At;
    if At(fs, ino, p) == 0 {
      AtSameTables(fs, Disowned(fs), ino, p);
      if |p| > 1 {
        AtSameTables(fs, Disowned(fs), ino, Up(p));
      }
      SlotSet(Disowned(fs), ino, p, NO_ZONE);
    }
  }

  /** A slot above the one filled keeps its number. */
  lemma FullKeeps(fs: Fs, ino: nat, p: seq<nat>, q: seq<nat>)
    requires Full(fs) && ino in fs.inodes && ValidPath(p) && |p| > 1 && 0 != At(fs, ino, Up(p)) < |fs.zones|
    requires ValidPath(q) && q <= p && |q| < |p|
    ensures At(GrowOut(fs, ino, p).0, ino, q) == At(fs, ino, q)
  {
    ScanFails(fs.zmap);
    hide Bitmap.FirstFit, Balloc, At;
    if At(fs, ino, p) == 0 {
      AtSameTables(fs, Disowned(fs), ino, p);
      AtSameTables(fs, Disowned(fs), ino, Up(p));
      AtSameTables(fs, Disowned(fs), ino, q);
      WayKept(Disowned(fs), ino, p, NO_ZONE, q);
    }
  }

  /** The walk is at an end, or at a zone that its slot names. */
  lemma GrowOutGoing(fs: Fs, ino: nat, p: seq<nat>)
    requires Going(fs) && ino in fs.inodes && ValidPath(p) && (|p| > 1 ==> 0 != At(fs, ino, Up(p)) < |fs.zones|)
    ensures var (gs, r) := GrowOut(fs, ino, p);
            && |gs.zones| == |fs.zones|
            && (Inside(fs, r) ==> Going(gs) && r.nr == At(gs, ino, p) != 0)
            && (Inside(fs, r) && !(Wired(fs) && Grow(fs, ino, p).Some?) ==> Full(gs))
  {
    GrowOutZones(fs, ino, p);
    if Full(fs) {
      FullGrows(fs, ino, p);
    }
    if Wired(fs) {
      GrowOutAgrees(fs, ino, p);
      if Grow(fs, ino, p).Some? {
        GrowEffect(fs, ino, p);
      }
    }
    hide Wired, Full, GrowOut, Grow, At;
  }

  lemma GrowOutZones(fs: Fs, ino: nat, p: seq<nat>)
    requires ino in fs.inodes && ValidPath(p)
    ensures |GrowOut(fs, ino, p).0.zones| == |fs.zones|
  {
    hide At, Balloc;
  }

  lemma {:induction false} CreateOutGoing(fs: Fs, ino: nat, p: seq<nat>)
    requires Going(fs) && ino in fs.inodes && ValidPath(p)
    ensures var (gs, r) := CreateOut(fs, ino, p);
            && |gs.zones| == |fs.zones|
            && (Inside(fs, r) ==> Going(gs) && r.nr == At(gs, ino, p) != 0)
            && (Inside(fs, r) && !(Wired(fs) && Create(fs, ino, p).Some?) ==> Full(gs))
    decreases |p|
  {
    CreateOutZones(fs, ino, p);
    hide Wired, Full, GrowOut, Grow, At, Going;
    if |p| == 1 {
      GrowOutGoing(fs, ino, p);
    } else {
      CreateOutGoing(fs, ino, Up(p));
      var (gs, r) := CreateOut(fs, ino, Up(p));
      if Inside(fs, r) {
        GrowOutGoing(gs, ino, p);
        if Wired(fs) {
          CreateOutAgrees(fs, ino, Up(p));
        }
      }
    }
  }

  /** Slot `q` names a zone that is not its own. */
  ghost predicate Broken(fs: Fs, ino: nat, q: seq<nat>) {
    && Full(fs) && ino in fs.inodes && ValidPath(q)
    && At(fs, ino, q) == NO_ZONE && NO_ZONE !in fs.owner
  }

  lemma GrowOutBreaks(fs: Fs, ino: nat, p: seq<nat>)
    requires Wired(fs) && ino in fs.inodes && ValidPath(p) && (|p| > 1 ==> At(fs, ino, Up(p)) != 0)
    requires Grow(fs, ino, p).None? && GrowOut(fs, ino, p).1 != Panic
    ensures Broken(GrowOut(fs, ino, p).0, ino, p)
  {
    if |p| > 1 {
      AtBound(fs, ino, Up(p));
    }
    ScanFails(fs.zmap);
    hide Wired, Bitmap.FirstFit, Broken;
    assert Full(fs) && At(fs, ino, p) == 0;
    FullGrows(fs, ino, p);
  }

  lemma {:induction false} CreateOutBreaks(fs: Fs, ino: nat, p: seq<nat>) returns (q: seq<nat>)
    requires Wired(fs) && ino in fs.inodes && ValidPath(p)
    requires Create(fs, ino, p).None? && CreateOut(fs, ino, p).1 != Panic
    ensures q <= p && Broken(CreateOut(fs, ino, p).0, ino, q)
    decreases |p|
  {
    hide Wired, GrowOut, Grow, At, Full;
    q := p;
    if |p| == 1 {
      GrowOutBreaks(fs, ino, p);
    } else if Create(fs, ino, Up(p)).Some? {
      CreateOutAgrees(fs, ino, Up(p));
      CreateEffect(fs, ino, Up(p));
      GrowOutBreaks(Create(fs, ino, Up(p)).value, ino, p);
    } else {
      q := CreateOutBreaks(fs, ino, Up(p));
      CreateOutGoing(fs, ino, Up(p));
      var (gs, r) := CreateOut(fs, ino, Up(p));
      if Inside(fs, r) {
        FullGrows(gs, ino, p);
        FullKeeps(gs, ino, p, q);
      }
    }
  }

  /** The invariant of the file system outlives minix_bmap exactly when no zone was missing. */
  lemma CreateOutExactly(fs: Fs, ino: nat, p: seq<nat>)
    requires Wired(fs) && ino in fs.inodes && ValidPath(p) && CreateOut(fs, ino, p).1 != Panic
    ensures Wired(CreateOut(fs, ino, p).0) <==> Create(fs, ino, p).Some?
  {
    if Create(fs, ino, p).Some? {
      CreateOutAgrees(fs, ino, p);
      CreateEffect(fs, ino, p);
    } else {
      var q := CreateOutBreaks(fs, ino, p);
      hide Create, CreateOut, At;
    }
  }

  /** Two files that ask a full disk for a block get the same one. */
  lemma FullShares(fs: Fs, i: nat, j: nat, k: nat)
    requires Wired(fs) && Full(fs) && i in fs.inodes && j in fs.inodes && i != j && k < DIRECT_BLOCK
    requires fs.inodes[i].zone[k] == 0 && fs.inodes[j].zone[k] == 0
    ensures var gs := CreateOut(fs, i, [k]).0;
            && j in gs.inodes
            && var hs := CreateOut(gs, j, [k]).0;
               i in hs.inodes && At(hs, i, [k]) == At(hs, j, [k]) == 0xFF9C
  {
    ScanFails(fs.zmap);
    var gs := SetSlot(Disowned(fs), i, [k], NO_ZONE);
    assert CreateOut(fs, i, [k]).0 == gs;
    assert CreateOut(gs, j, [k]).0 == SetSlot(Disowned(gs), j, [k], NO_ZONE);
  }

  /** Nine blocks with every bit set, and two empty files. */
  function FullDisk(front: seq<Block>): Fs
    requires |front| == 6
  {
    Fs(front + [ZeroBlock(), ZeroBlock(), ZeroBlock()],
       seq(8 * BLOCK_SIZE, i => true),
       5,
       map[2 := EMPTY_FILE, 3 := EMPTY_FILE],
       map[])
  }

  lemma {:induction false} FullDiskAt(front: seq<Block>, i: nat, p: seq<nat>)
    requires |front| == 6 && 2 <= i <= 3 && ValidPath(p)
    ensures At(FullDisk(front), i, p) == 0
    decreases |p|
  {
    if |p| > 1 {
      FullDiskAt(front, i, Up(p));
    }
  }

  lemma FullDiskShares(front: seq<Block>)
    requires |front| == 6
    ensures var fs := FullDisk(front);
            && Wired(fs) && Full(fs)
            && var gs := CreateOut(fs, 2, [0]).0;
               3 in gs.inodes
               && var hs := CreateOut(gs, 3, [0]).0; 2 in hs.inodes && At(hs, 2, [0]) == At(hs, 3, [0]) == 0xFF9C
  {
    var fs := FullDisk(front);
    forall i, p | i in fs.inodes && ValidPath(p)
      ensures At(fs, i, p) == 0
    {
      FullDiskAt(front, i, p);
    }
    hide At;
    FullShares(fs, 2, 3, 0);
  }

  /** On a disk with that zone, a write to one file then changes the bytes of the file it belongs to. */
  lemma FullOverwrites(fs: Fs, i: nat, k: nat, j: nat, m: nat, b: Byte)
    requires Wired(fs) && Full(fs) && 0xFF9C < |fs.zones| && i in fs.inodes && j in fs.inodes && i != j
    requires k < DIRECT_BLOCK && m < DIRECT_BLOCK && fs.inodes[i].zone[k] == 0 && fs.inodes[j].zone[m] == 0xFF9C
    ensures var (hs, ok) := WriteOut(fs, i, [b], 1024 * k);
            && ok && j in hs.inodes && hs.inodes[j] == fs.inodes[j]
            && Data(hs, j, [m]) == Data(fs, j, [m])[0 := b]
  {
    ScanFails(fs.zmap);
    hide Wired, Bitmap.FirstFit;
    var gs := SetSlot(Disowned(fs), i, [k], NO_ZONE);
    assert BlockPath(k) == [k];
    assert CreateOut(fs, i, [k]) == (gs, Zone(NO_ZONE));
    assert (1024 * k) / BLOCK_SIZE == k && (1024 * k) % BLOCK_SIZE == 0;
    assert ChunkLength(1024 * k, 1) == 1 && [b][..1] == [b] && [b][1..] == [];
    var z := gs.zones[NO_ZONE];
    assert Splice(z, 0, [b]) == z[0 := b];
    hide CreateOut;
    assert PassOut(fs, i, 1024 * k, [b]).1;
    assert WriteOut(fs, i, [b], 1024 * k) == WriteOut(PassOut(fs, i, 1024 * k, [b]).0, i, [], 1024 * k + 1);
  }

  // How much space a block needs.

  function ClearBits(b: seq<bool>): nat {
    if b == [] then 0 else (if b[0] then 0 else 1) + ClearBits(b[1..])
  }

  lemma {:induction false} ClearTaken(b: seq<bool>, k: nat)
    requires k < |b| && !b[k]
    ensures ClearBits(b[k := true]) + 1 == ClearBits(b)
    decreases |b|
  {
    var c := b[k := true];
    if k == 0 {
      assert c[1..] == b[1..];
    } else {
      assert c[1..] == b[1..][k - 1 := true];
      ClearTaken(b[1..], k - 1);
    }
  }

  lemma {:induction false} NoneClear(b: seq<bool>)
    ensures ClearBits(b) == 0 <==> forall k | 0 <= k < |b| :: b[k]
    decreases |b|
  {
    if b != [] {
      NoneClear(b[1..]);
      assert forall k | 0 < k < |b| :: b[k] == b[1..][k - 1];
      assert forall k | 0 <= k < |b| - 1 :: b[1..][k] == b[k + 1];
    }
  }

  /** The slots without a zone on the way to `p`. */
  function Missing(fs: Fs, ino: nat, p: seq<nat>): nat
    requires ino in fs.inodes && ValidPath(p)
    decreases |p|
  {
    (if At(fs, ino, p) == 0 then 1 else 0) + if |p| == 1 then 0 else Missing(fs, ino, Up(p))
  }

  /** Every clear bit stands for a zone of the disk; a clear bit past the last zone ends in a panic. */
  predicate Mapped(fs: Fs) {
    forall k | 0 <= k < |fs.zmap| && !fs.zmap[k] :: k + fs.first <= |fs.zones|
  }

  lemma GrowSpace(fs: Fs, ino: nat, p: seq<nat>)
    requires Wired(fs) && Mapped(fs) && ino in fs.inodes && ValidPath(p)
    ensures Grow(fs, ino, p).Some? <==> At(fs, ino, p) != 0 || ClearBits(fs.zmap) > 0
    ensures Grow(fs, ino, p).Some? ==>
              var gs := Grow(fs, ino, p).value;
              && Mapped(gs)
              && ClearBits(gs.zmap) + (if At(fs, ino, p) == 0 then 1 else 0) == ClearBits(fs.zmap)
  {
    hide At, ClearBits, Owned, FreshZero;
    NoneClear(fs.zmap);
    var k := Bitmap.FirstFit(fs.zmap, 1);
    ScanFails(fs.zmap);
    if k < |fs.zmap| {
      assert Bitmap.Clear(fs.zmap, k, 1) && !fs.zmap[k];
      ClearTaken(fs.zmap, k);
    }
    hide Bitmap.FirstFit;
  }

  /** minix_bmap finds all zones it needs exactly when there are as many free as slots without one. */
  lemma {:induction false} CreateFits(fs: Fs, ino: nat, p: seq<nat>)
    requires Wired(fs) && Mapped(fs) && ino in fs.inodes && ValidPath(p)
    ensures Create(fs, ino, p).Some? <==> Missing(fs, ino, p) <= ClearBits(fs.zmap)
    ensures Create(fs, ino, p).Some? ==>
              var gs := Create(fs, ino, p).value;
              Mapped(gs) && ClearBits(gs.zmap) + Missing(fs, ino, p) == ClearBits(fs.zmap)
    decreases |p|
  {
    hide Wired, ClearBits, At, Grow, Extends;
    if |p| == 1 {
      GrowSpace(fs, ino, p);
    } else {
      CreateFits(fs, ino, Up(p));
      if Create(fs, ino, Up(p)).Some? {
        var gs := Create(fs, ino, Up(p)).value;
        CreateEffect(fs, ino, Up(p));
        BelowKept(fs, gs, ino, p);
        GrowSpace(gs, ino, p);
      }
    }
  }

  lemma BelowKept(fs: Fs, gs: Fs, ino: nat, p: seq<nat>)
    requires ino in fs.inodes && ValidPath(p) && |p| > 1 && Extends(fs, gs, ino, Up(p))
    ensures ino in gs.inodes && At(gs, ino, p) == At(fs, ino, p)
  {
    hide At, Data;
  }

  // Free zones are not cleared before they are handed out.

  /** A new table reads as the zone it was made of: it is empty exactly when the zone held zeros. */
  lemma NewTable(fs: Fs, ino: nat, p: seq<nat>, z: nat, k: nat)
    requires Sane(fs) && Owned(fs) && ino in fs.inodes && ValidPath(p) && |p| < Depth(p[0]) && k < BLOCK_INDEXES
    requires At(fs, ino, p) == 0 && (|p| > 1 ==> At(fs, ino, Up(p)) != 0) && Balloc(fs) == Some(z) && z !in fs.owner
    ensures var gs := GrowOut(fs, ino, p).0; ValidPath(p + [k]) && At(gs, ino, p + [k]) == Entry(fs.zones[z], k)
  {
    hide Entry, SetEntry, Bitmap.FirstFit;
    var fs1 := fs.(zmap := fs.zmap[z + 1 - fs.first := true], owner := fs.owner[z := (ino, p)]);
    var gs := GrowOut(fs, ino, p).0;
    assert gs == SetSlot(fs1, ino, p, z);
    assert Up(p + [k]) == p && Last(p + [k]) == k;
    SlotTaken(fs, ino, p, z);
    if |p| > 1 {
      AtSameTables(fs, fs1, ino, Up(p));
      assert At(fs, ino, Up(p)) in fs.owner;
    }
  }

  lemma TableInside(fs: Fs, ino: nat, q: seq<nat>)
    requires Sane(fs) && Owned(fs) && ino in fs.inodes && ValidPath(q)
    ensures At(fs, ino, q) < |fs.zones| || At(fs, ino, q) == 0
  {
    hide At;
  }

  lemma ZoneBit(fs: Fs, z: nat)
    requires Sane(fs) && Balloc(fs) == Some(z)
    ensures z < 0x10000 && 0 <= z + 1 - fs.first < |fs.zmap|
  {
    hide Bitmap.FirstFit;
  }

  lemma SlotTaken(fs: Fs, ino: nat, p: seq<nat>, z: nat)
    requires Sane(fs) && Owned(fs) && ino in fs.inodes && ValidPath(p) && (|p| > 1 ==> At(fs, ino, Up(p)) != 0)
    requires At(fs, ino, p) == 0 && Balloc(fs) == Some(z) && z !in fs.owner
    ensures z < 0x10000 && 0 <= z + 1 - fs.first < |fs.zmap| && At(Grown(fs, ino, p, z), ino, p) == z
  {
    hide SetSlot, At, Owned, Sane, Balloc;
    if |p| > 1 {
      TableInside(fs, ino, Up(p));
    }
    ZoneBit(fs, z);
    var fs1 := fs.(zmap := fs.zmap[z + 1 - fs.first := true], owner := fs.owner[z := (ino, p)]);
    SlotSet(fs, ino, p, z);
    SameSlot(fs, fs1, ino, p, z);
    AtSameTables(SetSlot(fs, ino, p, z), SetSlot(fs1, ino, p, z), ino, p);
  }

  lemma SameSlot(fs: Fs, gs: Fs, ino: nat, p: seq<nat>, z: nat)
    requires gs.zones == fs.zones && gs.inodes == fs.inodes && ino in fs.inodes && ValidPath(p) && z < 0x10000
    ensures var (a, b) := (SetSlot(fs, ino, p, z), SetSlot(gs, ino, p, z));
            b.zones == a.zones && b.inodes == a.inodes && ino in a.inodes
  {
    if |p| > 1 {
      AtSameTables(fs, gs, ino, Up(p));
    }
  }

  /** A zone of another file named in the stale bytes: the new table leads to it. */
  lemma StaleTable(fs: Fs, ino: nat, z: nat, j: nat, m: nat, k: nat)
    requires Sane(fs) && Owned(fs) && ino in fs.inodes && fs.inodes[ino].zone[DIRECT_BLOCK] == 0 && k < BLOCK_INDEXES
    requires Balloc(fs) == Some(z) && z !in fs.owner && j in fs.inodes && j != ino && m < DIRECT_BLOCK
    requires Entry(fs.zones[z], k) == fs.inodes[j].zone[m] != 0
    ensures var gs := GrowOut(fs, ino, [DIRECT_BLOCK]).0;
            j in gs.inodes && At(gs, ino, [DIRECT_BLOCK, k]) == At(gs, j, [m]) != 0
  {
    hide Entry;
    NewTable(fs, ino, [DIRECT_BLOCK], z, k);
    assert [DIRECT_BLOCK] + [k] == [DIRECT_BLOCK, k];
  }

  /**
   * Nine blocks, six of them in front as minix_mkfs has them.  File 2 has zone 6,
   * and the free zone 7 still holds the number 6.
   */
  function StaleDisk(front: seq<Block>): Fs
    requires |front| == 6
  {
    Fs(front + [ZeroBlock(), ZeroBlock()[0 := 6], ZeroBlock()],
       seq(8 * BLOCK_SIZE, i => i < 3),
       5,
       map[2 := EMPTY_FILE.(zone := EMPTY_FILE.zone[0 := 6]), 3 := EMPTY_FILE],
       map[6 := (2, [0])])
  }

  lemma {:induction false} StaleDiskAt(front: seq<Block>, i: nat, p: seq<nat>)
    requires |front| == 6 && 2 <= i <= 3 && ValidPath(p)
    ensures At(StaleDisk(front), i, p) == if i == 2 && p == [0] then 6 else 0
    decreases |p|
  {
    if |p| == 1 {
      assert p == [p[0]];
    } else {
      StaleDiskAt(front, i, Up(p));
      assert Up(p)[0] == p[0] >= DIRECT_BLOCK;
    }
  }

  lemma StaleFree(front: seq<Block>)
    requires |front| == 6
    ensures Balloc(StaleDisk(front)) == Some(7)
  {
    var fs := StaleDisk(front);
    assert fs.zmap[0] && fs.zmap[1] && fs.zmap[2] && Bitmap.Clear(fs.zmap, 3, 1);
    assert Bitmap.FirstFit(fs.zmap, 1, 3) == 3;
    assert Bitmap.FirstFit(fs.zmap, 1, 2) == 3;
    assert Bitmap.FirstFit(fs.zmap, 1, 1) == 3;
  }

  /** The second file's eighth block is then the first file's first. */
  lemma StaleDiskShares(front: seq<Block>)
    requires |front| == 6
    ensures var fs := StaleDisk(front);
            && Sane(fs) && Owned(fs) && !FreshZero(fs)
            && var gs := GrowOut(fs, 3, [DIRECT_BLOCK]).0; At(gs, 3, BlockPath(7)) == At(gs, 2, BlockPath(0)) == 6
  {
    var fs := StaleDisk(front);
    forall i, p | i in fs.inodes && ValidPath(p) && At(fs, i, p) != 0
      ensures At(fs, i, p) in fs.owner && fs.owner[At(fs, i, p)] == (i, p)
    {
      StaleDiskAt(front, i, p);
    }
    assert fs.zones[7][0] != ZeroBlock()[0];
    StaleFree(front);
    hide Balloc, Bitmap.FirstFit;
    StaleTable(fs, 3, 7, 2, 0, 0);
  }
}
