/** minix_balloc, minix_bmap, minix_read and minix_write as the code runs them. */
module MinixDisk {
  import opened Prelude
  import opened MinixFs
  import opened MinixProofs
  import opened MinixFiles
  import opened MinixSpace
  import Bitmap

  lemma Prefix(path: seq<nat>, k: nat)
    requires ValidPath(path) && 0 < k <= |path|
    ensures ValidPath(path[..k]) && Last(path[..k]) == path[k - 1]
    ensures k > 1 ==> Up(path[..k]) == path[..k - 1]
  {
  }

  predicate FirstFree(zmap: seq<bool>, k: int) {
    0 <= k < |zmap| && !zmap[k] && forall i | 0 <= i < k :: zmap[i]
  }

  class Disk {
    var zones: seq<Block>
    var zmap: seq<bool>
    const first: nat
    var inodes: map<nat, Inode>
    ghost var owner: map<nat, (nat, seq<nat>)>

    ghost function State(): Fs
      reads this
    {
      Fs(zones, zmap, first, inodes, owner)
    }

    constructor (fs: Fs)
      ensures State() == fs
    {
      zones, zmap, first, inodes, owner := fs.zones, fs.zmap, fs.first, fs.inodes, fs.owner;
    }

    /** minix_balloc */
    method AllocZone() returns (r: Reply)
      modifies this`zmap
      ensures r == BallocOut(old(State()))
      ensures var k := Bitmap.FirstFit(old(zmap), 1);
              zmap == if k < |old(zmap)| then old(zmap)[k := true] else old(zmap)
      ensures Full(old(State())) ==> zmap == old(zmap) && r == Zone(0xFFFF_FF9C)
      ensures forall k | FirstFree(old(zmap), k) ::
                zmap == old(zmap)[k := true] && r == if 0 <= k + first - 1 < |zones| then Zone(k + first - 1) else Panic
    {
      var k := 0;
      while k < |zmap| && zmap[k]
        invariant 0 <= k <= |zmap| && forall i | 0 <= i < k :: zmap[i]
      {
        k := k + 1;
      }
      FirstClear(zmap, k, 0);
      if k == |zmap| {
        return Zone(EOF);
      }
      var bit := k + first - 1;
      zmap := zmap[k := true];
      if 0 <= bit < |zones| {
        r := Zone(bit);
      } else {
        r := Panic;
      }
    }

    /** Entry `index` of the inode's own table (cur 0) or of the table in zone `cur`. */
    function Slot(ino: nat, cur: nat, index: nat): nat
      requires ino in inodes && cur < |zones| + 1
      requires if cur == 0 then index < 9 else cur < |zones| && index < BLOCK_INDEXES
      reads this
    {
      if cur == 0 then inodes[ino].zone[index] else Entry(zones[cur], index)
    }

    /** Writes zone `z` into the slot. */
    method SetEntryAt(ino: nat, cur: nat, index: nat, z: nat, ghost p: seq<nat>)
      requires ino in inodes && ValidPath(p) && index == Last(p) && z < 0x10000
      requires if |p| == 1 then cur == 0 else cur == At(State(), ino, Up(p)) && 0 != cur < |zones|
      modifies this`inodes, this`zones
      ensures State() == SetSlot(old(State()), ino, p, z)
    {
      hide Entry, SetEntry, At;
      if cur == 0 {
        inodes := inodes[ino := inodes[ino].(zone := inodes[ino].zone[index := z])];
      } else {
        zones := zones[cur := SetEntry(zones[cur], index, z)];
      }
    }

    /** Hangs a new zone into an empty slot. */
    method GrowSlot(ino: nat, cur: nat, index: nat, ghost p: seq<nat>) returns (r: Reply)
      requires Going(State()) && ino in inodes && ValidPath(p) && index == Last(p) && At(State(), ino, p) == 0
      requires if |p| == 1 then cur == 0 else cur == At(State(), ino, Up(p)) && 0 != cur < |zones|
      modifies this
      ensures (State(), r) == GrowOut(old(State()), ino, p)
    {
      hide Going, Full, GrowOut, SetSlot, At, BallocOut, Bitmap.FirstFit, FirstFree;
      ghost var fs := State();
      GrowOutCases(fs, ino, p);
      r := AllocZone();
      if r == Panic {
        return;
      }
      assert !Full(fs) ==> r.nr < 0x10000;
      var z := r.nr % 0x10000;
      owner := if Full(fs) then owner - {z} else owner[z := (ino, p)];
      if |p| > 1 {
        AtSameTables(fs, State(), ino, Up(p));
      }
      SetEntryAt(ino, cur, index, z, p);
      r := Zone(z);
    }

    /** minix_bmap without `create`; 0 when the block has no zone. */
    method Bmap(ino: nat, block: nat) returns (nr: nat)
      requires Wired(State()) && ino in inodes && block < TOTAL_BLOCK
      ensures nr == At(State(), ino, BlockPath(block)) == ZoneOf(zones, inodes[ino].zone, block)
    {
      hide Wired, BlockPath, Entry, ZoneOf;
      AtIsZoneOf(State(), ino, block);
      var index: nat, level: int, divider: nat, rest: nat := Start(block);
      ghost var path := BlockPath(block);
      StartPath(block);
      var cur := 0;
      while level >= 0
        invariant 0 <= level < |path| && On(path, level, index, divider, rest)
        invariant if level == |path| - 1 then cur == 0
                  else cur != 0 && cur == At(State(), ino, path[..|path| - 1 - level])
        decreases level
      {
        Prefix(path, |path| - level);
        if cur != 0 {
          AtBound(State(), ino, path[..|path| - 1 - level]);
        }
        nr := Slot(ino, cur, index);
        assert nr == At(State(), ino, path[..|path| - level]);
        if nr == 0 {
          NoWay(State(), ino, path, |path| - level);
          return;
        }
        if level == 0 {
          assert path[..|path|] == path;
          return;
        }
        cur := nr;
        NextOn(path, level, index, divider, rest);
        index, rest, divider, level := rest / divider, rest % divider, divider / BLOCK_INDEXES, level - 1;
      }
    }

    /** One round of the loop of minix_bmap with `create`. */
    method Round(ino: nat, cur: nat, index: nat, ghost fs: Fs, ghost p: seq<nat>) returns (r: Reply)
      requires ino in fs.inodes && Going(State()) && ino in inodes && ValidPath(p) && index == Last(p)
      requires |zones| == |fs.zones|
      requires if |p| == 1 then cur == 0 && State() == fs
               else cur == At(State(), ino, Up(p)) && 0 != cur < |zones|
                    && CreateOut(fs, ino, Up(p)) == (State(), Zone(cur))
      modifies this
      ensures CreateOut(fs, ino, p) == (State(), r) && |zones| == |fs.zones| && ino in inodes
      ensures Inside(State(), r) ==> Going(State()) && r.nr == At(State(), ino, p) != 0
    {
      hide Going, Entry, CreateOut, GrowOut, At;
      ghost var here := State();
      CreateOutStep(fs, here, ino, p);
      GrowOutGoing(here, ino, p);
      var nr := Slot(ino, cur, index);
      SlotAt(here, ino, p);
      r := Zone(nr);
      if nr == 0 {
        r := GrowSlot(ino, cur, index, p);
      } else {
        GrowOutKeeps(here, ino, p);
      }
    }

    /** minix_bmap with `create`. */
    method BmapCreate(ino: nat, block: nat) returns (r: Reply)
      requires Going(State()) && ino in inodes && block < TOTAL_BLOCK
      modifies this
      ensures (State(), r) == CreateOut(old(State()), ino, BlockPath(block)) && ino in inodes
      ensures Inside(State(), r) ==>
                && Going(State()) && r.nr == At(State(), ino, BlockPath(block)) != 0
                && r.nr == ZoneOf(zones, inodes[ino].zone, block)
      ensures Wired(old(State())) && Create(old(State()), ino, BlockPath(block)).Some? ==>
                Inside(State(), r) && Create(old(State()), ino, BlockPath(block)) == Some(State())
      ensures Wired(old(State())) && Create(old(State()), ino, BlockPath(block)).None? && Inside(State(), r) ==>
                0xFF9C < |zones|
    {
      hide Wired, Going, BlockPath, Entry, Create, CreateOut, GrowOut, At, ZoneOf;
      ghost var fs := State();
      var index: nat, level: int, divider: nat, rest: nat := Start(block);
      ghost var path := BlockPath(block);
      StartPath(block);
      CreateOutZones(fs, ino, path);
      if Wired(fs) {
        CreateOutAgrees(fs, ino, path);
      }
      var cur := 0;
      while level >= 0
        invariant 0 <= level < |path| && On(path, level, index, divider, rest)
        invariant Going(State()) && ino in inodes && |zones| == |fs.zones|
        invariant if level == |path| - 1 then cur == 0 && State() == fs
                  else 0 != cur < |zones| && cur == At(State(), ino, path[..|path| - 1 - level])
                       && CreateOut(fs, ino, path[..|path| - 1 - level]) == (State(), Zone(cur))
        decreases level
      {
        ghost var p := path[..|path| - level];
        Prefix(path, |path| - level);
        r := Round(ino, cur, index, fs, p);
        if level == 0 {
          assert p == path;
          AtIsZoneOf(State(), ino, block);
          return;
        }
        if !r.Zone? || r.nr >= |zones| {
          CreateOutStops(fs, ino, path, |path| - level);
          if r.Zone? {
            r := Beyond;
          }
          return;
        }
        cur := r.nr;
        NextOn(path, level, index, divider, rest);
        index, rest, divider, level := rest / divider, rest % divider, divider / BLOCK_INDEXES, level - 1;
      }
    }

    /** minix_read of an ordinary file. */
    method Read(ino: nat, len: nat, offset: nat) returns (r: Outcome)
      requires Wired(State()) && ino in inodes
      ensures r == ReadAt(State(), ino, len, offset)
    {
      hide Wired, At, BlockPath, ReadBytes, ChunkLength;
      ghost var fs := State();
      var size := inodes[ino].size;
      if offset >= size {
        return Eof;
      }
      var left: nat, at: nat, data: seq<Byte> := Min(len, size - offset), offset, [];
      ghost var all := left;
      ReadOn(fs, ino, left, at, []);
      while left > 0
        invariant ReadFrom(fs, ino, left, at, data) == ReadBytes(fs, ino, all, offset)
      {
        ReadFromPass(fs, ino, left, at, data);
        if at / BLOCK_SIZE >= TOTAL_BLOCK {
          return Hole;
        }
        var nr := Bmap(ino, at / BLOCK_SIZE);
        if nr == 0 {
          return Hole;
        }
        AtBound(fs, ino, BlockPath(at / BLOCK_SIZE));
        var start, chars := at % BLOCK_SIZE, ChunkLength(at, left);
        data := data + zones[nr][start..start + chars];
        at, left := at + chars, left - chars;
      }
      ReadNothing(fs, ino, at);
      r := Got(data);
    }

    /** minix_write of an ordinary file; false when the loop does not get to its end. */
    method Write(ino: nat, data: seq<Byte>, offset: nat) returns (ok: bool)
      requires Going(State()) && ino in inodes
      modifies this
      ensures (State(), ok) == WriteOut(old(State()), ino, data, offset)
      ensures Wired(old(State())) && WriteAt(old(State()), ino, data, offset).Some? ==>
                ok && WriteAt(old(State()), ino, data, offset) == Some(State()) && Wired(State())
      ensures Wired(old(State())) && WriteAt(old(State()), ino, data, offset).None? && ok ==> 0xFF9C < |old(zones)|
    {
      hide Wired, Going, At, BlockPath, WriteAt, ChunkLength, WriteOut, PassOut;
      if Wired(State()) {
        WriteOutAgrees(State(), ino, data, offset);
        if WriteAt(State(), ino, data, offset).Some? {
          WriteEffect(State(), ino, data, offset);
        }
      }
      var at: nat, done: nat := offset, 0;
      assert data[0..] == data;
      while done < |data|
        invariant done <= |data| && Going(State()) && ino in inodes
        invariant WriteOut(State(), ino, data[done..], at) == WriteOut(old(State()), ino, data, offset)
      {
        var left := |data| - done;
        var chars := ChunkLength(at, left);
        var chunk := data[done..done + chars];
        WritePass(State(), ino, data[done..], at);
        assert data[done..][..chars] == chunk && data[done..][chars..] == data[done + chars..];
        PassOutGoing(State(), ino, at, chunk);
        ok := Pass(ino, at, chunk);
        if !ok {
          return;
        }
        at, done := at + chars, done + chars;
      }
      assert data[done..] == [];
      WriteNothing(State(), ino, at);
      ok := true;
    }

    /** One pass of the loop of minix_write. */
    method Pass(ino: nat, at: nat, chunk: seq<Byte>) returns (ok: bool)
      requires Going(State()) && ino in inodes && at % BLOCK_SIZE + |chunk| <= BLOCK_SIZE
      modifies this
      ensures (State(), ok) == PassOut(old(State()), ino, at, chunk) && ino in inodes
    {
      hide Wired, Going, At, BlockPath, Create, CreateOut, Splice;
      if at / BLOCK_SIZE >= TOTAL_BLOCK {
        return false;
      }
      var r := BmapCreate(ino, at / BLOCK_SIZE);
      if !r.Zone? || r.nr >= |zones| {
        return false;
      }
      var nr, end := r.nr, at + |chunk|;
      if end > inodes[ino].size {
        inodes := inodes[ino := inodes[ino].(size := end)];
      }
      zones := zones[nr := Splice(zones[nr], at % BLOCK_SIZE, chunk)];
      SameInode(inodes, ino);
      ok := true;
    }
  }

  lemma SameInode(inodes: map<nat, Inode>, ino: nat)
    requires ino in inodes
    ensures inodes[ino := inodes[ino].(size := inodes[ino].size)] == inodes
  {
  }

  lemma WritePass(fs: Fs, ino: nat, data: seq<Byte>, offset: nat)
    requires ino in fs.inodes && data != []
    ensures var n := ChunkLength(offset, |data|);
            var pass := PassOut(fs, ino, offset, data[..n]);
            WriteOut(fs, ino, data, offset) == if pass.1 then WriteOut(pass.0, ino, data[n..], offset + n) else pass
  {
  }

  lemma WriteNothing(fs: Fs, ino: nat, offset: nat)
    requires ino in fs.inodes
    ensures WriteOut(fs, ino, [], offset) == (fs, true)
  {
  }

  /** What the read returns that has `data` so far. */
  ghost function ReadFrom(fs: Fs, ino: nat, left: nat, at: nat, data: seq<Byte>): Option<seq<Byte>>
    requires ino in fs.inodes
  {
    var rest := ReadBytes(fs, ino, left, at);
    if rest.None? then None else Some(data + rest.value)
  }

  lemma ReadOn(fs: Fs, ino: nat, left: nat, at: nat, data: seq<Byte>)
    requires ino in fs.inodes && data == []
    ensures ReadFrom(fs, ino, left, at, data) == ReadBytes(fs, ino, left, at)
  {
    var rest := ReadBytes(fs, ino, left, at);
    if rest.Some? {
      assert data + rest.value == rest.value;
    }
  }

  lemma ReadFromPass(fs: Fs, ino: nat, left: nat, at: nat, data: seq<Byte>)
    requires Wired(fs) && ino in fs.inodes && left > 0
    ensures var n, start := ChunkLength(at, left), at % BLOCK_SIZE;
            ReadFrom(fs, ino, left, at, data) ==
            if at / BLOCK_SIZE < TOTAL_BLOCK && At(fs, ino, BlockPath(at / BLOCK_SIZE)) != 0
            then ReadFrom(fs, ino, left - n, at + n, data + Data(fs, ino, BlockPath(at / BLOCK_SIZE))[start..start + n])
            else None
  {
    hide Wired, At, BlockPath, ReadBytes, Data, ChunkLength;
    ReadPass(fs, ino, left, at);
    var n, start := ChunkLength(at, left), at % BLOCK_SIZE;
    if at / BLOCK_SIZE < TOTAL_BLOCK {
      var chunk := Data(fs, ino, BlockPath(at / BLOCK_SIZE))[start..start + n];
      var rest := ReadBytes(fs, ino, left - n, at + n);
      if rest.Some? {
        assert data + (chunk + rest.value) == (data + chunk) + rest.value;
      }
    }
  }

  /** The index, level, divider and rest that minix_bmap starts with. */
  method Start(block: nat) returns (index: nat, level: int, divider: nat, rest: nat)
    requires block < TOTAL_BLOCK
    ensures (index, level, divider, rest) == StartOf(block)
  {
    index, level, divider, rest := block, 0, 1, block;
    if block >= DIRECT_BLOCK {
      rest := block - DIRECT_BLOCK;
      if rest < BLOCK_INDEXES {
        index, level, divider := DIRECT_BLOCK, 1, 1;
      } else {
        rest := rest - BLOCK_INDEXES;
        index, level, divider := DIRECT_BLOCK + 1, 2, BLOCK_INDEXES;
      }
    }
  }

  function StartOf(block: nat): (nat, int, nat, nat) {
    if block < DIRECT_BLOCK then (block, 0, 1, block)
    else if block < DIRECT_BLOCK + BLOCK_INDEXES then (DIRECT_BLOCK, 1, 1, block - DIRECT_BLOCK)
    else (DIRECT_BLOCK + 1, 2, BLOCK_INDEXES, block - DIRECT_BLOCK - BLOCK_INDEXES)
  }

  /** With `level` tables still below, the loop is at the right place of the path. */
  predicate On(path: seq<nat>, level: nat, index: nat, divider: nat, rest: nat) {
    && ValidPath(path) && level < |path| <= 3
    && index == path[|path| - 1 - level]
    && (level == 1 ==> divider == 1 && rest == path[|path| - 1])
    && (level == 2 ==>
          && divider == BLOCK_INDEXES && rest / BLOCK_INDEXES == path[|path| - 2]
          && rest % BLOCK_INDEXES == path[|path| - 1])
  }

  lemma StartPath(block: nat)
    requires block < TOTAL_BLOCK
    ensures var (index, level, divider, rest) := StartOf(block);
            0 <= level && level + 1 == |BlockPath(block)| && On(BlockPath(block), level, index, divider, rest)
  {
  }

  lemma NextOn(path: seq<nat>, level: nat, index: nat, divider: nat, rest: nat)
    requires On(path, level, index, divider, rest) && level > 0
    ensures divider > 0 && On(path, level - 1, rest / divider, divider / BLOCK_INDEXES, rest % divider)
  {
  }

  lemma SlotAt(fs: Fs, ino: nat, p: seq<nat>)
    requires ino in fs.inodes && ValidPath(p) && (|p| > 1 ==> 0 != At(fs, ino, Up(p)) < |fs.zones|)
    ensures At(fs, ino, p) == if |p| == 1 then fs.inodes[ino].zone[p[0]]
            else Entry(fs.zones[At(fs, ino, Up(p))], Last(p))
  {
  }

  lemma GrowOutKeeps(fs: Fs, ino: nat, p: seq<nat>)
    requires ino in fs.inodes && ValidPath(p) && At(fs, ino, p) != 0
    ensures GrowOut(fs, ino, p) == (fs, Zone(At(fs, ino, p)))
  {
  }

  lemma PassOutFull(fs: Fs, ino: nat, offset: nat, chunk: seq<Byte>)
    requires ino in fs.inodes && offset % BLOCK_SIZE + |chunk| <= BLOCK_SIZE && offset / BLOCK_SIZE < TOTAL_BLOCK
    requires Full(CreateOut(fs, ino, BlockPath(offset / BLOCK_SIZE)).0) && PassOut(fs, ino, offset, chunk).1
    ensures Full(PassOut(fs, ino, offset, chunk).0)
  {
    hide At, BlockPath, CreateOut, Splice;
  }

  lemma PassOutGoing(fs: Fs, ino: nat, offset: nat, chunk: seq<Byte>)
    requires Going(fs) && ino in fs.inodes && chunk != [] && offset % BLOCK_SIZE + |chunk| <= BLOCK_SIZE
    ensures PassOut(fs, ino, offset, chunk).1 ==> Going(PassOut(fs, ino, offset, chunk).0)
  {
    hide Wired, Full, At, BlockPath, Create, CreateOut, Splice;
    if PassOut(fs, ino, offset, chunk).1 {
      var p := BlockPath(offset / BLOCK_SIZE);
      CreateOutGoing(fs, ino, p);
      if Wired(fs) && Create(fs, ino, p).Some? {
        PassOutAgrees(fs, ino, offset, chunk);
        CreateEffect(fs, ino, p);
        AtBound(Create(fs, ino, p).value, ino, p);
        ChunkEffect(fs, ino, offset, chunk);
      } else {
        PassOutFull(fs, ino, offset, chunk);
      }
    }
  }

  /** What minix_balloc gives to a slot, and what the slot then makes of it. */
  lemma GrowOutCases(fs: Fs, ino: nat, p: seq<nat>)
    requires Going(fs) && ino in fs.inodes && ValidPath(p) && At(fs, ino, p) == 0
    ensures var k, b := Bitmap.FirstFit(fs.zmap, 1), BallocOut(fs);
            && !b.Beyond? && (Full(fs) <==> k == |fs.zmap|)
            && (Full(fs) ==>
                  b == Zone(EOF) && GrowOut(fs, ino, p) == (SetSlot(Disowned(fs), ino, p, NO_ZONE), Zone(NO_ZONE)))
            && (b == Panic ==> GrowOut(fs, ino, p) == (fs.(zmap := fs.zmap[k := true]), Panic))
            && (!Full(fs) && b.Zone? ==>
                  && b.nr == k + fs.first - 1 && b.nr < 0x10000
                  && GrowOut(fs, ino, p) ==
                     (SetSlot(fs.(zmap := fs.zmap[k := true], owner := fs.owner[b.nr := (ino, p)]), ino, p, b.nr), b))
  {
    ScanFails(fs.zmap);
    hide Owned, FreshZero, Bitmap.FirstFit, At, SetSlot;
    if !Full(fs) && Balloc(fs).Some? {
      NewZone(fs, Balloc(fs).value);
    }
  }

  lemma {:induction false} FirstClear(b: seq<bool>, k: nat, from: nat)
    requires from <= k <= |b| && (forall i | 0 <= i < k :: b[i]) && (k < |b| ==> !b[k])
    ensures Bitmap.FirstFit(b, 1, from) == k
    decreases k - from
  {
    if from < k {
      assert b[from];
      FirstClear(b, k, from + 1);
    }
  }
}
