/**
 * Files of the Minix file system (src/kernel/fs/minix/minix.c) over the plain
 * disk that the buffer cache stands for.
 */
module MinixFs {
  import opened Prelude
  import Bitmap

  const BLOCK_SIZE: nat := 1024
  const BLOCK_INDEXES: nat := 512
  const DIRECT_BLOCK: nat := 7
  const TOTAL_BLOCK: nat := 7 + 512 + 512 * 512

  function ZeroBlock(): (b: seq<Byte>)
    ensures |b| == BLOCK_SIZE && forall i | 0 <= i < BLOCK_SIZE :: b[i] == 0
  {
    seq(BLOCK_SIZE, i => 0)
  }

  type Block = b: seq<Byte> | |b| == BLOCK_SIZE witness ZeroBlock()

  /** zone[9] of an inode: seven blocks, a table of blocks, a table of tables. */
  type Zones = z: seq<nat> | |z| == 9 witness [0, 0, 0, 0, 0, 0, 0, 0, 0]

  datatype Inode = Inode(zone: Zones, size: nat)

  const EMPTY_FILE: Inode := Inode([0, 0, 0, 0, 0, 0, 0, 0, 0], 0)

  /**
   * `zmap` is the zone bitmap, whose bit k is zone first - 1 + k.  `owner` says
   * for each zone handed out where it was hung in.
   */
  datatype Fs = Fs(
    zones: seq<Block>,
    zmap: seq<bool>,
    first: nat,
    inodes: map<nat, Inode>,
    owner: map<nat, (nat, seq<nat>)>)

  // Tables.

  /** Entry i of a block read as u16[]. */
  function Entry(b: Block, i: nat): (v: nat)
    requires i < BLOCK_INDEXES
    ensures v < 0x10000
  {
    var low: int, high: int := b[2 * i], b[2 * i + 1];
    low + 256 * high
  }

  function SetEntry(b: Block, i: nat, v: nat): Block
    requires i < BLOCK_INDEXES && v < 0x10000
  {
    b[2 * i := v % 256][2 * i + 1 := v / 256]
  }

  lemma EntryOfSet(b: Block, i: nat, v: nat, j: nat)
    requires i < BLOCK_INDEXES && v < 0x10000 && j < BLOCK_INDEXES
    ensures Entry(SetEntry(b, i, v), j) == if j == i then v else Entry(b, j)
  {
  }

  // Paths: the place in zone[], then the places in the tables below it.

  function Depth(k: nat): nat {
    if k < DIRECT_BLOCK then 1 else if k == DIRECT_BLOCK then 2 else 3
  }

  predicate ValidPath(p: seq<nat>) {
    0 < |p| && p[0] < 9 && |p| <= Depth(p[0]) && forall i | 0 < i < |p| :: p[i] < BLOCK_INDEXES
  }

  function Up(p: seq<nat>): (q: seq<nat>)
    requires |p| > 1
    ensures ValidPath(p) ==> ValidPath(q)
  {
    p[..|p| - 1]
  }

  function Last(p: seq<nat>): nat
    requires p != []
  {
    p[|p| - 1]
  }

  /** The path minix_bmap takes to a block. */
  function BlockPath(block: nat): (p: seq<nat>)
    requires block < TOTAL_BLOCK
    ensures ValidPath(p) && |p| == Depth(p[0])
  {
    if block < DIRECT_BLOCK then [block]
    else if block < DIRECT_BLOCK + BLOCK_INDEXES then [DIRECT_BLOCK, block - DIRECT_BLOCK]
    else
      var b := block - DIRECT_BLOCK - BLOCK_INDEXES;
      [DIRECT_BLOCK + 1, b / BLOCK_INDEXES, b % BLOCK_INDEXES]
  }

  lemma BlockPathInjective(a: nat, b: nat)
    requires a < TOTAL_BLOCK && b < TOTAL_BLOCK && BlockPath(a) == BlockPath(b)
    ensures a == b
  {
    assert BlockPath(a)[0] == BlockPath(b)[0];
    if a >= DIRECT_BLOCK {
      assert BlockPath(a)[1] == BlockPath(b)[1];
      if a >= DIRECT_BLOCK + BLOCK_INDEXES {
        assert BlockPath(a)[2] == BlockPath(b)[2];
      }
    }
  }

  /** `p` comes before `q` as words do in a dictionary. */
  predicate Before(p: seq<nat>, q: seq<nat>)
    decreases |p|
  {
    if p == [] || q == [] then p == [] && q != []
    else p[0] < q[0] || (p[0] == q[0] && Before(p[1..], q[1..]))
  }

  /** The blocks of a file take the ways through its tables in their order. */
  lemma BlockPathOrdered(a: nat, b: nat)
    requires a < TOTAL_BLOCK && b < TOTAL_BLOCK
    ensures a < b <==> Before(BlockPath(a), BlockPath(b))
  {
    var p, q := BlockPath(a), BlockPath(b);
    if p[0] == q[0] && |p| > 1 {
      assert Before(p[1..], q[1..]) <==> p[1] < q[1] || (p[1] == q[1] && Before(p[2..], q[2..])) by {
        assert p[1..][1..] == p[2..] && q[1..][1..] == q[2..];
      }
      if |p| > 2 {
        assert p[2..] == [p[2]] && q[2..] == [q[2]] && [p[2]][1..] == [] && [q[2]][1..] == [];
        assert Before(p[2..], q[2..]) <==> p[2] < q[2];
      } else {
        assert p[2..] == [] && q[2..] == [];
      }
    } else {
      assert |p| == 1 ==> p[1..] == [];
      assert |q| == 1 ==> q[1..] == [];
    }
  }

  /** And they take all of them. */
  lemma BlockPathOnto(p: seq<nat>) returns (block: nat)
    requires ValidPath(p) && |p| == Depth(p[0])
    ensures block < TOTAL_BLOCK && BlockPath(block) == p
  {
    if |p| == 1 {
      block := p[0];
      assert p == [p[0]];
    } else if |p| == 2 {
      block := DIRECT_BLOCK + p[1];
      assert p == [p[0], p[1]];
    } else {
      block := DIRECT_BLOCK + BLOCK_INDEXES + p[1] * BLOCK_INDEXES + p[2];
      assert p == [p[0], p[1], p[2]];
      assert (p[1] * BLOCK_INDEXES + p[2]) / BLOCK_INDEXES == p[1];
    }
  }

  /** The zone a path leads to, 0 if there is none. */
  function At(fs: Fs, ino: nat, p: seq<nat>): nat
    requires ino in fs.inodes && ValidPath(p)
    decreases |p|
  {
    if |p| == 1 then fs.inodes[ino].zone[p[0]]
    else
      var z := At(fs, ino, Up(p));
      if z == 0 || z >= |fs.zones| then 0 else Entry(fs.zones[z], Last(p))
  }

  /** The number at bytes 2k and 2k + 1 of zone `z`, low byte first; 0 if there is no such zone. */
  function Follow(zones: seq<Block>, z: nat, k: nat): nat
    requires k < 512
  {
    if z == 0 || z >= |zones| then 0
    else
      var low: int, high: int := zones[z][2 * k], zones[z][2 * k + 1];
      low + 256 * high
  }

  /** Where block `block` of a file lies, read off the inode and the bytes of the disk. */
  function ZoneOf(zones: seq<Block>, zone: Zones, block: nat): nat
    requires block < 7 + 512 + 512 * 512
  {
    if block < 7 then zone[block]
    else if block < 519 then Follow(zones, zone[7], block - 7)
    else Follow(zones, Follow(zones, zone[8], (block - 519) / 512), (block - 519) % 512)
  }

  lemma AtIsZoneOf(fs: Fs, ino: nat, block: nat)
    requires ino in fs.inodes && block < TOTAL_BLOCK
    ensures At(fs, ino, BlockPath(block)) == ZoneOf(fs.zones, fs.inodes[ino].zone, block)
  {
    var p := BlockPath(block);
    if block >= DIRECT_BLOCK {
      assert Up(p)[0] == p[0];
      if block >= DIRECT_BLOCK + BLOCK_INDEXES {
        assert Up(Up(p)) == [p[0]] && Last(Up(p)) == p[1];
        assert At(fs, ino, Up(p)) == Follow(fs.zones, fs.inodes[ino].zone[8], p[1]);
      } else {
        assert Up(p) == [p[0]];
      }
    }
  }

  /** A path to the end of which belong the bytes of a file. */
  predicate Leaf(p: seq<nat>) {
    ValidPath(p) && |p| == Depth(p[0])
  }

  /** The bytes a path leads to; zeros where there is no zone. */
  function Data(fs: Fs, ino: nat, p: seq<nat>): Block
    requires ino in fs.inodes && ValidPath(p)
  {
    var z := At(fs, ino, p);
    if z == 0 || z >= |fs.zones| then ZeroBlock() else fs.zones[z]
  }

  // Operations.

  /** minix_balloc; None when no zone is free. */
  function Balloc(fs: Fs): (r: Option<nat>)
    ensures r.Some? ==>
              && fs.first - 1 <= r.value < |fs.zones| && 0 <= r.value + 1 - fs.first < |fs.zmap|
              && !fs.zmap[r.value + 1 - fs.first]
  {
    var k := Bitmap.FirstFit(fs.zmap, 1);
    if k == |fs.zmap| || k + fs.first == 0 || k + fs.first - 1 >= |fs.zones| then None
    else assert Bitmap.Clear(fs.zmap, k, 1); Some(k + fs.first - 1)
  }

  /** Writes zone `z` into the slot a path names. */
  function SetSlot(fs: Fs, ino: nat, p: seq<nat>, z: nat): Fs
    requires ino in fs.inodes && ValidPath(p) && z < 0x10000
  {
    if |p| == 1 then
      fs.(inodes := fs.inodes[ino := fs.inodes[ino].(zone := fs.inodes[ino].zone[p[0] := z])])
    else
      var w := At(fs, ino, Up(p));
      if w >= |fs.zones| then fs
      else fs.(zones := fs.zones[w := SetEntry(fs.zones[w], Last(p), z)])
  }

  /** One round of the creating loop in minix_bmap. */
  function Grow(fs: Fs, ino: nat, p: seq<nat>): Option<Fs>
    requires ino in fs.inodes && ValidPath(p)
  {
    if At(fs, ino, p) != 0 then Some(fs)
    else match Balloc(fs)
      case None => None
      case Some(z) =>
        if z >= 0x10000 then None
        else
          var fs1 := fs.(zmap := fs.zmap[z + 1 - fs.first := true], owner := fs.owner[z := (ino, p)]);
          Some(SetSlot(fs1, ino, p, z))
  }

  /** minix_bmap with `create`, for the slots from the top down to `p`. */
  function Create(fs: Fs, ino: nat, p: seq<nat>): (r: Option<Fs>)
    requires ino in fs.inodes && ValidPath(p)
    ensures r.Some? ==> ino in r.value.inodes
    decreases |p|
  {
    if |p| == 1 then Grow(fs, ino, p)
    else match Create(fs, ino, Up(p))
      case None => None
      case Some(fs1) => Grow(fs1, ino, p)
  }

  // What the file system keeps.

  predicate Sane(fs: Fs) {
    && 2 <= fs.first && |fs.zones| <= 0xFFFF
    && (forall z | z in fs.owner ::
         fs.first <= z + 1 && z < |fs.zones| && z + 1 - fs.first < |fs.zmap| && fs.zmap[z + 1 - fs.first])
  }

  /** Zones nobody has are zero. */
  predicate FreshZero(fs: Fs) {
    forall z | 0 <= z < |fs.zones| && fs.first <= z + 1 && z + 1 - fs.first < |fs.zmap| && !fs.zmap[z + 1 - fs.first] ::
      fs.zones[z] == ZeroBlock()
  }

  /** Every zone that hangs somewhere hangs exactly where its owner entry says. */
  ghost predicate Owned(fs: Fs) {
    forall ino, p | ino in fs.inodes && ValidPath(p) && At(fs, ino, p) != 0 ::
      At(fs, ino, p) in fs.owner && fs.owner[At(fs, ino, p)] == (ino, p)
  }

  ghost predicate Wired(fs: Fs) {
    Sane(fs) && FreshZero(fs) && Owned(fs)
  }
}
