/** The zones of all files stay apart, whatever is created or written. */
module MinixProofs {
  import opened Prelude
  import opened MinixFs
  import Bitmap

  lemma PathParts(p: seq<nat>, q: seq<nat>)
    requires |p| > 1 && |q| > 1 && Up(p) == Up(q) && Last(p) == Last(q)
    ensures p == q
  {
    assert p == Up(p) + [Last(p)] && q == Up(q) + [Last(q)];
  }

  lemma ZeroEntry(i: nat)
    requires i < BLOCK_INDEXES
    ensures Entry(ZeroBlock(), i) == 0
  {
  }

  /** The slot at `p` is empty, and so is the way for `z` to get there. */
  ghost predicate Ready(fs: Fs, ino: nat, p: seq<nat>, z: nat) {
    && Wired(fs) && ino in fs.inodes && ValidPath(p) && At(fs, ino, p) == 0
    && (|p| > 1 ==> At(fs, ino, Up(p)) != 0)
    && Balloc(fs) == Some(z)
  }

  function Grown(fs: Fs, ino: nat, p: seq<nat>, z: nat): Fs
    requires ino in fs.inodes && ValidPath(p) && z < 0x10000 && 0 <= z + 1 - fs.first < |fs.zmap|
  {
    SetSlot(fs.(zmap := fs.zmap[z + 1 - fs.first := true], owner := fs.owner[z := (ino, p)]), ino, p, z)
  }

  lemma {:induction false} AtSameTables(fs: Fs, gs: Fs, ino: nat, p: seq<nat>)
    requires gs.zones == fs.zones && gs.inodes == fs.inodes && ino in fs.inodes && ValidPath(p)
    ensures At(gs, ino, p) == At(fs, ino, p)
    decreases |p|
  {
    if |p| > 1 {
      AtSameTables(fs, gs, ino, Up(p));
    }
  }

  /** A new zone is nobody's. */
  lemma NewZone(fs: Fs, z: nat)
    requires Wired(fs) && Balloc(fs) == Some(z)
    ensures z !in fs.owner && z != 0 && z < |fs.zones| <= 0xFFFF && fs.zones[z] == ZeroBlock()
    ensures 0 <= z + 1 - fs.first < |fs.zmap|
  {
  }

  lemma AtBound(fs: Fs, i: nat, q: seq<nat>)
    requires Wired(fs) && i in fs.inodes && ValidPath(q)
    ensures At(fs, i, q) != 0 ==> At(fs, i, q) < |fs.zones|
  {
  }

  lemma GrownZones(fs: Fs, ino: nat, p: seq<nat>, z: nat, y: nat)
    requires Ready(fs, ino, p, z) && z < 0x10000 && 0 <= z + 1 - fs.first < |fs.zmap| && y < |fs.zones|
    ensures var gs := Grown(fs, ino, p, z);
            && |gs.zones| == |fs.zones|
            && (if |p| > 1 && y == At(fs, ino, Up(p)) then gs.zones[y] == SetEntry(fs.zones[y], Last(p), z)
                else gs.zones[y] == fs.zones[y])
  {
    hide Wired, Balloc, Entry, SetEntry, BlockPath;
    if |p| > 1 {
      var fs1 := fs.(zmap := fs.zmap[z + 1 - fs.first := true], owner := fs.owner[z := (ino, p)]);
      AtSameTables(fs, fs1, ino, Up(p));
    }
  }

  lemma GrownInodes(fs: Fs, ino: nat, p: seq<nat>, z: nat)
    requires ino in fs.inodes && ValidPath(p) && z < 0x10000 && 0 <= z + 1 - fs.first < |fs.zmap|
    ensures var gs := Grown(fs, ino, p, z);
            && gs.inodes.Keys == fs.inodes.Keys
            && (forall i | i in fs.inodes :: gs.inodes[i].size == fs.inodes[i].size)
            && (forall i, k | i in fs.inodes && 0 <= k < 9 ::
                 gs.inodes[i].zone[k] == if i == ino && p == [k] then z else fs.inodes[i].zone[k])
            && gs.owner == fs.owner[z := (ino, p)] && gs.first == fs.first
            && gs.zmap == fs.zmap[z + 1 - fs.first := true]
  {
    if |p| == 1 {
      assert p == [p[0]];
    }
  }

  /** Hanging a new zone in changes what one path leads to and no other. */
  lemma {:induction false} GrownAt(fs: Fs, ino: nat, p: seq<nat>, z: nat, i: nat, q: seq<nat>)
    requires Ready(fs, ino, p, z) && z < 0x10000 && 0 <= z + 1 - fs.first < |fs.zmap|
    requires i in fs.inodes && ValidPath(q)
    ensures i in Grown(fs, ino, p, z).inodes
    ensures At(Grown(fs, ino, p, z), i, q) == if i == ino && q == p then z else At(fs, i, q)
    decreases |q|
  {
    hide Wired, Sane, FreshZero, Balloc, Grown;
    var gs := Grown(fs, ino, p, z);
    GrownInodes(fs, ino, p, z);
    if |q| == 1 {
      assert q == [q[0]];
    } else {
      var up := Up(q);
      GrownAt(fs, ino, p, z, i, up);
      NewZone(fs, z);
      AtBound(fs, i, up);
      if i == ino && up == p {
        NewIsEmpty(fs, ino, p, z, Last(q));
      } else {
        OldTable(fs, ino, p, z, i, q);
      }
    }
  }

  lemma NewIsEmpty(fs: Fs, ino: nat, p: seq<nat>, z: nat, k: nat)
    requires Ready(fs, ino, p, z) && z < 0x10000 && 0 <= z + 1 - fs.first < |fs.zmap| && k < BLOCK_INDEXES
    ensures z < |fs.zones| == |Grown(fs, ino, p, z).zones| && Entry(Grown(fs, ino, p, z).zones[z], k) == 0
  {
    hide Sane, FreshZero, Balloc, Grown, Entry;
    NewZone(fs, z);
    GrownZones(fs, ino, p, z, z);
    ZeroEntry(k);
    if |p| > 1 {
      assert At(fs, ino, Up(p)) in fs.owner;
    }
  }

  lemma OldTable(fs: Fs, ino: nat, p: seq<nat>, z: nat, i: nat, q: seq<nat>)
    requires Ready(fs, ino, p, z) && z < 0x10000 && 0 <= z + 1 - fs.first < |fs.zmap|
    requires i in fs.inodes && ValidPath(q) && |q| > 1
    ensures |Grown(fs, ino, p, z).zones| == |fs.zones|
    ensures var y := At(fs, i, Up(q));
            y != 0 && y < |fs.zones| ==>
              Entry(Grown(fs, ino, p, z).zones[y], Last(q)) == if i == ino && q == p then z else At(fs, i, q)
  {
    hide Sane, FreshZero, Balloc, Grown, Entry;
    NewZone(fs, z);
    var y := At(fs, i, Up(q));
    GrownZones(fs, ino, p, z, z);
    if y != 0 && y < |fs.zones| {
      GrownZones(fs, ino, p, z, y);
      if |p| > 1 && y == At(fs, ino, Up(p)) {
        assert fs.owner[y] == (i, Up(q)) && fs.owner[y] == (ino, Up(p));
        EntryOfSet(fs.zones[y], Last(p), z, Last(q));
        if Last(p) == Last(q) {
          PathParts(p, q);
        }
      }
    }
  }

  lemma GrownOwned(fs: Fs, ino: nat, p: seq<nat>, z: nat)
    requires Ready(fs, ino, p, z) && z < 0x10000 && 0 <= z + 1 - fs.first < |fs.zmap|
    ensures Owned(Grown(fs, ino, p, z))
  {
    hide Sane, FreshZero, Balloc, Grown, At;
    var gs := Grown(fs, ino, p, z);
    NewZone(fs, z);
    GrownInodes(fs, ino, p, z);
    forall i, q | i in gs.inodes && ValidPath(q) && At(gs, i, q) != 0
      ensures At(gs, i, q) in gs.owner && gs.owner[At(gs, i, q)] == (i, q)
    {
      GrownAt(fs, ino, p, z, i, q);
    }
  }

  lemma GrownWired(fs: Fs, ino: nat, p: seq<nat>, z: nat)
    requires Ready(fs, ino, p, z) && z < 0x10000 && 0 <= z + 1 - fs.first < |fs.zmap|
    ensures Wired(Grown(fs, ino, p, z))
  {
    GrownOwned(fs, ino, p, z);
    hide Balloc, Grown, At, Owned, SetEntry;
    var gs := Grown(fs, ino, p, z);
    NewZone(fs, z);
    GrownInodes(fs, ino, p, z);
    GrownZones(fs, ino, p, z, z);
    forall y | 0 <= y < |gs.zones| && gs.first <= y + 1 && y + 1 - gs.first < |gs.zmap| && !gs.zmap[y + 1 - gs.first]
      ensures gs.zones[y] == ZeroBlock()
    {
      GrownZones(fs, ino, p, z, y);
      if |p| > 1 {
        UpOwned(fs, ino, p);
      }
    }
  }

  lemma UpOwned(fs: Fs, ino: nat, p: seq<nat>)
    requires Wired(fs) && ino in fs.inodes && ValidPath(p) && |p| > 1 && At(fs, ino, Up(p)) != 0
    ensures var y := At(fs, ino, Up(p));
            fs.first <= y + 1 && y < |fs.zones| && y + 1 - fs.first < |fs.zmap| && fs.zmap[y + 1 - fs.first]
  {
    assert At(fs, ino, Up(p)) in fs.owner;
  }

  /** New zones hold what no zone held before: zeros. */
  lemma GrownData(fs: Fs, ino: nat, p: seq<nat>, z: nat, i: nat, q: seq<nat>)
    requires Ready(fs, ino, p, z) && z < 0x10000 && 0 <= z + 1 - fs.first < |fs.zmap|
    requires i in fs.inodes && Leaf(q)
    ensures i in Grown(fs, ino, p, z).inodes && Data(Grown(fs, ino, p, z), i, q) == Data(fs, i, q)
  {
    hide Sane, FreshZero, Balloc, Grown, At, SetEntry;
    var gs := Grown(fs, ino, p, z);
    NewZone(fs, z);
    GrownAt(fs, ino, p, z, i, q);
    GrownZones(fs, ino, p, z, z);
    if i == ino && q == p {
      if |p| > 1 {
        assert At(fs, ino, Up(p)) in fs.owner;
      }
    } else {
      var y := At(fs, i, q);
      if y != 0 && y < |fs.zones| {
        GrownZones(fs, ino, p, z, y);
        if |p| > 1 && y == At(fs, ino, Up(p)) {
          assert fs.owner[y] == (i, q) && fs.owner[y] == (ino, Up(p));
        }
      }
    }
  }

  // minix_bmap with create.

  /** `gs` has at most more zones on the way to `p`; no byte of any file is different. */
  ghost predicate Extends(fs: Fs, gs: Fs, ino: nat, p: seq<nat>) {
    && gs.inodes.Keys == fs.inodes.Keys && |gs.zones| == |fs.zones|
    && (forall i | i in fs.inodes :: gs.inodes[i].size == fs.inodes[i].size)
    && (forall i, q | i in fs.inodes && ValidPath(q) ::
         At(gs, i, q) != At(fs, i, q) ==> At(fs, i, q) == 0 && i == ino && q <= p)
    && (forall i, q | i in fs.inodes && Leaf(q) :: Data(gs, i, q) == Data(fs, i, q))
  }

  lemma ExtendsFurther(fs: Fs, gs: Fs, hs: Fs, ino: nat, p: seq<nat>, q: seq<nat>)
    requires Extends(fs, gs, ino, p) && Extends(gs, hs, ino, q) && p <= q
    ensures Extends(fs, hs, ino, q)
  {
    hide At, Data;
  }

  lemma GrowNew(fs: Fs, ino: nat, p: seq<nat>)
    requires Wired(fs) && ino in fs.inodes && ValidPath(p) && (|p| > 1 ==> At(fs, ino, Up(p)) != 0)
    requires Grow(fs, ino, p).Some? && At(fs, ino, p) == 0
    ensures Balloc(fs).Some?
    ensures var z := Balloc(fs).value;
            && Ready(fs, ino, p, z) && z < |fs.zones| && z < 0x10000 && 0 <= z + 1 - fs.first < |fs.zmap|
            && Grow(fs, ino, p) == Some(Grown(fs, ino, p, z))
  {
    hide Owned, Bitmap.FirstFit, At, SetSlot;
  }

  lemma GrowEffect(fs: Fs, ino: nat, p: seq<nat>)
    requires Wired(fs) && ino in fs.inodes && ValidPath(p) && (|p| > 1 ==> At(fs, ino, Up(p)) != 0)
    requires Grow(fs, ino, p).Some?
    ensures var gs := Grow(fs, ino, p).value;
            Wired(gs) && Extends(fs, gs, ino, p) && ino in gs.inodes && At(gs, ino, p) != 0
  {
    if At(fs, ino, p) == 0 {
      hide Wired, Extends, Balloc, Grow, Grown, At;
      GrowNew(fs, ino, p);
      var z := Balloc(fs).value;
      NewZone(fs, z);
      GrownWired(fs, ino, p, z);
      GrownAt(fs, ino, p, z, ino, p);
      GrownExtends(fs, ino, p, z);
    } else {
      hide Wired, Balloc;
    }
  }

  lemma GrownExtends(fs: Fs, ino: nat, p: seq<nat>, z: nat)
    requires Ready(fs, ino, p, z) && z < |fs.zones| && z < 0x10000 && 0 <= z + 1 - fs.first < |fs.zmap|
    ensures Extends(fs, Grown(fs, ino, p, z), ino, p)
  {
    hide Grown, At, Data, Wired, Balloc;
    var gs := Grown(fs, ino, p, z);
    GrownInodes(fs, ino, p, z);
    GrownZones(fs, ino, p, z, z);
    forall i, q | i in fs.inodes && ValidPath(q)
      ensures At(gs, i, q) != At(fs, i, q) ==> At(fs, i, q) == 0 && i == ino && q <= p
    {
      GrownAt(fs, ino, p, z, i, q);
    }
    forall i, q | i in fs.inodes && Leaf(q)
      ensures Data(gs, i, q) == Data(fs, i, q)
    {
      GrownData(fs, ino, p, z, i, q);
    }
  }

  lemma {:induction false} CreateEffect(fs: Fs, ino: nat, p: seq<nat>)
    requires Wired(fs) && ino in fs.inodes && ValidPath(p) && Create(fs, ino, p).Some?
    ensures var gs := Create(fs, ino, p).value;
            Wired(gs) && Extends(fs, gs, ino, p) && ino in gs.inodes && At(gs, ino, p) != 0
    decreases |p|
  {
    hide Wired, Extends, Grow, At;
    if |p| == 1 {
      GrowEffect(fs, ino, p);
    } else {
      CreateEffect(fs, ino, Up(p));
      var gs := Create(fs, ino, Up(p)).value;
      GrowEffect(gs, ino, p);
      ExtendsFurther(fs, gs, Create(fs, ino, p).value, ino, Up(p), p);
    }
  }

  // Writing into a zone that holds bytes.

  /** Different places, of one file or of two, never share a zone. */
  lemma Apart(fs: Fs, i: nat, p: seq<nat>, j: nat, q: seq<nat>)
    requires Wired(fs) && i in fs.inodes && j in fs.inodes && ValidPath(p) && ValidPath(q)
    requires At(fs, i, p) == At(fs, j, q) != 0
    ensures i == j && p == q
  {
    hide Sane, FreshZero, At;
    assert fs.owner[At(fs, i, p)] == (i, p);
    assert fs.owner[At(fs, j, q)] == (j, q);
  }

  function Written(fs: Fs, z: nat, b: Block): Fs
    requires z < |fs.zones|
  {
    fs.(zones := fs.zones[z := b])
  }

  lemma {:induction false} WrittenAt(fs: Fs, ino: nat, p: seq<nat>, b: Block, i: nat, q: seq<nat>)
    requires Wired(fs) && ino in fs.inodes && Leaf(p) && 0 != At(fs, ino, p) < |fs.zones|
    requires i in fs.inodes && ValidPath(q)
    ensures At(Written(fs, At(fs, ino, p), b), i, q) == At(fs, i, q)
    decreases |q|
  {
    hide Wired, Entry;
    if |q| > 1 {
      WrittenAt(fs, ino, p, b, i, Up(q));
      if At(fs, i, Up(q)) == At(fs, ino, p) {
        Apart(fs, ino, p, i, Up(q));
      }
    }
  }

  lemma WrittenData(fs: Fs, ino: nat, p: seq<nat>, b: Block, i: nat, q: seq<nat>)
    requires Wired(fs) && ino in fs.inodes && Leaf(p) && 0 != At(fs, ino, p) < |fs.zones|
    requires i in fs.inodes && ValidPath(q)
    ensures Data(Written(fs, At(fs, ino, p), b), i, q) == if i == ino && q == p then b else Data(fs, i, q)
  {
    hide Wired, At;
    WrittenAt(fs, ino, p, b, i, q);
    if At(fs, i, q) == At(fs, ino, p) {
      Apart(fs, ino, p, i, q);
    }
  }

  lemma WrittenOwned(fs: Fs, ino: nat, p: seq<nat>, b: Block)
    requires Wired(fs) && ino in fs.inodes && Leaf(p) && 0 != At(fs, ino, p) < |fs.zones|
    ensures Owned(Written(fs, At(fs, ino, p), b))
  {
    hide At, Sane, FreshZero;
    var gs := Written(fs, At(fs, ino, p), b);
    forall i, q | i in gs.inodes && ValidPath(q) && At(gs, i, q) != 0
      ensures At(gs, i, q) in gs.owner && gs.owner[At(gs, i, q)] == (i, q)
    {
      WrittenAt(fs, ino, p, b, i, q);
    }
  }

  lemma WrittenSane(fs: Fs, z: nat, b: Block)
    requires Sane(fs) && FreshZero(fs) && z in fs.owner
    ensures z < |fs.zones| && Sane(Written(fs, z, b)) && FreshZero(Written(fs, z, b))
  {
  }

  lemma OwnedZone(fs: Fs, ino: nat, p: seq<nat>)
    requires Owned(fs) && ino in fs.inodes && ValidPath(p) && At(fs, ino, p) != 0
    ensures At(fs, ino, p) in fs.owner
  {
  }

  lemma WrittenWired(fs: Fs, ino: nat, p: seq<nat>, b: Block)
    requires Wired(fs) && ino in fs.inodes && Leaf(p) && 0 != At(fs, ino, p) < |fs.zones|
    ensures Wired(Written(fs, At(fs, ino, p), b))
  {
    hide At, Owned, Sane, FreshZero;
    WrittenOwned(fs, ino, p, b);
    OwnedZone(fs, ino, p);
    WrittenSane(fs, At(fs, ino, p), b);
  }
}
