/** Files under any sequence of writes are sequences of bytes. */
module MinixRuns {
  import opened Prelude
  import opened MinixFs
  import opened MinixProofs
  import opened MinixFiles
  import Bitmap

  ghost predicate GoodFile(fs: Fs, ino: nat)
    requires ino in fs.inodes
  {
    fs.inodes[ino].size <= MAX_SIZE && NoHoles(fs, ino)
  }

  ghost predicate Good(fs: Fs) {
    Wired(fs) && forall ino | ino in fs.inodes :: GoodFile(fs, ino)
  }

  /** A new file system: empty files, none of their zones in use, and what is free zero. */
  predicate Formatted(fs: Fs) {
    && 2 <= fs.first && |fs.zones| <= 0xFFFF && fs.owner == map[] && FreshZero(fs)
    && (forall ino | ino in fs.inodes :: fs.inodes[ino] == EMPTY_FILE)
  }

  function Contents(fs: Fs, ino: nat): seq<Byte>
    requires ino in fs.inodes && fs.inodes[ino].size <= MAX_SIZE
  {
    FileBytes(fs, ino, fs.inodes[ino].size, 0)
  }

  /** Writing into a sequence of bytes. */
  function Overwrite(s: seq<Byte>, data: seq<Byte>, offset: nat): seq<Byte>
    requires offset <= |s|
  {
    if data == [] then s
    else s[..offset] + data + if offset + |data| < |s| then s[offset + |data|..] else []
  }

  lemma {:induction false} FormattedAt(fs: Fs, ino: nat, p: seq<nat>)
    requires Formatted(fs) && ino in fs.inodes && ValidPath(p)
    ensures At(fs, ino, p) == 0
    decreases |p|
  {
    if |p| > 1 {
      FormattedAt(fs, ino, Up(p));
    }
  }

  lemma FormattedGood(fs: Fs)
    requires Formatted(fs)
    ensures Good(fs)
    ensures forall ino | ino in fs.inodes :: Contents(fs, ino) == []
  {
    forall ino, p | ino in fs.inodes && ValidPath(p)
      ensures At(fs, ino, p) == 0
    {
      FormattedAt(fs, ino, p);
    }
  }

  lemma NewContents(fs: Fs, hs: Fs, ino: nat, offset: nat, data: seq<Byte>)
    requires ino in fs.inodes && Wrote(fs, hs, ino, offset, data)
    requires fs.inodes[ino].size <= MAX_SIZE && offset <= fs.inodes[ino].size
             && (data != [] ==> offset + |data| <= MAX_SIZE)
    ensures hs.inodes[ino].size <= MAX_SIZE && Contents(hs, ino) == Overwrite(Contents(fs, ino), data, offset)
  {
    hide ByteAt, Present;
    var old_, new_ := Contents(fs, ino), Contents(hs, ino);
    assert |new_| == |Overwrite(old_, data, offset)|;
    forall k | 0 <= k < |new_|
      ensures new_[k] == Overwrite(old_, data, offset)[k]
    {
    }
  }

  lemma SameContents(fs: Fs, hs: Fs, ino: nat, offset: nat, data: seq<Byte>, i: nat)
    requires ino in fs.inodes && Wrote(fs, hs, ino, offset, data) && i in fs.inodes && i != ino
    requires fs.inodes[i].size <= MAX_SIZE
    ensures hs.inodes[i].size <= MAX_SIZE && Contents(hs, i) == Contents(fs, i)
  {
    hide ByteAt, Present;
  }

  lemma OtherGood(fs: Fs, hs: Fs, ino: nat, offset: nat, data: seq<Byte>, i: nat)
    requires ino in fs.inodes && Wrote(fs, hs, ino, offset, data) && i in fs.inodes && i != ino && GoodFile(fs, i)
    ensures GoodFile(hs, i)
  {
    hide ByteAt, Present, Touched;
  }

  /** minix_write at an offset up to the size: a good file system stays good, one file is overwritten. */
  lemma WriteGood(fs: Fs, ino: nat, data: seq<Byte>, offset: nat)
    requires Good(fs) && ino in fs.inodes && offset <= fs.inodes[ino].size && WriteAt(fs, ino, data, offset).Some?
    ensures var hs := WriteAt(fs, ino, data, offset).value;
            && Good(hs) && hs.inodes.Keys == fs.inodes.Keys
            && GoodFile(fs, ino) && GoodFile(hs, ino) && Contents(hs, ino) == Overwrite(Contents(fs, ino), data, offset)
            && forall i | i in fs.inodes && i != ino :: GoodFile(fs, i) && Contents(hs, i) == Contents(fs, i)
  {
    hide Wired, GoodFile, Contents, Overwrite, WriteAt;
    var hs := WriteAt(fs, ino, data, offset).value;
    WriteEffect(fs, ino, data, offset);
    WroteKeys(fs, hs, ino, offset, data);
    OneGood(fs, hs, ino, offset, data);
    hide Wrote;
    forall i | i in fs.inodes && i != ino
      ensures GoodFile(hs, i) && GoodFile(fs, i) && hs.inodes[i].size <= MAX_SIZE && fs.inodes[i].size <= MAX_SIZE
              && Contents(hs, i) == Contents(fs, i)
    {
      OtherGood(fs, hs, ino, offset, data, i);
      SizeBound(fs, i);
      SameContents(fs, hs, ino, offset, data, i);
    }
  }

  lemma SizeBound(fs: Fs, i: nat)
    requires i in fs.inodes && GoodFile(fs, i)
    ensures fs.inodes[i].size <= MAX_SIZE
  {
  }

  lemma WroteKeys(fs: Fs, hs: Fs, ino: nat, offset: nat, data: seq<Byte>)
    requires ino in fs.inodes && Wrote(fs, hs, ino, offset, data)
    ensures hs.inodes.Keys == fs.inodes.Keys
  {
  }

  lemma OneGood(fs: Fs, hs: Fs, ino: nat, offset: nat, data: seq<Byte>)
    requires Wired(fs) && ino in fs.inodes && GoodFile(fs, ino) && offset <= fs.inodes[ino].size
    requires WriteAt(fs, ino, data, offset) == Some(hs) && Wrote(fs, hs, ino, offset, data)
    ensures ino in hs.inodes && GoodFile(hs, ino) && Contents(hs, ino) == Overwrite(Contents(fs, ino), data, offset)
  {
    hide Wired, Contents, Overwrite, Wrote;
    if data != [] {
      WriteFits(fs, ino, data, offset);
      HolesExactly(fs, ino, data, offset);
    }
    NewContents(fs, hs, ino, offset, data);
  }

  /** minix_read of a good file is a slice of its contents. */
  lemma ReadGood(fs: Fs, ino: nat, len: nat, offset: nat)
    requires Wired(fs) && ino in fs.inodes && GoodFile(fs, ino)
    ensures var s := Contents(fs, ino);
            ReadAt(fs, ino, len, offset) == if offset >= |s| then Eof else Got(s[offset..Min(|s|, offset + len)])
  {
    hide Wired, ByteAt, Present, ReadBytes;
    var size := fs.inodes[ino].size;
    if offset < size {
      var left := Min(len, size - offset);
      forall b: nat | Touched(b, offset, left)
        ensures Touched(b, 0, size)
      {
      }
      assert Covered(fs, ino, left, offset);
      ReadExact(fs, ino, left, offset);
      assert FileBytes(fs, ino, left, offset) == Contents(fs, ino)[offset..offset + left];
    }
  }

  /** A first write past the first block leaves a file whose beginning cannot be read. */
  lemma JumpLeavesHole(fs: Fs, ino: nat, data: seq<Byte>, offset: nat)
    requires Formatted(fs) && ino in fs.inodes && data != [] && offset >= BLOCK_SIZE
             && WriteAt(fs, ino, data, offset).Some?
    ensures var hs := WriteAt(fs, ino, data, offset).value; ino in hs.inodes && ReadAt(hs, ino, 1, 0) == Hole
  {
    hide Good, WriteAt, ByteAt, At;
    FormattedGood(fs);
    FormattedAt(fs, ino, BlockPath(0));
    GoodWired(fs);
    hide Wired, Formatted;
    var hs := WriteAt(fs, ino, data, offset).value;
    WriteEffect(fs, ino, data, offset);
    assert !Present(hs, ino, 0) && Touched(0, 0, 1);
    ReadsWithoutHole(hs, ino, 1, 0);
  }

  lemma GoodWired(fs: Fs)
    requires Good(fs)
    ensures Wired(fs)
  {
  }

  /**
   * Nine blocks as minix_mkfs leaves them: six in front for boot block, super
   * block, two bitmaps, inodes and root directory, and three free ones.  File 2
   * is empty.
   */
  function SmallDisk(front: seq<Block>): Fs
    requires |front| == 6
  {
    Fs(front + [ZeroBlock(), ZeroBlock(), ZeroBlock()], seq(8 * BLOCK_SIZE, i => i < 2), 5, map[2 := EMPTY_FILE], map[])
  }

  lemma SmallFree(front: seq<Block>)
    requires |front| == 6
    ensures Formatted(SmallDisk(front)) && Balloc(SmallDisk(front)) == Some(6)
  {
    var fs := SmallDisk(front);
    assert fs.zmap[0] && fs.zmap[1] && Bitmap.Clear(fs.zmap, 2, 1);
    assert Bitmap.FirstFit(fs.zmap, 1, 2) == 2;
    assert Bitmap.FirstFit(fs.zmap, 1, 1) == 2;
    assert Bitmap.FirstFit(fs.zmap, 1) == 2;
    hide Bitmap.FirstFit;
    assert forall z | 6 <= z < 9 :: fs.zones[z] == ZeroBlock();
  }

  /** One byte written to its third block, and the first byte is lost in a hole. */
  lemma HoleExample(front: seq<Block>)
    requires |front| == 6
    ensures Formatted(SmallDisk(front))
    ensures var w := WriteAt(SmallDisk(front), 2, [7], 2 * BLOCK_SIZE);
            w.Some? && 2 in w.value.inodes && ReadAt(w.value, 2, 1, 0) == Hole
  {
    SmallFree(front);
    SmallWrite(front);
    hide SmallDisk, WriteAt, Formatted;
    JumpLeavesHole(SmallDisk(front), 2, [7], 2 * BLOCK_SIZE);
  }

  lemma SmallWrite(front: seq<Block>)
    requires |front| == 6
    ensures WriteAt(SmallDisk(front), 2, [7], 2 * BLOCK_SIZE).Some?
  {
    var fs := SmallDisk(front);
    SmallFree(front);
    hide Bitmap.FirstFit, Balloc;
    var gs := Create(fs, 2, [2]).value;
    assert BlockPath(2) == [2] && At(gs, 2, [2]) == 6 && |gs.zones| == 9;
    hide Create, BlockPath, At, Splice;
    var data: seq<Byte> := [7];
    assert ChunkLength(2 * BLOCK_SIZE, 1) == 1 && data[..1] == data && data[1..] == [];
    var g := WriteChunk(fs, 2, 2 * BLOCK_SIZE, data);
    assert g.Some?;
    assert WriteAt(g.value, 2, [], 2 * BLOCK_SIZE + 1).Some?;
  }

  // Runs.

  datatype Write = Write(ino: nat, data: seq<Byte>, offset: nat)

  function Run(fs: Fs, ws: seq<Write>): Option<Fs>
    decreases |ws|
  {
    if ws == [] then Some(fs)
    else
      var w := ws[0];
      if w.ino !in fs.inodes || w.offset > fs.inodes[w.ino].size then None
      else match WriteAt(fs, w.ino, w.data, w.offset)
        case None => None
        case Some(gs) => Run(gs, ws[1..])
  }

  /** The same writes on plain sequences. */
  function PlainRun(files: map<nat, seq<Byte>>, ws: seq<Write>): map<nat, seq<Byte>>
    decreases |ws|
  {
    if ws == [] then files
    else
      var w := ws[0];
      if w.ino !in files || w.offset > |files[w.ino]| then files
      else PlainRun(files[w.ino := Overwrite(files[w.ino], w.data, w.offset)], ws[1..])
  }

  ghost predicate Shows(fs: Fs, files: map<nat, seq<Byte>>) {
    && files.Keys == fs.inodes.Keys
    && forall i | i in fs.inodes :: fs.inodes[i].size <= MAX_SIZE && Contents(fs, i) == files[i]
  }

  lemma {:induction false} RunRefines(fs: Fs, files: map<nat, seq<Byte>>, ws: seq<Write>)
    requires Good(fs) && Shows(fs, files) && Run(fs, ws).Some?
    ensures Good(Run(fs, ws).value) && Shows(Run(fs, ws).value, PlainRun(files, ws))
    decreases |ws|
  {
    hide Good, WriteAt, Overwrite;
    if ws != [] {
      var w := ws[0];
      WriteGood(fs, w.ino, w.data, w.offset);
      var gs := WriteAt(fs, w.ino, w.data, w.offset).value;
      SizeBound(gs, w.ino);
      var next := files[w.ino := Overwrite(files[w.ino], w.data, w.offset)];
      StillShows(fs, gs, files, w);
      RunRefines(gs, next, ws[1..]);
    }
  }

  lemma StillShows(fs: Fs, gs: Fs, files: map<nat, seq<Byte>>, w: Write)
    requires Shows(fs, files) && w.ino in fs.inodes && w.offset <= fs.inodes[w.ino].size
    requires Good(gs) && gs.inodes.Keys == fs.inodes.Keys
    requires fs.inodes[w.ino].size <= MAX_SIZE && gs.inodes[w.ino].size <= MAX_SIZE
    requires Contents(gs, w.ino) == Overwrite(Contents(fs, w.ino), w.data, w.offset)
    requires forall i | i in fs.inodes && i != w.ino ::
               gs.inodes[i].size <= MAX_SIZE && fs.inodes[i].size <= MAX_SIZE && Contents(gs, i) == Contents(fs, i)
    ensures Shows(gs, files[w.ino := Overwrite(files[w.ino], w.data, w.offset)])
  {
    hide Contents, Overwrite, GoodFile, Wired;
  }

  /**
   * Whatever files were written in whatever order since the disk was made, a
   * read gives the slice of the sequence that the same writes build.
   */
  lemma ReadsAfterWrites(fs: Fs, ws: seq<Write>, ino: nat, len: nat, offset: nat)
    requires Formatted(fs) && Run(fs, ws).Some? && ino in fs.inodes
    ensures var hs := Run(fs, ws).value;
            var files := PlainRun(map i | i in fs.inodes :: [], ws);
            && ino in hs.inodes && ino in files
            && ReadAt(hs, ino, len, offset) ==
               (if offset >= |files[ino]| then Eof else Got(files[ino][offset..Min(|files[ino]|, offset + len)]))
  {
    var files: map<nat, seq<Byte>> := map i | i in fs.inodes :: [];
    FormattedGood(fs);
    RunRefines(fs, files, ws);
    var hs := Run(fs, ws).value;
    RunKeys(fs, ws);
    ReadGood(hs, ino, len, offset);
  }

  lemma {:induction false} RunKeys(fs: Fs, ws: seq<Write>)
    requires Good(fs) && Run(fs, ws).Some?
    ensures Run(fs, ws).value.inodes.Keys == fs.inodes.Keys
    decreases |ws|
  {
    hide Good, WriteAt;
    if ws != [] {
      WriteGood(fs, ws[0].ino, ws[0].data, ws[0].offset);
      RunKeys(WriteAt(fs, ws[0].ino, ws[0].data, ws[0].offset).value, ws[1..]);
    }
  }
}
