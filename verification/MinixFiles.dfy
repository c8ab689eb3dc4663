/** minix_read and minix_write, against files as arrays of bytes. */
module MinixFiles {
  import opened Prelude
  import opened MinixFs
  import opened MinixProofs

  const MAX_SIZE: nat := TOTAL_BLOCK * BLOCK_SIZE

  /** Byte `o` of a file. */
  function ByteAt(fs: Fs, ino: nat, o: nat): Byte
    requires ino in fs.inodes && o < MAX_SIZE
  {
    Data(fs, ino, BlockPath(o / BLOCK_SIZE))[o % BLOCK_SIZE]
  }

  /** Block `b` of a file has a zone. */
  predicate Present(fs: Fs, ino: nat, b: nat)
    requires ino in fs.inodes && b < TOTAL_BLOCK
  {
    At(fs, ino, BlockPath(b)) != 0
  }

  function Splice(b: Block, start: nat, chunk: seq<Byte>): (r: Block)
    requires start + |chunk| <= BLOCK_SIZE
    ensures forall k | 0 <= k < BLOCK_SIZE :: r[k] == if start <= k < start + |chunk| then chunk[k - start] else b[k]
  {
    b[..start] + chunk + b[start + |chunk|..]
  }

  function SetSize(fs: Fs, ino: nat, size: nat): Fs
    requires ino in fs.inodes
  {
    fs.(inodes := fs.inodes[ino := fs.inodes[ino].(size := size)])
  }

  /** One pass of the loop of minix_write; None when space runs out or the block is out of reach. */
  function WriteChunk(fs: Fs, ino: nat, offset: nat, chunk: seq<Byte>): (r: Option<Fs>)
    requires ino in fs.inodes && offset % BLOCK_SIZE + |chunk| <= BLOCK_SIZE
    ensures r.Some? ==> ino in r.value.inodes
  {
    if offset / BLOCK_SIZE >= TOTAL_BLOCK then None
    else
      var p := BlockPath(offset / BLOCK_SIZE);
      match Create(fs, ino, p)
      case None => None
      case Some(gs) =>
        var z := At(gs, ino, p);
        if z == 0 || z >= |gs.zones| then None
        else
          var hs := Written(gs, z, Splice(gs.zones[z], offset % BLOCK_SIZE, chunk));
          Some(SetSize(hs, ino, Max(hs.inodes[ino].size, offset + |chunk|)))
  }

  function ChunkLength(offset: nat, left: nat): (n: nat)
    ensures left > 0 ==> 0 < n <= left
    ensures offset % BLOCK_SIZE + n <= BLOCK_SIZE
  {
    Min(BLOCK_SIZE - offset % BLOCK_SIZE, left)
  }

  /** minix_write */
  function WriteAt(fs: Fs, ino: nat, data: seq<Byte>, offset: nat): Option<Fs>
    requires ino in fs.inodes
    decreases |data|
  {
    if data == [] then Some(fs)
    else
      var n := ChunkLength(offset, |data|);
      match WriteChunk(fs, ino, offset, data[..n])
      case None => None
      case Some(gs) => WriteAt(gs, ino, data[n..], offset + n)
  }

  /** The loop of minix_read; None is the assertion that the block has a zone. */
  function ReadBytes(fs: Fs, ino: nat, left: nat, offset: nat): Option<seq<Byte>>
    requires ino in fs.inodes
    decreases left
  {
    if left == 0 then Some([])
    else if offset / BLOCK_SIZE >= TOTAL_BLOCK then None
    else
      var z := At(fs, ino, BlockPath(offset / BLOCK_SIZE));
      if z == 0 || z >= |fs.zones| then None
      else
        var n, start := ChunkLength(offset, left), offset % BLOCK_SIZE;
        match ReadBytes(fs, ino, left - n, offset + n)
        case None => None
        case Some(rest) => Some(fs.zones[z][start..start + n] + rest)
  }

  datatype Outcome = Eof | Hole | Got(bytes: seq<Byte>)

  /** minix_read */
  function ReadAt(fs: Fs, ino: nat, len: nat, offset: nat): Outcome
    requires ino in fs.inodes
  {
    var size := fs.inodes[ino].size;
    if offset >= size then Eof
    else match ReadBytes(fs, ino, Min(len, size - offset), offset)
      case None => Hole
      case Some(s) => Got(s)
  }

  // One pass.

  lemma {:induction false} SizeAt(fs: Fs, ino: nat, size: nat, i: nat, q: seq<nat>)
    requires ino in fs.inodes && i in fs.inodes && ValidPath(q)
    ensures At(SetSize(fs, ino, size), i, q) == At(fs, i, q)
    decreases |q|
  {
    if |q| > 1 {
      SizeAt(fs, ino, size, i, Up(q));
    }
  }

  lemma SizeWired(fs: Fs, ino: nat, size: nat)
    requires Wired(fs) && ino in fs.inodes
    ensures Wired(SetSize(fs, ino, size))
  {
    hide At;
    var gs := SetSize(fs, ino, size);
    forall i, q | i in gs.inodes && ValidPath(q) && At(gs, i, q) != 0
      ensures At(gs, i, q) in gs.owner && gs.owner[At(gs, i, q)] == (i, q)
    {
      SizeAt(fs, ino, size, i, q);
    }
  }

  /** What writing `data` at `offset` means for all files. */
  ghost predicate Wrote(fs: Fs, hs: Fs, ino: nat, offset: nat, data: seq<Byte>)
    requires ino in fs.inodes
  {
    && hs.inodes.Keys == fs.inodes.Keys
    && (forall i | i in fs.inodes && i != ino :: hs.inodes[i].size == fs.inodes[i].size)
    && hs.inodes[ino].size == (if data == [] then fs.inodes[ino].size else Max(fs.inodes[ino].size, offset + |data|))
    && (forall i, o | i in fs.inodes && 0 <= o < MAX_SIZE ::
         ByteAt(hs, i, o) == if i == ino && offset <= o < offset + |data| then data[o - offset] else ByteAt(fs, i, o))
    && (forall i, b | i in fs.inodes && 0 <= b < TOTAL_BLOCK ::
         Present(hs, i, b) <==> Present(fs, i, b) || (i == ino && Touched(b, offset, |data|)))
  }

  /** Block `b` holds one of the `n` bytes from `offset`. */
  predicate Touched(b: nat, offset: nat, n: nat) {
    offset < (b + 1) * BLOCK_SIZE && b * BLOCK_SIZE < offset + n && n > 0
  }

  lemma LeafPrefix(q: seq<nat>, p: seq<nat>)
    requires Leaf(q) && Leaf(p) && q <= p
    ensures q == p
  {
  }

  /** Create, splice and new size for one path. */
  lemma PassAt(fs: Fs, gs: Fs, ino: nat, p: seq<nat>, b: Block, size: nat, i: nat, q: seq<nat>)
    requires Wired(gs) && ino in fs.inodes && Leaf(p) && Extends(fs, gs, ino, p) && 0 != At(gs, ino, p) < |gs.zones|
    requires i in fs.inodes && Leaf(q)
    ensures var hs := SetSize(Written(gs, At(gs, ino, p), b), ino, size);
            && Data(hs, i, q) == (if i == ino && q == p then b else Data(fs, i, q))
            && (At(hs, i, q) != 0 <==> At(fs, i, q) != 0 || (i == ino && q == p))
  {
    var ws := Written(gs, At(gs, ino, p), b);
    var hs := SetSize(ws, ino, size);
    SizeAt(ws, ino, size, i, q);
    hide At, Wired;
    WrittenAt(gs, ino, p, b, i, q);
    WrittenData(gs, ino, p, b, i, q);
    if q <= p {
      LeafPrefix(q, p);
    }
  }

  lemma InBlock(o: nat, offset: nat, n: nat)
    requires offset % BLOCK_SIZE + n <= BLOCK_SIZE
    ensures offset <= o < offset + n <==>
              o / BLOCK_SIZE == offset / BLOCK_SIZE && offset % BLOCK_SIZE <= o % BLOCK_SIZE < offset % BLOCK_SIZE + n
    ensures o / BLOCK_SIZE == offset / BLOCK_SIZE ==> o - offset == o % BLOCK_SIZE - offset % BLOCK_SIZE
  {
  }

  lemma TouchedOne(b: nat, offset: nat, n: nat)
    requires 0 < n && offset % BLOCK_SIZE + n <= BLOCK_SIZE
    ensures Touched(b, offset, n) <==> b == offset / BLOCK_SIZE
  {
  }

  lemma ExtendsData(fs: Fs, gs: Fs, ino: nat, p: seq<nat>)
    requires ino in fs.inodes && Leaf(p) && Extends(fs, gs, ino, p) && 0 != At(gs, ino, p) < |gs.zones|
    ensures gs.inodes.Keys == fs.inodes.Keys && gs.zones[At(gs, ino, p)] == Data(fs, ino, p)
  {
    hide At;
    assert gs.zones[At(gs, ino, p)] == Data(gs, ino, p);
  }

  lemma SpliceByte(b: Block, offset: nat, chunk: seq<Byte>, o: nat)
    requires offset % BLOCK_SIZE + |chunk| <= BLOCK_SIZE && o / BLOCK_SIZE == offset / BLOCK_SIZE
    ensures Splice(b, offset % BLOCK_SIZE, chunk)[o % BLOCK_SIZE] ==
            if offset <= o < offset + |chunk| then chunk[o - offset] else b[o % BLOCK_SIZE]
  {
    InBlock(o, offset, |chunk|);
  }

  lemma PassByte(fs: Fs, gs: Fs, ino: nat, offset: nat, chunk: seq<Byte>, size: nat, i: nat, o: nat)
    requires offset / BLOCK_SIZE < TOTAL_BLOCK && offset % BLOCK_SIZE + |chunk| <= BLOCK_SIZE && o < MAX_SIZE
    requires Wired(gs) && ino in fs.inodes && i in fs.inodes && ino in gs.inodes
    requires Extends(fs, gs, ino, BlockPath(offset / BLOCK_SIZE))
    requires 0 != At(gs, ino, BlockPath(offset / BLOCK_SIZE)) < |gs.zones|
    ensures var z := At(gs, ino, BlockPath(offset / BLOCK_SIZE));
            var hs := SetSize(Written(gs, z, Splice(gs.zones[z], offset % BLOCK_SIZE, chunk)), ino, size);
            && i in hs.inodes
            && ByteAt(hs, i, o) ==
               if i == ino && offset <= o < offset + |chunk| then chunk[o - offset] else ByteAt(fs, i, o)
  {
    hide At, Wired, BlockPath, Extends, Data, Splice;
    var p, q := BlockPath(offset / BLOCK_SIZE), BlockPath(o / BLOCK_SIZE);
    ExtendsData(fs, gs, ino, p);
    var z := At(gs, ino, p);
    PassAt(fs, gs, ino, p, Splice(gs.zones[z], offset % BLOCK_SIZE, chunk), size, i, q);
    if q == p {
      BlockPathInjective(o / BLOCK_SIZE, offset / BLOCK_SIZE);
      SpliceByte(gs.zones[z], offset, chunk, o);
    } else {
      InBlock(o, offset, |chunk|);
    }
  }

  lemma PassPresent(fs: Fs, gs: Fs, ino: nat, offset: nat, chunk: seq<Byte>, size: nat, i: nat, b: nat)
    requires offset / BLOCK_SIZE < TOTAL_BLOCK && 0 < |chunk| && offset % BLOCK_SIZE + |chunk| <= BLOCK_SIZE
             && b < TOTAL_BLOCK
    requires Wired(gs) && ino in fs.inodes && i in fs.inodes && ino in gs.inodes
    requires Extends(fs, gs, ino, BlockPath(offset / BLOCK_SIZE))
    requires 0 != At(gs, ino, BlockPath(offset / BLOCK_SIZE)) < |gs.zones|
    ensures var z := At(gs, ino, BlockPath(offset / BLOCK_SIZE));
            var hs := SetSize(Written(gs, z, Splice(gs.zones[z], offset % BLOCK_SIZE, chunk)), ino, size);
            i in hs.inodes && (Present(hs, i, b) <==> Present(fs, i, b) || (i == ino && Touched(b, offset, |chunk|)))
  {
    hide At, Wired, BlockPath, Touched;
    var p, q := BlockPath(offset / BLOCK_SIZE), BlockPath(b);
    var z := At(gs, ino, p);
    PassAt(fs, gs, ino, p, Splice(gs.zones[z], offset % BLOCK_SIZE, chunk), size, i, q);
    TouchedOne(b, offset, |chunk|);
    if q == p {
      BlockPathInjective(b, offset / BLOCK_SIZE);
    }
  }

  lemma ChunkEffect(fs: Fs, ino: nat, offset: nat, chunk: seq<Byte>)
    requires Wired(fs) && ino in fs.inodes && chunk != [] && offset % BLOCK_SIZE + |chunk| <= BLOCK_SIZE
    requires WriteChunk(fs, ino, offset, chunk).Some?
    ensures var hs := WriteChunk(fs, ino, offset, chunk).value;
            Wired(hs) && Wrote(fs, hs, ino, offset, chunk)
  {
    hide At, Wired, BlockPath, Touched, Create, ByteAt, Present, Splice;
    var p := BlockPath(offset / BLOCK_SIZE);
    var gs := Create(fs, ino, p).value;
    CreateEffect(fs, ino, p);
    var z := At(gs, ino, p);
    var ws := Written(gs, z, Splice(gs.zones[z], offset % BLOCK_SIZE, chunk));
    var size := Max(ws.inodes[ino].size, offset + |chunk|);
    var hs := SetSize(ws, ino, size);
    assert WriteChunk(fs, ino, offset, chunk) == Some(hs);
    WrittenWired(gs, ino, p, Splice(gs.zones[z], offset % BLOCK_SIZE, chunk));
    SizeWired(ws, ino, size);
    forall i, o | i in fs.inodes && 0 <= o < MAX_SIZE
      ensures ByteAt(hs, i, o) ==
              if i == ino && offset <= o < offset + |chunk| then chunk[o - offset] else ByteAt(fs, i, o)
    {
      PassByte(fs, gs, ino, offset, chunk, size, i, o);
    }
    forall i, b | i in fs.inodes && 0 <= b < TOTAL_BLOCK
      ensures Present(hs, i, b) <==> Present(fs, i, b) || (i == ino && Touched(b, offset, |chunk|))
    {
      PassPresent(fs, gs, ino, offset, chunk, size, i, b);
    }
  }

  lemma TouchedTwo(b: nat, offset: nat, n: nat, m: nat)
    requires n > 0
    ensures Touched(b, offset, n + m) <==> Touched(b, offset, n) || Touched(b, offset + n, m)
  {
  }

  lemma WroteThen(fs: Fs, gs: Fs, hs: Fs, ino: nat, offset: nat, data: seq<Byte>, n: nat)
    requires ino in fs.inodes && 0 < n <= |data| && Wrote(fs, gs, ino, offset, data[..n])
             && Wrote(gs, hs, ino, offset + n, data[n..])
    ensures Wrote(fs, hs, ino, offset, data)
  {
    hide Touched, ByteAt, Present;
    forall i, b | i in fs.inodes && 0 <= b < TOTAL_BLOCK
      ensures Present(hs, i, b) <==> Present(fs, i, b) || (i == ino && Touched(b, offset, |data|))
    {
      TouchedTwo(b, offset, n, |data| - n);
    }
  }

  /** minix_write puts the bytes in place and leaves every other byte of every file alone. */
  lemma {:induction false} WriteEffect(fs: Fs, ino: nat, data: seq<Byte>, offset: nat)
    requires Wired(fs) && ino in fs.inodes && WriteAt(fs, ino, data, offset).Some?
    ensures var hs := WriteAt(fs, ino, data, offset).value; Wired(hs) && Wrote(fs, hs, ino, offset, data)
    decreases |data|
  {
    hide Wired, Wrote, WriteChunk;
    if data == [] {
      WroteNothing(fs, ino, offset);
    } else {
      var n := ChunkLength(offset, |data|);
      var gs := WriteChunk(fs, ino, offset, data[..n]).value;
      ChunkEffect(fs, ino, offset, data[..n]);
      WriteEffect(gs, ino, data[n..], offset + n);
      WroteThen(fs, gs, WriteAt(fs, ino, data, offset).value, ino, offset, data, n);
    }
  }

  lemma WroteNothing(fs: Fs, ino: nat, offset: nat)
    requires ino in fs.inodes
    ensures Wrote(fs, fs, ino, offset, [])
  {
    hide ByteAt, Present;
  }

  // Reading.

  /** All the bytes asked for lie in blocks that have a zone. */
  ghost predicate Covered(fs: Fs, ino: nat, left: nat, offset: nat)
    requires ino in fs.inodes
  {
    forall b: nat | Touched(b, offset, left) :: b < TOTAL_BLOCK && Present(fs, ino, b)
  }

  /** The bytes of a file from `offset` on. */
  function FileBytes(fs: Fs, ino: nat, left: nat, offset: nat): (r: seq<Byte>)
    requires ino in fs.inodes && offset + left <= MAX_SIZE
    ensures |r| == left && forall k | 0 <= k < left :: r[k] == ByteAt(fs, ino, offset + k)
  {
    seq<Byte>(left, k requires 0 <= k < left => ByteAt(fs, ino, offset + k))
  }

  lemma CoveredSplit(fs: Fs, ino: nat, left: nat, offset: nat)
    requires ino in fs.inodes && left > 0
    ensures var n := ChunkLength(offset, left);
            Covered(fs, ino, left, offset) <==>
              && offset / BLOCK_SIZE < TOTAL_BLOCK && Present(fs, ino, offset / BLOCK_SIZE)
              && Covered(fs, ino, left - n, offset + n)
  {
    hide Touched, Present;
    var n := ChunkLength(offset, left);
    forall b: nat
      ensures Touched(b, offset, left) <==> b == offset / BLOCK_SIZE || Touched(b, offset + n, left - n)
    {
      TouchedTwo(b, offset, n, left - n);
      TouchedOne(b, offset, n);
    }
    assert Touched(offset / BLOCK_SIZE, offset, left);
    hide ChunkLength;
  }

  lemma CoveredFits(fs: Fs, ino: nat, left: nat, offset: nat)
    requires ino in fs.inodes && left > 0 && Covered(fs, ino, left, offset)
    ensures offset + left <= MAX_SIZE
  {
    var b := (offset + left - 1) / BLOCK_SIZE;
    assert Touched(b, offset, left);
  }

  lemma ChunkBytes(fs: Fs, ino: nat, n: nat, offset: nat)
    requires ino in fs.inodes && offset + n <= MAX_SIZE && offset % BLOCK_SIZE + n <= BLOCK_SIZE && n > 0
    ensures FileBytes(fs, ino, n, offset)
            == Data(fs, ino, BlockPath(offset / BLOCK_SIZE))[offset % BLOCK_SIZE..offset % BLOCK_SIZE + n]
  {
    hide Data, BlockPath;
    var start := offset % BLOCK_SIZE;
    forall k | 0 <= k < n
      ensures FileBytes(fs, ino, n, offset)[k] == Data(fs, ino, BlockPath(offset / BLOCK_SIZE))[start..start + n][k]
    {
      InBlock(offset + k, offset, n);
    }
  }

  lemma ReadNothing(fs: Fs, ino: nat, offset: nat)
    requires ino in fs.inodes
    ensures ReadBytes(fs, ino, 0, offset) == Some([]) && Covered(fs, ino, 0, offset)
  {
  }

  lemma ReadPass(fs: Fs, ino: nat, left: nat, offset: nat)
    requires Wired(fs) && ino in fs.inodes && left > 0
    ensures var n, start := ChunkLength(offset, left), offset % BLOCK_SIZE;
            var rest := ReadBytes(fs, ino, left - n, offset + n);
            ReadBytes(fs, ino, left, offset) ==
            if offset / BLOCK_SIZE < TOTAL_BLOCK && Present(fs, ino, offset / BLOCK_SIZE) && rest.Some?
            then Some(Data(fs, ino, BlockPath(offset / BLOCK_SIZE))[start..start + n] + rest.value) else None
  {
    hide Wired, At, BlockPath, ChunkLength;
    if offset / BLOCK_SIZE < TOTAL_BLOCK {
      AtBound(fs, ino, BlockPath(offset / BLOCK_SIZE));
    }
  }

  /** minix_read gets through exactly when its range has no hole. */
  lemma {:induction false} ReadsWithoutHole(fs: Fs, ino: nat, left: nat, offset: nat)
    requires Wired(fs) && ino in fs.inodes
    ensures ReadBytes(fs, ino, left, offset).Some? <==> Covered(fs, ino, left, offset)
    decreases left
  {
    hide Wired, Covered, Touched, Present, ReadBytes, Data, ChunkLength;
    if left == 0 {
      ReadNothing(fs, ino, offset);
    } else {
      CoveredSplit(fs, ino, left, offset);
      ReadPass(fs, ino, left, offset);
      var n := ChunkLength(offset, left);
      ReadsWithoutHole(fs, ino, left - n, offset + n);
    }
  }

  /** Then it returns the file's bytes. */
  lemma {:induction false} ReadExact(fs: Fs, ino: nat, left: nat, offset: nat)
    requires Wired(fs) && ino in fs.inodes && offset + left <= MAX_SIZE && Covered(fs, ino, left, offset)
    ensures ReadBytes(fs, ino, left, offset) == Some(FileBytes(fs, ino, left, offset))
    decreases left
  {
    hide Wired, Covered, Touched, Present, ReadBytes, Data, ChunkLength, FileBytes;
    if left == 0 {
      ReadNothing(fs, ino, offset);
    } else {
      CoveredSplit(fs, ino, left, offset);
      ReadPass(fs, ino, left, offset);
      var n := ChunkLength(offset, left);
      ReadExact(fs, ino, left - n, offset + n);
      ChunkBytes(fs, ino, n, offset);
      FileBytesSplit(fs, ino, left, offset, n);
    }
  }

  /** Byte `o` of a file is `b`, read off the inode and the bytes of the disk. */
  predicate Lies(fs: Fs, ino: nat, o: nat, b: Byte)
    requires ino in fs.inodes
  {
    && o / 1024 < TOTAL_BLOCK
    && var z := ZoneOf(fs.zones, fs.inodes[ino].zone, o / 1024); 0 < z < |fs.zones| && b == fs.zones[z][o % 1024]
  }

  /** What minix_read returns lies on the disk where the inode and its tables say. */
  lemma ReadIsRaw(fs: Fs, ino: nat, len: nat, offset: nat)
    requires Wired(fs) && ino in fs.inodes && ReadAt(fs, ino, len, offset).Got?
    ensures var s, size := ReadAt(fs, ino, len, offset).bytes, fs.inodes[ino].size;
            && offset < size && |s| == Min(len, size - offset)
            && forall k | 0 <= k < |s| :: Lies(fs, ino, offset + k, s[k])
  {
    hide Wired, Covered, Touched, ReadBytes, Lies, ByteAt;
    var left := Min(len, fs.inodes[ino].size - offset);
    ReadsWithoutHole(fs, ino, left, offset);
    if left > 0 {
      CoveredFits(fs, ino, left, offset);
      ReadExact(fs, ino, left, offset);
      var s := ReadAt(fs, ino, len, offset).bytes;
      forall k | 0 <= k < |s|
        ensures Lies(fs, ino, offset + k, s[k])
      {
        RawByte(fs, ino, left, offset, k);
      }
    } else {
      ReadNothing(fs, ino, offset);
    }
  }

  lemma RawByte(fs: Fs, ino: nat, left: nat, offset: nat, k: nat)
    requires Wired(fs) && ino in fs.inodes && Covered(fs, ino, left, offset) && k < left
    ensures offset + k < MAX_SIZE && Lies(fs, ino, offset + k, ByteAt(fs, ino, offset + k))
  {
    hide Wired, At, BlockPath, ZoneOf;
    var b := (offset + k) / BLOCK_SIZE;
    assert Touched(b, offset, left);
    AtIsZoneOf(fs, ino, b);
    AtBound(fs, ino, BlockPath(b));
  }

  lemma FileBytesSplit(fs: Fs, ino: nat, left: nat, offset: nat, n: nat)
    requires ino in fs.inodes && n <= left && offset + left <= MAX_SIZE
    ensures FileBytes(fs, ino, left, offset) == FileBytes(fs, ino, n, offset) + FileBytes(fs, ino, left - n, offset + n)
  {
    hide ByteAt;
  }

  // The theorems.

  ghost predicate NoHoles(fs: Fs, ino: nat)
    requires ino in fs.inodes
  {
    Covered(fs, ino, fs.inodes[ino].size, 0)
  }

  /** What was written is what is read. */
  lemma WriteThenRead(fs: Fs, ino: nat, data: seq<Byte>, offset: nat)
    requires Wired(fs) && ino in fs.inodes && data != [] && WriteAt(fs, ino, data, offset).Some?
    ensures var hs := WriteAt(fs, ino, data, offset).value;
            ino in hs.inodes && ReadAt(hs, ino, |data|, offset) == Got(data)
  {
    hide Wired, Touched, ByteAt, Present, WriteAt, ReadBytes;
    var hs := WriteAt(fs, ino, data, offset).value;
    WriteEffect(fs, ino, data, offset);
    WriteFits(fs, ino, data, offset);
    forall b: nat | Touched(b, offset, |data|)
      ensures b < TOTAL_BLOCK && Present(hs, ino, b)
    {
      TouchedFits(b, offset, |data|);
    }
    ReadsWithoutHole(hs, ino, |data|, offset);
    ReadExact(hs, ino, |data|, offset);
    assert FileBytes(hs, ino, |data|, offset) == data;
  }

  lemma {:induction false} WriteFits(fs: Fs, ino: nat, data: seq<Byte>, offset: nat)
    requires ino in fs.inodes && data != [] && WriteAt(fs, ino, data, offset).Some?
    ensures offset + |data| <= MAX_SIZE
    decreases |data|
  {
    hide BlockPath, Create, At;
    var n := ChunkLength(offset, |data|);
    var gs := WriteChunk(fs, ino, offset, data[..n]).value;
    if n < |data| {
      hide WriteChunk;
      WriteFits(gs, ino, data[n..], offset + n);
    }
  }

  lemma TouchedFits(b: nat, offset: nat, n: nat)
    requires Touched(b, offset, n) && offset + n <= MAX_SIZE
    ensures b < TOTAL_BLOCK
  {
  }

  /** Writing to one file does not change what any read of another one gives. */
  lemma OtherFiles(fs: Fs, ino: nat, data: seq<Byte>, offset: nat, i: nat, len: nat, off: nat)
    requires Wired(fs) && ino in fs.inodes && WriteAt(fs, ino, data, offset).Some? && i in fs.inodes && i != ino
    ensures var hs := WriteAt(fs, ino, data, offset).value;
            i in hs.inodes && ReadAt(hs, i, len, off) == ReadAt(fs, i, len, off)
  {
    hide Wired, Touched, ByteAt, Present, WriteAt, ReadBytes;
    var hs := WriteAt(fs, ino, data, offset).value;
    WriteEffect(fs, ino, data, offset);
    var size := fs.inodes[i].size;
    if off < size {
      SameReads(fs, hs, i, Min(len, size - off), off);
    }
  }

  lemma SameReads(fs: Fs, hs: Fs, i: nat, left: nat, off: nat)
    requires Wired(fs) && Wired(hs) && i in fs.inodes && i in hs.inodes
    requires forall b | 0 <= b < TOTAL_BLOCK :: Present(hs, i, b) <==> Present(fs, i, b)
    requires forall o | 0 <= o < MAX_SIZE :: ByteAt(hs, i, o) == ByteAt(fs, i, o)
    ensures ReadBytes(hs, i, left, off) == ReadBytes(fs, i, left, off)
  {
    hide Wired, Touched, Present, ByteAt, ReadBytes;
    ReadsWithoutHole(fs, i, left, off);
    ReadsWithoutHole(hs, i, left, off);
    if left == 0 {
      ReadNothing(fs, i, off);
      ReadNothing(hs, i, off);
    } else if Covered(fs, i, left, off) {
      CoveredFits(fs, i, left, off);
      ReadExact(fs, i, left, off);
      ReadExact(hs, i, left, off);
      assert FileBytes(hs, i, left, off) == FileBytes(fs, i, left, off);
    }
  }

  /**
   * A write leaves a file without holes exactly when every whole block it jumps
   * over past the old end has a zone already.
   */
  lemma HolesExactly(fs: Fs, ino: nat, data: seq<Byte>, offset: nat)
    requires Wired(fs) && ino in fs.inodes && data != [] && WriteAt(fs, ino, data, offset).Some? && NoHoles(fs, ino)
    ensures ino in WriteAt(fs, ino, data, offset).value.inodes
    ensures NoHoles(WriteAt(fs, ino, data, offset).value, ino) <==>
              forall b | 0 <= b < TOTAL_BLOCK && Skipped(b, fs.inodes[ino].size, offset) :: Present(fs, ino, b)
  {
    hide Wired, Present, ByteAt, WriteAt;
    var hs := WriteAt(fs, ino, data, offset).value;
    WriteEffect(fs, ino, data, offset);
    WriteFits(fs, ino, data, offset);
    var old_, new_ := fs.inodes[ino].size, hs.inodes[ino].size;
    forall b: nat
      ensures Touched(b, 0, new_) <==> Touched(b, 0, old_) || Touched(b, offset, |data|) || Skipped(b, old_, offset)
      ensures Touched(b, offset, |data|) ==> b < TOTAL_BLOCK && !Skipped(b, old_, offset)
    {
      GrowRange(b, old_, offset, |data|);
    }
    forall b | 0 <= b < TOTAL_BLOCK && Skipped(b, old_, offset)
      ensures !Touched(b, offset, |data|) && Touched(b, 0, new_)
    {
    }
    hide Touched, Skipped;
  }

  /** Block `b` lies whole between the old end and `offset`. */
  predicate Skipped(b: nat, size: nat, offset: nat) {
    size <= b * BLOCK_SIZE && (b + 1) * BLOCK_SIZE <= offset
  }

  lemma GrowRange(b: nat, size: nat, offset: nat, n: nat)
    requires n > 0
    ensures Touched(b, 0, Max(size, offset + n))
            <==> Touched(b, 0, size) || Touched(b, offset, n) || Skipped(b, size, offset)
    ensures Touched(b, offset, n) ==> !Skipped(b, size, offset)
    ensures Touched(b, offset, n) && offset + n <= MAX_SIZE ==> b < TOTAL_BLOCK
  {
  }
}
