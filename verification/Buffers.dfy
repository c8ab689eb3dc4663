/** The buffer cache as the code keeps it (src/kernel/fs/buffer.c). */
module Buffers {
  import opened Prelude
  import opened BufferCache
  import opened BufferProofs
  import opened BufferMachine

  class Pool {
    const capacity: nat
    const mask: bv32
    var bufs: seq<Buf>
    var table: map<nat, seq<nat>>
    var freeList: seq<nat>
    var dirtyList: seq<nat>
    var disk: map<Addr, Block>
    ghost var plain: map<Addr, Block>
    var clock: nat

    ghost function State(): Cache
      reads this
    {
      Cache(capacity, mask, bufs, table, freeList, dirtyList, disk, plain, clock)
    }

    /** buffer_init */
    constructor (capacity: nat, mask: bv32, disk: map<Addr, Block>)
      ensures State() == Start(capacity, mask, disk) && Inv(State())
    {
      this.capacity, this.mask := capacity, mask;
      bufs, table, freeList, dirtyList, this.disk, plain, clock := [], map[], [], [], disk, disk, 0;
      StartInv(capacity, mask, disk);
    }

    /** get_from_hash_table */
    method Lookup(a: Addr) returns (r: Option<nat>)
      requires Inv(State())
      ensures r.Some? ==> r.value < |bufs| && bufs[r.value].addr == a
      ensures r.None? ==> forall i | 0 <= i < |bufs| :: bufs[i].addr != a
      ensures TableInRange(State()) && r == Scan(bufs, Bucket(State(), Hash(a, mask)), a)
    {
      hide Hash, Lru, Coherent, DirtyListed, Unique;
      ScanExact(State(), a);
      var k := Hash(a, mask);
      var list := if k in table then table[k] else [];
      var p := 0;
      while p < |list|
        invariant p <= |list| && Below(list[p..], |bufs|)
        invariant Scan(bufs, list[p..], a) == Scan(bufs, list, a)
      {
        if bufs[list[p]].addr == a {
          return Some(list[p]);
        }
        assert list[p..][1..] == list[p + 1..];
        p := p + 1;
      }
      return None;
    }

    method SetDirty(i: nat, dirty: bool)
      requires i < |bufs|
      modifies this`bufs, this`dirtyList
      ensures State() == Bdirty(old(State()), i, dirty)
    {
      if bufs[i].dirty == dirty {
        return;
      }
      if dirty {
        if i !in dirtyList {
          dirtyList := [i] + dirtyList;
        }
      } else {
        dirtyList := Remove(dirtyList, i);
      }
      bufs := bufs[i := bufs[i].(dirty := dirty)];
    }

    method WriteBuffer(i: nat)
      requires i < |bufs|
      modifies this`bufs, this`dirtyList, this`disk
      ensures State() == Bwrite(old(State()), i) && |bufs| == old(|bufs|)
    {
      hide Remove;
      if bufs[i].dirty {
        disk := disk[bufs[i].addr := bufs[i].data];
        SetDirty(i, false);
        bufs := bufs[i := bufs[i].(valid := true)];
      }
    }

    /** get_free_buffer; None when all buffers are held and the caller has to wait. */
    method GetFreeBuffer() returns (r: Option<nat>)
      requires Below(freeList, |bufs|)
      modifies this
      ensures var s := GetFree(old(State()));
              if s.None? then r == None && State() == old(State())
              else r == Some(s.value.1) && State() == s.value.0
    {
      hide Hash, Remove, Bwrite;
      if |bufs| < capacity {
        bufs := bufs + [NEW_BUF];
        return Some(|bufs| - 1);
      }
      if freeList == [] {
        return None;
      }
      var i := freeList[|freeList| - 1];
      freeList := freeList[..|freeList| - 1];
      WriteBuffer(i);
      var k := Hash(bufs[i].addr, mask);
      table := table[k := Remove(if k in table then table[k] else [], i)];
      bufs := bufs[i := bufs[i].(valid := false, dirty := false)];
      r := Some(i);
    }

    /** getblk */
    method GetBlock(a: Addr) returns (r: Option<nat>)
      requires Inv(State())
      modifies this
      ensures Inv(State()) && InRange(old(State()))
      ensures var s := Getblk(old(State()), a);
              if s.None? then r == None && State() == old(State())
              else r == Some(s.value.1) && State() == s.value.0
    {
      hide Hash, Remove, GetFree, Inv, Scan;
      GetblkInv(State(), a);
      InvInRange(State());
      r := Lookup(a);
      if r.Some? {
        var i := r.value;
        var count := bufs[i].count;
        bufs := bufs[i := bufs[i].(count := count + 1)];
        if count == 0 {
          freeList := Remove(freeList, i);
        }
        return;
      }
      r := GetFreeBuffer();
      if r.None? {
        return;
      }
      var i := r.value;
      bufs := bufs[i := bufs[i].(count := 1, addr := a)];
      var k := Hash(a, mask);
      table := table[k := [i] + if k in table then table[k] else []];
    }

    /** bread */
    method ReadBlock(a: Addr) returns (r: Option<nat>)
      requires Inv(State())
      modifies this
      ensures Inv(State())
      ensures r.Some? ==>
                && r.value < |bufs| && bufs[r.value].addr == a && bufs[r.value].count > 0
                && bufs[r.value].valid && bufs[r.value].data == At(old(plain), a)
      ensures InRange(old(State()))
      ensures var s := Bread(old(State()), a);
              if s.None? then r == None && State() == old(State())
              else r == Some(s.value.1) && State() == s.value.0
    {
      hide Inv, Getblk;
      BreadReturnsPlain(State(), a);
      if Bread(State(), a).Some? {
        BreadPlain(State(), a);
      }
      GetblkInv(State(), a);
      r := GetBlock(a);
      if r.Some? && !bufs[r.value].valid {
        var i := r.value;
        var data := if bufs[i].addr in disk then disk[bufs[i].addr] else [];
        bufs := bufs[i := bufs[i].(data := data, dirty := false, valid := true)];
      }
    }

    /** brelse */
    method ReleaseBuffer(i: nat)
      requires Inv(State()) && i < |bufs| && bufs[i].count > 0
      modifies this
      ensures State() == Brelse(old(State()), i) && Inv(State())
    {
      hide Inv;
      BrelseInv(State(), i);
      var count := bufs[i].count - 1;
      bufs := bufs[i := bufs[i].(count := count)];
      if count == 0 {
        bufs := bufs[i := bufs[i].(released := clock)];
        freeList := [i] + freeList;
        clock := clock + 1;
      }
    }

    /** bsync */
    method SyncAll()
      requires Inv(State())
      modifies this`bufs, this`dirtyList, this`disk
      ensures InRange(old(State())) && State() == Bsync(old(State())) && Inv(State()) && dirtyList == []
    {
      hide Inv, Bwrite;
      InvInRange(State());
      SyncEffect(State());
      var list := dirtyList;
      var node := 0;
      while node < |list|
        invariant node <= |list| && Below(list, |bufs|) && Below(list[node..], |bufs|)
        invariant Flush(State(), list[node..]) == Bsync(old(State()))
      {
        assert list[node..][1..] == list[node + 1..];
        WriteBuffer(list[node]);
        node := node + 1;
      }
    }
  }
}
