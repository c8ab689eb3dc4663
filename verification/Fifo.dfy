/** The byte ring buffer (src/include/xjos/fifo.h). */
module Fifo {

  /** The ring from tail to head, of which one cell always stays free. */
  function Ring(buf: seq<bv8>, tail: nat, head: nat): (r: seq<bv8>)
    requires tail < |buf| && head < |buf|
    ensures |r| == if tail <= head then head - tail else |buf| - tail + head
  {
    if tail <= head then buf[tail..head] else buf[tail..] + buf[..head]
  }

  function Next(size: nat, pos: nat): (r: nat)
    requires pos < size
    ensures r == if pos + 1 == size then 0 else pos + 1
  {
    (pos + 1) % size
  }

  lemma RingGet(buf: seq<bv8>, tail: nat, head: nat)
    requires tail < |buf| && head < |buf| && tail != head
    ensures Ring(buf, tail, head) == [buf[tail]] + Ring(buf, Next(|buf|, tail), head)
  {
    if tail < head {
      assert buf[tail..head] == [buf[tail]] + buf[tail + 1..head];
    } else if tail + 1 < |buf| {
      assert buf[tail..] == [buf[tail]] + buf[tail + 1..];
    } else {
      assert buf[tail..] == [buf[tail]];
      assert buf[0..head] == buf[..head];
    }
  }

  lemma RingPut(buf: seq<bv8>, tail: nat, head: nat, b: bv8)
    requires tail < |buf| && head < |buf| && Next(|buf|, head) != tail
    ensures Ring(buf[head := b], tail, Next(|buf|, head)) == Ring(buf, tail, head) + [b]
  {
    var after := buf[head := b];
    if tail <= head {
      assert after[tail..head] == buf[tail..head];
      if head + 1 < |buf| {
        assert after[tail..head + 1] == buf[tail..head] + [b];
      } else {
        assert after[tail..] == buf[tail..head] + [b] && after[..0] == [];
      }
    } else {
      assert after[tail..] == buf[tail..];
      assert after[..head + 1] == buf[..head] + [b];
    }
  }

  class Ringbuffer {
    const buf: array<bv8>
    var head: nat
    var tail: nat

    ghost predicate Valid()
      reads this
    {
      buf.Length >= 2 && head < buf.Length && tail < buf.Length
    }

    ghost function Contents(): (s: seq<bv8>)
      requires Valid()
      reads this, buf
      ensures |s| < buf.Length
    {
      Ring(buf[..], tail, head)
    }

    /** fifo_init */
    constructor (size: nat)
      requires size >= 2
      ensures Valid() && buf.Length == size && fresh(buf) && Contents() == []
    {
      buf := new bv8[size](i => 0);
      head, tail := 0, 0;
    }

    /** fifo_full, in terms of the bytes inside. */
    method Full() returns (r: bool)
      requires Valid()
      ensures r <==> |Contents()| == buf.Length - 1
    {
      r := Next(buf.Length, head) == tail;
    }

    /** fifo_empty */
    method Empty() returns (r: bool)
      requires Valid()
      ensures r <==> Contents() == []
    {
      r := head == tail;
    }

    /** fifo_get */
    method Get() returns (b: bv8)
      requires Valid() && Contents() != []
      modifies this`tail
      ensures Valid() && old(Contents()) == [b] + Contents()
    {
      RingGet(buf[..], tail, head);
      b := buf[tail];
      tail := Next(buf.Length, tail);
    }

    /** fifo_put: the oldest bytes make room if there is none. */
    method Put(b: bv8)
      requires Valid()
      modifies this`tail, this`head, buf
      ensures Valid()
      ensures |old(Contents())| < buf.Length - 1 ==> Contents() == old(Contents()) + [b]
      ensures |old(Contents())| == buf.Length - 1 ==> Contents() == old(Contents())[1..] + [b]
    {
      var full := Full();
      while full
        invariant Valid() && head == old(head) && buf[..] == old(buf[..]) && (full <==> |Contents()| == buf.Length - 1)
        invariant Contents() == old(Contents())
                  || (!full && |old(Contents())| == buf.Length - 1 && Contents() == old(Contents())[1..])
        decreases |Contents()|
      {
        var oldest := Get();
        full := Full();
      }
      RingPut(buf[..], tail, head, b);
      ghost var before := buf[..];
      buf[head] := b;
      assert buf[..] == before[head := b];
      head := Next(buf.Length, head);
    }
  }
}
