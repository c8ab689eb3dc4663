/** First-fit bitmap (src/kernel/lib/bitmap.c). */
module Bitmap {
  import opened Prelude

  /** 1 << k */
  function Mask(k: nat): bv8
    requires k < 8
  {
    if k < 4 then (if k < 2 then (if k == 0 then 1 else 2) else (if k == 2 then 4 else 8))
    else (if k < 6 then (if k == 4 then 16 else 32) else (if k == 6 then 64 else 128))
  }

  predicate Bit(b: bv8, k: nat)
    requires k < 8
  {
    b & Mask(k) != 0
  }

  lemma FullByte(b: bv8)
    ensures b == 0xFF <==> forall k | 0 <= k < 8 :: Bit(b, k)
  {
    if forall k | 0 <= k < 8 :: Bit(b, k) {
      assert Bit(b, 0) && Bit(b, 1) && Bit(b, 2) && Bit(b, 3) && Bit(b, 4) && Bit(b, 5) && Bit(b, 6) && Bit(b, 7);
    }
  }

  lemma SetBit(b: bv8, k: nat, j: nat)
    requires k < 8 && j < 8
    ensures Bit(b | Mask(k), j) <==> j == k || Bit(b, j)
  {
  }

  lemma ClearBit(b: bv8, k: nat, j: nat)
    requires k < 8 && j < 8
    ensures Bit(b & !Mask(k), j) <==> j != k && Bit(b, j)
  {
  }

  function Bits(s: seq<bv8>): (r: seq<bool>)
    ensures |r| == 8 * |s|
  {
    seq(8 * |s|, i requires 0 <= i < 8 * |s| => Bit(s[i / 8], i % 8))
  }

  /** `b` with the bits in [start, start + count) set to `value`. */
  function Fill(b: seq<bool>, start: nat, count: nat, value: bool): (r: seq<bool>)
    requires start + count <= |b|
    ensures |r| == |b|
    ensures forall i | 0 <= i < |b| :: r[i] == if start <= i < start + count then value else b[i]
  {
    seq(|b|, i requires 0 <= i < |b| => if start <= i < start + count then value else b[i])
  }

  predicate Clear(b: seq<bool>, start: nat, count: nat) {
    start + count <= |b| && forall i | start <= i < start + count :: !b[i]
  }

  /** The least start of `count` clear bits, or |b| if there is none. */
  function FirstFit(b: seq<bool>, count: nat, from: nat := 0): (r: nat)
    requires from <= |b|
    ensures from <= r <= |b|
    ensures r < |b| ==> Clear(b, r, count)
    ensures forall s | from <= s < r :: !Clear(b, s, count)
    decreases |b| - from
  {
    if from == |b| || Clear(b, from, count) then from else FirstFit(b, count, from + 1)
  }

  /** Writing one bit of one byte writes one bit of the map. */
  lemma ByteUpdate(s: seq<bv8>, at: nat, v: bv8, value: bool)
    requires at < 8 * |s|
    requires forall j | 0 <= j < 8 :: Bit(v, j) == if j == at % 8 then value else Bit(s[at / 8], j)
    ensures Bits(s[at / 8 := v]) == Bits(s)[at := value]
  {
    var t := s[at / 8 := v];
    forall i | 0 <= i < 8 * |s|
      ensures Bits(t)[i] == Bits(s)[at := value][i]
    {
      if i / 8 == at / 8 {
        assert i == 8 * (i / 8) + i % 8 && at == 8 * (at / 8) + at % 8;
      }
    }
  }

  class Map {
    const bits: array<bv8>
    const offset: nat

    ghost function Contents(): (b: seq<bool>)
      reads bits
      ensures |b| == 8 * bits.Length
    {
      Bits(bits[..])
    }

    /** bitmap_init */
    constructor (length: nat, offset: nat)
      ensures this.offset == offset && bits.Length == length && fresh(bits)
      ensures forall i | 0 <= i < 8 * length :: !Contents()[i]
    {
      bits := new bv8[length](i => 0);
      this.offset := offset;
    }

    /** bitmap_test */
    method Test(index: nat) returns (r: bool)
      requires offset <= index < offset + 8 * bits.Length
      ensures r == Contents()[index - offset]
    {
      var idx := index - offset;
      r := bits[idx / 8] & Mask(idx % 8) != 0;
    }

    /** bitmap_set */
    method Set(index: nat, value: bool)
      requires offset <= index < offset + 8 * bits.Length
      modifies bits
      ensures Contents() == old(Contents())[index - offset := value]
    {
      var idx := index - offset;
      var v := if value then bits[idx / 8] | Mask(idx % 8) else bits[idx / 8] & !Mask(idx % 8);
      forall j | 0 <= j < 8
        ensures Bit(v, j) == if j == idx % 8 then value else Bit(bits[idx / 8], j)
      {
        SetBit(bits[idx / 8], idx % 8, j);
        ClearBit(bits[idx / 8], idx % 8, j);
      }
      ByteUpdate(bits[..], idx, v, value);
      assert bits[..][idx / 8 := v] == old(bits[..])[idx / 8 := v];
      bits[idx / 8] := v;
      assert bits[..] == old(bits[..])[idx / 8 := v];
    }

    /** The inner loop of bitmap_scan, over one byte. */
    method SearchByte(byteIdx: nat, counter0: nat, count: nat) returns (counter: nat, found: bool, start: nat)
      requires byteIdx < bits.Length && counter0 < count
      requires Counted(Contents(), 8 * byteIdx, counter0) && NoneBefore(Contents(), 8 * byteIdx, count)
      ensures found ==> start == FirstFit(Contents(), count) < 8 * bits.Length
      ensures !found ==> counter < count && Counted(Contents(), 8 * byteIdx + 8, counter)
      ensures !found ==> NoneBefore(Contents(), 8 * byteIdx + 8, count)
    {
      hide Counted, NoneBefore, FirstFit, Bits, Mask;
      ghost var b := Contents();
      var byte, next, bit := bits[byteIdx], 8 * byteIdx, 0;
      counter, found, start := counter0, false, 0;
      while bit < 8
        invariant bit <= 8 && next == 8 * byteIdx + bit && counter < count && !found
        invariant Counted(b, next, counter) && NoneBefore(b, next, count)
      {
        BitAt(bits[..], byteIdx, bit);
        NextBit(b, next, counter, count);
        counter := if byte & Mask(bit) == 0 then counter + 1 else 0;
        if counter == count {
          found, start := true, next + 1 - count;
          return;
        }
        bit, next := bit + 1, next + 1;
      }
    }

    /** The search of bitmap_scan; the number of bits when it ends at `no find`. */
    method Search(count: nat) returns (start: nat)
      requires 0 < count <= 8 * bits.Length
      ensures start == FirstFit(Contents(), count)
    {
      hide Counted, NoneBefore, FirstFit, Bits;
      ghost var b := Contents();
      NoneYet(b, count);
      var byteIdx: nat, counter: nat := 0, 0;
      while byteIdx < bits.Length
        invariant byteIdx <= bits.Length && counter < count
        invariant Counted(b, 8 * byteIdx, counter) && NoneBefore(b, 8 * byteIdx, count)
      {
        if bits[byteIdx] == 0xFF {
          ByteFull(bits[..], byteIdx);
          SkipByte(b, 8 * byteIdx, counter, count);
          counter := 0;
        } else {
          var found;
          counter, found, start := SearchByte(byteIdx, counter, count);
          if found {
            return;
          }
        }
        byteIdx := byteIdx + 1;
      }
      NoneAtAll(b, count);
      start := 8 * bits.Length;
    }

    /** bitmap_scan; None is EOF. */
    method Scan(count: nat) returns (r: Option<nat>)
      modifies bits
      ensures var b := old(Contents()); var s := FirstFit(b, count);
              if count > 0 && s < |b|
              then r == Some(s + offset) && Contents() == Fill(b, s, count, true)
              else r == None && Contents() == b
    {
      if count == 0 || count > 8 * bits.Length {
        return None;
      }
      var start := Search(count);
      ghost var b := Contents();
      if start == 8 * bits.Length {
        return None;
      }
      assert Clear(b, start, count);
      var left: nat := count;
      while left > 0
        invariant left <= count && start + count <= |b|
        invariant Contents() == Fill(b, start, count - left, true)
      {
        Set(offset + start + count - left, true);
        left := left - 1;
      }
      r := Some(start + offset);
    }
  }

  /** `counter` clear bits end at `next`, and no more. */
  predicate Counted(b: seq<bool>, next: nat, counter: nat) {
    && counter <= next <= |b|
    && Clear(b, next - counter, counter)
    && (counter < next ==> b[next - counter - 1])
  }

  /** No fitting run ends by `next`. */
  predicate NoneBefore(b: seq<bool>, next: nat, count: nat) {
    forall s: nat | s + count <= next :: !Clear(b, s, count)
  }

  lemma NoneYet(b: seq<bool>, count: nat)
    requires count > 0
    ensures Counted(b, 0, 0) && NoneBefore(b, 0, count)
  {
  }

  lemma BitAt(s: seq<bv8>, k: nat, j: nat)
    requires k < |s| && j < 8
    ensures Bits(s)[8 * k + j] == Bit(s[k], j)
  {
    assert (8 * k + j) / 8 == k && (8 * k + j) % 8 == j;
  }

  lemma ByteFull(s: seq<bv8>, k: nat)
    requires k < |s| && s[k] == 0xFF
    ensures forall i | 8 * k <= i < 8 * k + 8 :: Bits(s)[i]
  {
    FullByte(s[k]);
    forall i | 8 * k <= i < 8 * k + 8
      ensures Bits(s)[i]
    {
      BitAt(s, k, i - 8 * k);
    }
  }

  lemma NextBit(b: seq<bool>, next: nat, counter: nat, count: nat)
    requires next < |b| && counter < count && Counted(b, next, counter) && NoneBefore(b, next, count)
    ensures b[next] ==> Counted(b, next + 1, 0)
    ensures !b[next] ==> Counted(b, next + 1, counter + 1)
    ensures b[next] || counter + 1 < count ==> NoneBefore(b, next + 1, count)
    ensures !b[next] && counter + 1 == count ==> FirstFit(b, count) == next + 1 - count
  {
    if b[next] {
      forall s: nat | s + count <= next + 1
        ensures !Clear(b, s, count)
      {
        if s + count == next + 1 {
          assert s <= next < s + count;
        }
      }
    } else if counter + 1 < count {
      forall s: nat | s + count <= next + 1
        ensures !Clear(b, s, count)
      {
        if s + count == next + 1 {
          assert s <= next - counter - 1 < s + count;
        }
      }
    } else {
      var s := next + 1 - count;
      assert Clear(b, s, count);
      var r := FirstFit(b, count);
    }
  }

  lemma SkipByte(b: seq<bool>, next: nat, counter: nat, count: nat)
    requires next + 8 <= |b| && counter < count && Counted(b, next, counter) && NoneBefore(b, next, count)
    requires forall i | next <= i < next + 8 :: b[i]
    ensures Counted(b, next + 8, 0) && NoneBefore(b, next + 8, count)
  {
    forall s: nat | s + count <= next + 8
      ensures !Clear(b, s, count)
    {
      if s + count > next {
        assert s <= s + count - 1 < s + count && b[s + count - 1];
      }
    }
  }

  lemma NoneAtAll(b: seq<bool>, count: nat)
    requires 0 < count && NoneBefore(b, |b|, count)
    ensures FirstFit(b, count) == |b|
  {
    var r := FirstFit(b, count);
    assert r < |b| ==> Clear(b, r, count);
  }
}
