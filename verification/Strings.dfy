/**
 * The word-at-a-time string routines (src/libs/common/string.c).  `mem` is the
 * memory they run over, with a pointer as an index; words are little-endian and
 * read at multiples of four only.
 */
module Strings {
  import opened Prelude

  const LOMAGIC: bv32 := 0x01010101
  const HIMAGIC: bv32 := 0x80808080

  predicate Magic(w: bv32) {
    (w - LOMAGIC) & !w & HIMAGIC != 0
  }

  function Join(b0: bv8, b1: bv8, b2: bv8, b3: bv8): bv32 {
    (b0 as bv32) | ((b1 as bv32) << 8) | ((b2 as bv32) << 16) | ((b3 as bv32) << 24)
  }

  function Word(mem: seq<bv8>, p: nat): bv32
    requires p + 4 <= |mem|
  {
    Join(mem[p], mem[p + 1], mem[p + 2], mem[p + 3])
  }

  ghost predicate Terminated(mem: seq<bv8>, p: nat) {
    exists e :: p <= e < |mem| && mem[e] == 0
  }

  /** Where the string at `p` ends. */
  ghost function End(mem: seq<bv8>, p: nat): (e: nat)
    requires Terminated(mem, p)
    ensures p <= e < |mem| && mem[e] == 0
    ensures forall i | p <= i < e :: mem[i] != 0
    decreases |mem| - p
  {
    if mem[p] == 0 then p else End(mem, p + 1)
  }

  ghost function Str(mem: seq<bv8>, p: nat): seq<bv8>
    requires Terminated(mem, p)
  {
    mem[p..End(mem, p)]
  }

  // What the magic numbers find.

  /** Byte `k` of the word is zero. */
  predicate LaneZero(w: bv32, k: nat) {
    if k == 0 then w & 0xff == 0
    else if k == 1 then w & 0xff00 == 0
    else if k == 2 then w & 0xff0000 == 0
    else w & 0xff000000 == 0
  }

  lemma MagicLanes(w: bv32)
    ensures Magic(w) <==> LaneZero(w, 0) || LaneZero(w, 1) || LaneZero(w, 2) || LaneZero(w, 3)
  {
  }

  lemma XorMasked(a: bv32, b: bv32, m: bv32)
    ensures (a ^ b) & m == 0 <==> a & m == b & m
  {
  }

  function Xor(a: bv32, b: bv32): bv32 {
    a ^ b
  }

  lemma Lanes(b0: bv8, b1: bv8, b2: bv8, b3: bv8)
    ensures var w := Join(b0, b1, b2, b3);
            && w & 0xff == b0 as bv32 && w & 0xff00 == (b1 as bv32) << 8
            && w & 0xff0000 == (b2 as bv32) << 16 && w & 0xff000000 == (b3 as bv32) << 24
  {
  }

  lemma LaneEqual(b: bv8, c: bv8)
    ensures b as bv32 == c as bv32 <==> b == c
    ensures (b as bv32) << 8 == (c as bv32) << 8 <==> b == c
    ensures (b as bv32) << 16 == (c as bv32) << 16 <==> b == c
    ensures (b as bv32) << 24 == (c as bv32) << 24 <==> b == c
  {
  }

  lemma Lane0(b0: bv8, b1: bv8, b2: bv8, b3: bv8, c: bv8)
    ensures LaneZero(Xor(Join(b0, b1, b2, b3), Join(c, c, c, c)), 0) <==> b0 == c
  {
    hide Join;
    XorMasked(Join(b0, b1, b2, b3), Join(c, c, c, c), 0xff);
    Lanes(b0, b1, b2, b3);
    Lanes(c, c, c, c);
    LaneEqual(b0, c);
  }

  lemma Lane1(b0: bv8, b1: bv8, b2: bv8, b3: bv8, c: bv8)
    ensures LaneZero(Xor(Join(b0, b1, b2, b3), Join(c, c, c, c)), 1) <==> b1 == c
  {
    hide Join;
    XorMasked(Join(b0, b1, b2, b3), Join(c, c, c, c), 0xff00);
    Lanes(b0, b1, b2, b3);
    Lanes(c, c, c, c);
    LaneEqual(b1, c);
  }

  lemma Lane2(b0: bv8, b1: bv8, b2: bv8, b3: bv8, c: bv8)
    ensures LaneZero(Xor(Join(b0, b1, b2, b3), Join(c, c, c, c)), 2) <==> b2 == c
  {
    hide Join;
    XorMasked(Join(b0, b1, b2, b3), Join(c, c, c, c), 0xff0000);
    Lanes(b0, b1, b2, b3);
    Lanes(c, c, c, c);
    LaneEqual(b2, c);
  }

  lemma Lane3(b0: bv8, b1: bv8, b2: bv8, b3: bv8, c: bv8)
    ensures LaneZero(Xor(Join(b0, b1, b2, b3), Join(c, c, c, c)), 3) <==> b3 == c
  {
    hide Join;
    XorMasked(Join(b0, b1, b2, b3), Join(c, c, c, c), 0xff000000);
    Lanes(b0, b1, b2, b3);
    Lanes(c, c, c, c);
    LaneEqual(b3, c);
  }

  /** The test is non-zero exactly when one of the four bytes is zero. */
  lemma MagicZero(b0: bv8, b1: bv8, b2: bv8, b3: bv8)
    ensures Magic(Join(b0, b1, b2, b3)) <==> b0 == 0 || b1 == 0 || b2 == 0 || b3 == 0
  {
  }

  /** On the word xor the repeated character, exactly when one of the bytes is that character. */
  lemma MagicMatch(b0: bv8, b1: bv8, b2: bv8, b3: bv8, c: bv8)
    ensures Magic(Xor(Join(b0, b1, b2, b3), Join(c, c, c, c))) <==> b0 == c || b1 == c || b2 == c || b3 == c
  {
    hide Magic, Join, Xor, LaneZero;
    MagicLanes(Xor(Join(b0, b1, b2, b3), Join(c, c, c, c)));
    Lane0(b0, b1, b2, b3, c);
    Lane1(b0, b1, b2, b3, c);
    Lane2(b0, b1, b2, b3, c);
    Lane3(b0, b1, b2, b3, c);
  }

  lemma JoinEqual(a0: bv8, a1: bv8, a2: bv8, a3: bv8, b0: bv8, b1: bv8, b2: bv8, b3: bv8)
    ensures Join(a0, a1, a2, a3) == Join(b0, b1, b2, b3) <==> a0 == b0 && a1 == b1 && a2 == b2 && a3 == b3
  {
  }

  /** strlen */
  method Strlen(mem: seq<bv8>, str: nat) returns (n: nat)
    requires |mem| % 4 == 0 && Terminated(mem, str)
    ensures n == |Str(mem, str)|
  {
    hide Magic, Join;
    ghost var e := End(mem, str);
    var p := str;
    while p % 4 != 0
      invariant str <= p <= e
      decreases e - p
    {
      if mem[p] == 0 {
        return p - str;
      }
      p := p + 1;
    }
    while true
      invariant str <= p <= e && p % 4 == 0
      decreases e - p
    {
      MagicZero(mem[p], mem[p + 1], mem[p + 2], mem[p + 3]);
      if Magic(Word(mem, p)) {
        if mem[p] == 0 { return p - str; }
        if mem[p + 1] == 0 { return p - str + 1; }
        if mem[p + 2] == 0 { return p - str + 2; }
        return p - str + 3;
      }
      p := p + 4;
    }
  }

  // Order.

  /** Lexicographic order of unsigned bytes. */
  predicate Less(a: seq<bv8>, b: seq<bv8>) {
    if b == [] then false
    else if a == [] then true
    else a[0] < b[0] || (a[0] == b[0] && Less(a[1..], b[1..]))
  }

  lemma {:induction false} LessAfter(a: seq<bv8>, b: seq<bv8>, k: nat)
    requires k <= |a| && k <= |b| && a[..k] == b[..k]
    ensures Less(a, b) <==> Less(a[k..], b[k..])
    decreases k
  {
    if k > 0 {
      assert a[0] == a[..k][0] && b[0] == b[..k][0];
      assert a[1..][..k - 1] == a[..k][1..] && b[1..][..k - 1] == b[..k][1..];
      assert a[1..][k - 1..] == a[k..] && b[1..][k - 1..] == b[k..];
      LessAfter(a[1..], b[1..], k - 1);
    } else {
      assert a[0..] == a && b[0..] == b;
    }
  }

  /** The strings at `l` and `r` go on together for `k` bytes. */
  ghost predicate Agree(mem: seq<bv8>, l: nat, r: nat, k: nat)
    requires Terminated(mem, l) && Terminated(mem, r)
  {
    && l + k <= End(mem, l) && r + k <= End(mem, r)
    && mem[l..l + k] == mem[r..r + k]
  }

  lemma AgreeBounds(mem: seq<bv8>, l: nat, r: nat, k: nat)
    requires Terminated(mem, l) && Terminated(mem, r) && Agree(mem, l, r, k)
    ensures l + k <= End(mem, l) < |mem| && r + k <= End(mem, r) < |mem|
  {
  }

  predicate Aligned(p: nat) {
    p % 4 == 0
  }

  /** An aligned word that starts inside the memory ends inside it, and the next one is aligned too. */
  lemma Whole(p: nat, size: nat)
    requires p < size && Aligned(p) && Aligned(size)
    ensures p + 4 <= size && Aligned(p + 4)
  {
  }

  lemma AgreeMore(mem: seq<bv8>, l: nat, r: nat, k: nat)
    requires Terminated(mem, l) && Terminated(mem, r) && Agree(mem, l, r, k)
    requires mem[l + k] == mem[r + k] != 0
    ensures Agree(mem, l, r, k + 1)
  {
    assert mem[l..l + k + 1] == mem[l..l + k] + [mem[l + k]];
    assert mem[r..r + k + 1] == mem[r..r + k] + [mem[r + k]];
  }

  /** The first byte that differs or ends the strings decides. */
  lemma Decides(mem: seq<bv8>, l: nat, r: nat, k: nat)
    requires Terminated(mem, l) && Terminated(mem, r) && Agree(mem, l, r, k)
    requires mem[l + k] != mem[r + k] || mem[l + k] == 0
    ensures var a, b := Str(mem, l), Str(mem, r);
            && (mem[l + k] < mem[r + k] <==> Less(a, b))
            && (mem[l + k] > mem[r + k] <==> Less(b, a))
            && (mem[l + k] == mem[r + k] <==> a == b)
  {
    var a, b := Str(mem, l), Str(mem, r);
    StrAt(mem, l, k);
    StrAt(mem, r, k);
    hide Str, End, Less;
    LessAfter(a, b, k);
    LessAfter(b, a, k);
    if mem[l + k] == mem[r + k] {
      assert a == a[..k] && b == b[..k];
      NotLess(a[k..]);
    } else {
      DiffersAt(a, b, k, mem[l + k], mem[r + k]);
    }
  }

  lemma NotLess(a: seq<bv8>)
    requires a == []
    ensures !Less(a, a)
  {
  }

  lemma StrAt(mem: seq<bv8>, p: nat, k: nat)
    requires Terminated(mem, p) && p + k <= End(mem, p)
    ensures k <= |Str(mem, p)| && Str(mem, p)[..k] == mem[p..p + k]
    ensures if mem[p + k] == 0 then k == |Str(mem, p)| else k < |Str(mem, p)| && Str(mem, p)[k] == mem[p + k]
  {
  }

  /** `x` and `y` are what follows the first `k` bytes, zero standing for the end. */
  lemma DiffersAt(a: seq<bv8>, b: seq<bv8>, k: nat, x: bv8, y: bv8)
    requires k <= |a| && k <= |b| && x != y
    requires if x == 0 then k == |a| else k < |a| && a[k] == x
    requires if y == 0 then k == |b| else k < |b| && b[k] == y
    ensures a != b
    ensures x < y <==> Less(a[k..], b[k..])
    ensures x > y <==> Less(b[k..], a[k..])
  {
    if x == 0 {
      assert a[k..] == [];
    } else if y == 0 {
      assert b[k..] == [];
    }
  }

  function Difference(x: bv8, y: bv8): (d: int)
    ensures (d < 0 <==> x < y) && (d > 0 <==> x > y)
  {
    (x as int) - (y as int)
  }

  ghost predicate SameString(mem: seq<bv8>, l: nat, r: nat)
    requires Terminated(mem, l) && Terminated(mem, r)
  {
    Str(mem, l) == Str(mem, r) && !Less(Str(mem, l), Str(mem, r)) && !Less(Str(mem, r), Str(mem, l))
  }

  /** A common word without a zero is four more common bytes; one with a zero ends both strings. */
  lemma CommonWord(mem: seq<bv8>, l: nat, r: nat, k: nat)
    requires Terminated(mem, l) && Terminated(mem, r) && Agree(mem, l, r, k)
    requires l + k + 4 <= |mem| && r + k + 4 <= |mem| && Word(mem, l + k) == Word(mem, r + k)
    ensures !Magic(Word(mem, l + k)) ==> Agree(mem, l, r, k + 4)
    ensures Magic(Word(mem, l + k)) ==> SameString(mem, l, r)
  {
    hide Magic, Join, Agree, SameString, End;
    var p, q := l + k, r + k;
    JoinEqual(mem[p], mem[p + 1], mem[p + 2], mem[p + 3], mem[q], mem[q + 1], mem[q + 2], mem[q + 3]);
    MagicZero(mem[p], mem[p + 1], mem[p + 2], mem[p + 3]);
    CommonByte(mem, l, r, k);
    if mem[p] != 0 {
      CommonByte(mem, l, r, k + 1);
      if mem[p + 1] != 0 {
        CommonByte(mem, l, r, k + 2);
        if mem[p + 2] != 0 {
          CommonByte(mem, l, r, k + 3);
        }
      }
    }
  }

  lemma CommonByte(mem: seq<bv8>, l: nat, r: nat, k: nat)
    requires Terminated(mem, l) && Terminated(mem, r) && Agree(mem, l, r, k)
    requires l + k < |mem| && r + k < |mem| && mem[l + k] == mem[r + k]
    ensures if mem[l + k] == 0 then SameString(mem, l, r) else Agree(mem, l, r, k + 1)
  {
    hide Str, Less, Agree;
    if mem[l + k] == 0 {
      Decides(mem, l, r, k);
    } else {
      AgreeMore(mem, l, r, k);
    }
  }

  /** strcmp */
  method Strcmp(mem: seq<bv8>, lhs: nat, rhs: nat) returns (d: int)
    requires |mem| % 4 == 0 && Terminated(mem, lhs) && Terminated(mem, rhs)
    ensures d < 0 <==> Less(Str(mem, lhs), Str(mem, rhs))
    ensures d > 0 <==> Less(Str(mem, rhs), Str(mem, lhs))
    ensures d == 0 <==> Str(mem, lhs) == Str(mem, rhs)
  {
    hide Magic, Join, Less, Str;
    var k := 0;
    while (lhs + k) % 4 != 0 || (rhs + k) % 4 != 0
      invariant Agree(mem, lhs, rhs, k)
      decreases End(mem, lhs) - k
    {
      if mem[lhs + k] != mem[rhs + k] || mem[lhs + k] == 0 {
        Decides(mem, lhs, rhs, k);
        return Difference(mem[lhs + k], mem[rhs + k]);
      }
      AgreeMore(mem, lhs, rhs, k);
      k := k + 1;
    }
    var ended;
    k, ended := WordLoop(mem, lhs, rhs, k);
    if ended {
      return 0;
    }
    d := TailCompare(mem, lhs, rhs, k);
  }

  /** The fast path of strcmp: as far as whole words agree, or to the end of both strings. */
  method WordLoop(mem: seq<bv8>, lhs: nat, rhs: nat, start: nat) returns (k: nat, ended: bool)
    requires Aligned(|mem|) && Terminated(mem, lhs) && Terminated(mem, rhs)
    requires Aligned(lhs + start) && Aligned(rhs + start) && Agree(mem, lhs, rhs, start)
    ensures if ended then SameString(mem, lhs, rhs) else Agree(mem, lhs, rhs, k)
  {
    hide Magic, Join, Word, Less, Str, End, Agree, SameString, Aligned;
    k, ended := start, false;
    AgreeBounds(mem, lhs, rhs, k);
    Whole(lhs + k, |mem|);
    Whole(rhs + k, |mem|);
    while Word(mem, lhs + k) == Word(mem, rhs + k)
      invariant lhs + k + 4 <= |mem| && rhs + k + 4 <= |mem| && !ended
      invariant Aligned(lhs + k) && Aligned(rhs + k) && Aligned(lhs + k + 4) && Aligned(rhs + k + 4)
      invariant Agree(mem, lhs, rhs, k)
      decreases |mem| - k
    {
      CommonWord(mem, lhs, rhs, k);
      if Magic(Word(mem, lhs + k)) {
        ended := true;
        return;
      }
      k := k + 4;
      AgreeBounds(mem, lhs, rhs, k);
      Whole(lhs + k, |mem|);
      Whole(rhs + k, |mem|);
    }
  }

  /** The byte loop that strcmp ends with. */
  method TailCompare(mem: seq<bv8>, lhs: nat, rhs: nat, start: nat) returns (d: int)
    requires Terminated(mem, lhs) && Terminated(mem, rhs) && Agree(mem, lhs, rhs, start)
    ensures d < 0 <==> Less(Str(mem, lhs), Str(mem, rhs))
    ensures d > 0 <==> Less(Str(mem, rhs), Str(mem, lhs))
    ensures d == 0 <==> Str(mem, lhs) == Str(mem, rhs)
  {
    hide Less, Str;
    var k := start;
    while mem[lhs + k] == mem[rhs + k] && mem[lhs + k] != 0
      invariant Agree(mem, lhs, rhs, k)
      decreases End(mem, lhs) - k
    {
      AgreeMore(mem, lhs, rhs, k);
      k := k + 1;
    }
    Decides(mem, lhs, rhs, k);
    d := Difference(mem[lhs + k], mem[rhs + k]);
  }

  // Search.

  /** `char` is signed, the character sought is not. */
  predicate CharEquals(b: bv8, c: bv8) {
    (if b < 128 then b as int else b as int - 256) == c as int
  }

  lemma CharEqualsBelow(b: bv8, c: bv8)
    ensures CharEquals(b, c) <==> b == c && c < 128
  {
  }

  /** The first `c` in the string at `p`, its terminator included. */
  ghost function FirstMatch(mem: seq<bv8>, p: nat, c: bv8): (r: Option<nat>)
    requires Terminated(mem, p)
    ensures r.Some? ==> p <= r.value <= End(mem, p) && mem[r.value] == c && c !in mem[p..r.value]
    ensures r.None? ==> c !in mem[p..End(mem, p) + 1]
    decreases |mem| - p
  {
    if mem[p] == c then Some(p)
    else if mem[p] == 0 then None
    else FirstMatch(mem, p + 1, c)
  }

  /** No byte in [str, p) ends the string or is found. */
  ghost predicate Passed(mem: seq<bv8>, str: nat, p: nat, c: bv8)
    requires Terminated(mem, str)
  {
    str <= p <= End(mem, str) && (c < 128 ==> c !in mem[str..p])
  }

  lemma PassMore(mem: seq<bv8>, str: nat, p: nat, c: bv8)
    requires Terminated(mem, str) && Passed(mem, str, p, c)
    ensures CharEquals(mem[p], c) ==> c < 128 && FirstMatch(mem, str, c) == Some(p)
    ensures !CharEquals(mem[p], c) && mem[p] == 0 && c < 128 ==> FirstMatch(mem, str, c) == None
    ensures !CharEquals(mem[p], c) && mem[p] != 0 ==> Passed(mem, str, p + 1, c)
  {
    CharEqualsBelow(mem[p], c);
    assert mem[str..p + 1] == mem[str..p] + [mem[p]];
    assert forall i | str <= i <= End(mem, str) :: mem[i] == mem[str..End(mem, str) + 1][i - str];
    assert forall i | str <= i < p :: mem[i] == mem[str..p][i - str];
    var f := FirstMatch(mem, str, c);
    assert f.Some? ==> forall i | str <= i < f.value :: mem[i] == mem[str..f.value][i - str];
  }

  /**
   * strchr finds the first match of every character below 128, but nothing from
   * 128 on: its answer is right exactly when the character is below 128 or absent.
   */
  method Strchr(mem: seq<bv8>, str: nat, c: bv8) returns (r: Option<nat>)
    requires |mem| % 4 == 0 && Terminated(mem, str)
    ensures r == FirstMatch(mem, str, c) <==> c < 128 || FirstMatch(mem, str, c) == None
    ensures c >= 128 ==> r == None
  {
    hide Magic, Join, Word, Xor, CharEquals, Passed;
    PassNone(mem, str, c);
    var p := str;
    while p % 4 != 0
      invariant Passed(mem, str, p, c) && p <= End(mem, str)
      decreases End(mem, str) - p
    {
      PassMore(mem, str, p, c);
      if CharEquals(mem[p], c) { return Some(p); }
      if mem[p] == 0 { return None; }
      PassedBounds(mem, str, p + 1, c);
      p := p + 1;
    }
    r := WordSearch(mem, str, p, c);
  }

  /** Every character from 128 on stands in some string where strchr does not see it. */
  lemma HighCharacter(c: bv8) returns (mem: seq<bv8>)
    requires c >= 128
    ensures |mem| % 4 == 0 && Terminated(mem, 0) && FirstMatch(mem, 0, c) == Some(0)
  {
    mem := [c, 0, 0, 0];
    assert mem[1] == 0;
  }

  lemma PassNone(mem: seq<bv8>, str: nat, c: bv8)
    requires Terminated(mem, str)
    ensures Passed(mem, str, str, c)
  {
  }

  lemma PassedBounds(mem: seq<bv8>, str: nat, p: nat, c: bv8)
    requires Terminated(mem, str) && Passed(mem, str, p, c)
    ensures str <= p <= End(mem, str) < |mem|
  {
  }

  lemma PassWord(mem: seq<bv8>, str: nat, p: nat, c: bv8)
    requires Terminated(mem, str) && Passed(mem, str, p, c) && p + 4 <= |mem|
    requires !Magic(Word(mem, p)) && !Magic(Xor(Word(mem, p), Join(c, c, c, c)))
    ensures Passed(mem, str, p + 4, c)
  {
    hide Magic, Join, Xor, CharEquals, Passed;
    MagicZero(mem[p], mem[p + 1], mem[p + 2], mem[p + 3]);
    MagicMatch(mem[p], mem[p + 1], mem[p + 2], mem[p + 3], c);
    for i := 0 to 4
      invariant Passed(mem, str, p + i, c)
    {
      CharEqualsBelow(mem[p + i], c);
      PassMore(mem, str, p + i, c);
    }
  }

  /** The word loop of strchr. */
  method WordSearch(mem: seq<bv8>, str: nat, start: nat, c: bv8) returns (r: Option<nat>)
    requires |mem| % 4 == 0 && Terminated(mem, str) && start % 4 == 0 && Passed(mem, str, start, c)
    ensures r == FirstMatch(mem, str, c) <==> c < 128 || FirstMatch(mem, str, c) == None
    ensures c >= 128 ==> r == None
  {
    hide Magic, Join, Word, Xor, Passed, End, FirstMatch, CharEquals;
    PassedBounds(mem, str, start, c);
    Whole(start, |mem|);
    var mask := Join(c, c, c, c);
    var p := start;
    while true
      invariant Passed(mem, str, p, c) && p + 4 <= |mem| && p % 4 == 0
      decreases |mem| - p
    {
      var word := Word(mem, p);
      if Magic(word) || Magic(Xor(word, mask)) {
        r := CheckWord(mem, str, p, c);
        return;
      }
      PassWord(mem, str, p, c);
      p := p + 4;
      PassedBounds(mem, str, p, c);
      Whole(p, |mem|);
    }
  }

  /** The four bytes of a word with a zero or a match. */
  method CheckWord(mem: seq<bv8>, str: nat, p: nat, c: bv8) returns (r: Option<nat>)
    requires Terminated(mem, str) && Passed(mem, str, p, c) && p + 4 <= |mem|
    requires Magic(Word(mem, p)) || Magic(Xor(Word(mem, p), Join(c, c, c, c)))
    ensures r == FirstMatch(mem, str, c) <==> c < 128 || FirstMatch(mem, str, c) == None
    ensures c >= 128 ==> r == None
  {
    hide Magic, Join, Xor, CharEquals, Passed;
    MagicZero(mem[p], mem[p + 1], mem[p + 2], mem[p + 3]);
    MagicMatch(mem[p], mem[p + 1], mem[p + 2], mem[p + 3], c);
    PassMore(mem, str, p, c);
    if CharEquals(mem[p], c) { return Some(p); }
    if mem[p] == 0 { return None; }
    PassMore(mem, str, p + 1, c);
    if CharEquals(mem[p + 1], c) { return Some(p + 1); }
    if mem[p + 1] == 0 { return None; }
    PassMore(mem, str, p + 2, c);
    if CharEquals(mem[p + 2], c) { return Some(p + 2); }
    if mem[p + 2] == 0 { return None; }
    PassMore(mem, str, p + 3, c);
    if CharEquals(mem[p + 3], c) { return Some(p + 3); }
    CharEqualsBelow(mem[p], c);
    CharEqualsBelow(mem[p + 1], c);
    CharEqualsBelow(mem[p + 2], c);
    CharEqualsBelow(mem[p + 3], c);
    return None;
  }
}
