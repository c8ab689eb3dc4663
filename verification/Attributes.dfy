/**
 * The style byte of a console cell, as csi_m changes it: by the parts the byte
 * is made of, and on the byte with masks and shifts.
 */
module Attributes {

  // By parts.

  /** `ground` and `text` are colours below eight. */
  datatype Style = Style(blink: bool, ground: bv8, bold: bool, text: bv8)

  function Pack(s: Style): bv8 {
    (if s.blink then 0x80 else 0) + s.ground * 0x10 + (if s.bold then 8 else 0) + s.text
  }

  function Unpack(b: bv8): Style {
    Style(b >= 0x80, b / 0x10 % 8, b / 8 % 2 == 1, b % 8)
  }

  lemma PackUnpack(b: bv8)
    ensures Pack(Unpack(b)) == b
  {
  }

  function Digit(n: nat): (d: bv8)
    requires n < 8
    ensures d < 8
  {
    if n == 0 then 0 else if n == 1 then 1 else if n == 2 then 2 else if n == 3 then 3
    else if n == 4 then 4 else if n == 5 then 5 else if n == 6 then 6 else 7
  }

  /** What one argument makes of a style: 7 trades text for ground and bold for blinking. */
  function Change(s: Style, a: nat): (r: Style)
    requires s.ground < 8 && s.text < 8
    ensures r.ground < 8 && r.text < 8
  {
    if a == 0 then Style(false, 0, false, 7)
    else if a == 1 then Style(false, 0, true, 7)
    else if a == 0x80 then s.(blink := true)
    else if a == 7 then Style(s.bold, s.text, s.blink, s.ground)
    else if 30 <= a <= 37 then s.(text := Digit(a - 30))
    else if 40 <= a <= 47 then s.(ground := Digit(a - 40))
    else s
  }

  function Changes(s: Style, args: seq<nat>): (r: Style)
    requires s.ground < 8 && s.text < 8
    ensures r.ground < 8 && r.text < 8
    decreases |args|
  {
    if args == [] then s else Changes(Change(s, args[0]), args[1..])
  }

  /** The cells' style after a whole sequence: it starts from black on black. */
  function StyleCode(args: seq<nat>): (r: nat)
    ensures r < 256
  {
    Pack(Changes(Style(false, 0, false, 0), args)) as nat
  }

  // Part by part, from the last argument that has a say.

  function TextOf(args: seq<nat>): (r: nat)
    ensures r < 8
  {
    if args == [] then 0
    else
      var before, a := args[..|args| - 1], args[|args| - 1];
      if a == 0 || a == 1 then 7 else if 30 <= a < 38 then a - 30 else if a == 7 then GroundOf(before)
          else TextOf(before)
  }

  function GroundOf(args: seq<nat>): (r: nat)
    ensures r < 8
  {
    if args == [] then 0
    else
      var before, a := args[..|args| - 1], args[|args| - 1];
      if a == 0 || a == 1 then 0 else if 40 <= a < 48 then a - 40 else if a == 7 then TextOf(before)
          else GroundOf(before)
  }

  predicate BoldAfter(args: seq<nat>) {
    args != [] &&
    var before, a := args[..|args| - 1], args[|args| - 1];
    if a == 0 || a == 1 then a == 1 else if a == 7 then BlinkAfter(before) else BoldAfter(before)
  }

  predicate BlinkAfter(args: seq<nat>) {
    args != [] &&
    var before, a := args[..|args| - 1], args[|args| - 1];
    if a == 0 || a == 1 then false else if a == 128 then true
    else if a == 7 then BoldAfter(before) else BlinkAfter(before)
  }

  lemma {:induction false} ChangesLast(s: Style, args: seq<nat>, a: nat)
    requires s.ground < 8 && s.text < 8
    ensures Changes(s, args + [a]) == Change(Changes(s, args), a)
    decreases |args|
  {
    hide Change;
    if args == [] {
      assert args + [a] == [a] && [a][1..] == [];
      assert Changes(Change(s, a), []) == Change(s, a);
    } else {
      assert (args + [a])[1..] == args[1..] + [a];
      ChangesLast(Change(s, args[0]), args[1..], a);
    }
  }

  lemma DigitIs(n: nat)
    requires n < 8
    ensures Digit(n) as nat == n
  {
  }

  /** The parts after one argument, as numbers. */
  lemma ChangeParts(s: Style, a: nat)
    requires s.ground < 8 && s.text < 8
    ensures var r := Change(s, a);
            && r.text as nat ==
               (if a == 0 || a == 1 then 7 else if 30 <= a < 38 then a - 30 else if a == 7 then s.ground as nat
                else s.text as nat)
            && r.ground as nat ==
               (if a == 0 || a == 1 then 0 else if 40 <= a < 48 then a - 40 else if a == 7 then s.text as nat
                else s.ground as nat)
            && r.bold == (if a == 0 || a == 1 then a == 1 else if a == 7 then s.blink else s.bold)
            && r.blink == (if a == 0
                || a == 1 then false else if a == 128 then true else if a == 7 then s.bold else s.blink)
  {
    if 30 <= a < 38 {
      DigitIs(a - 30);
    } else if 40 <= a < 48 {
      DigitIs(a - 40);
    }
    hide Digit;
  }

  lemma {:induction false} PartsExactly(args: seq<nat>)
    ensures var s := Changes(Style(false, 0, false, 0), args);
            && s.ground as nat == GroundOf(args) && s.text as nat == TextOf(args)
            && s.bold == BoldAfter(args) && s.blink == BlinkAfter(args)
    decreases |args|
  {
    hide Change;
    if args != [] {
      var before, a := args[..|args| - 1], args[|args| - 1];
      assert args == before + [a];
      PartsExactly(before);
      var s := Changes(Style(false, 0, false, 0), before);
      ChangesLast(Style(false, 0, false, 0), before, a);
      ChangeParts(s, a);
      hide Changes;
    }
  }

  lemma PackIs(s: Style)
    requires s.ground < 8 && s.text < 8
    ensures Pack(s) as nat ==
            (if s.blink then 128 else 0) + 16 * (s.ground as nat) + (if s.bold then 8 else 0) + s.text as nat
  {
  }

  /** The style byte of a whole sequence, by its parts. */
  lemma StyleExactly(args: seq<nat>)
    ensures StyleCode(args) ==
            (if BlinkAfter(args) then 128 else 0) + 16 * GroundOf(args) + (if BoldAfter(args) then 8
                else 0) + TextOf(args)
  {
    PartsExactly(args);
    PackIs(Changes(Style(false, 0, false, 0), args));
    hide Pack, Changes;
  }

  // On the byte.

  lemma TextMask(b: bv8, d: bv8)
    requires d < 8
    ensures Unpack((b & 0xF8) | d) == Unpack(b).(text := d)
  {
  }

  lemma GroundMask(b: bv8, d: bv8)
    requires d < 8
    ensures Unpack((b & 0x8F) | (d << 4)) == Unpack(b).(ground := d)
  {
  }

  lemma HalvesSwapped(b: bv8)
    ensures var s := Unpack(b); Unpack((b >> 4) | (b << 4)) == Style(s.bold, s.text, s.blink, s.ground)
  {
  }

  lemma BlinkSet(b: bv8)
    ensures Unpack(b | 0x80) == Unpack(b).(blink := true)
  {
  }

  /** One round of csi_m. */
  method Apply(style: bv8, a: nat) returns (r: bv8)
    ensures Unpack(r) == Change(Unpack(style), a)
  {
    assert Unpack(7) == Style(false, 0, false, 7) && Unpack(0x0F) == Style(false, 0, true, 7);
    hide Unpack, Digit;
    if a == 0 {
      r := 7;
    } else if a == 1 {
      r := 0x0F;
    } else if a == 0x80 {
      r := style | 0x80;
      BlinkSet(style);
    } else if a == 7 {
      r := (style >> 4) | (style << 4);
      HalvesSwapped(style);
    } else if 30 <= a <= 37 {
      r := (style & 0xF8) | Digit(a - 30);
      TextMask(style, Digit(a - 30));
    } else if 40 <= a <= 47 {
      r := (style & 0x8F) | (Digit(a - 40) << 4);
      GroundMask(style, Digit(a - 40));
    } else {
      r := style;
    }
  }

  /** All rounds. */
  method Combine(args: seq<nat>) returns (style: nat)
    ensures style == StyleCode(args)
  {
    hide Change, Pack;
    var byte: bv8 := 0;
    var i: nat := 0;
    assert args[0..] == args && Unpack(0) == Style(false, 0, false, 0);
    while i < |args|
      invariant 0 <= i <= |args|
      invariant Changes(Unpack(byte), args[i..]) == Changes(Style(false, 0, false, 0), args)
    {
      assert args[i..][0] == args[i] && args[i..][1..] == args[i + 1..];
      byte := Apply(byte, args[i]);
      i := i + 1;
    }
    PackUnpack(byte);
    style := byte as nat;
  }
}
