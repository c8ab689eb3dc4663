/**
 * What whole control sequences do to the screen, from their bytes to cells and
 * cursor.
 */
module Sequences {
  import opened Prelude
  import opened Terminal
  import Attributes

  // Bytes.

  predicate Digits(d: seq<Byte>) {
    forall i | 0 <= i < |d| :: 0x30 <= d[i] <= 0x39
  }

  /** The number that digits write. */
  function Decimal(d: seq<Byte>): nat
    requires Digits(d)
  {
    if d == [] then 0 else 10 * Decimal(d[..|d| - 1]) + (d[|d| - 1] as int - 0x30)
  }

  predicate Numbers(ds: seq<seq<Byte>>) {
    1 <= |ds| <= ARG_NR && forall i | 0 <= i < |ds| :: Digits(ds[i])
  }

  /** The arguments with a semicolon between any two. */
  function Joined(ds: seq<seq<Byte>>): seq<Byte> {
    if |ds| == 0 then [] else if |ds| == 1 then ds[0] else ds[0] + [SEMICOLON] + Joined(ds[1..])
  }

  /** A byte that ends a sequence: no digit, no semicolon, no question mark. */
  predicate Final(b: Byte) {
    !IsArg(b) && b != QUESTION
  }

  /** ESC [ arguments final */
  function Sequence(ds: seq<seq<Byte>>, final: Byte): seq<Byte> {
    [ESC, BRACKET] + Joined(ds) + [final]
  }

  /** The arguments as the console keeps them, in 32 bits. */
  function Values(ds: seq<seq<Byte>>): (r: seq<nat>)
    requires Numbers(ds)
    ensures |r| == ARG_NR
  {
    seq(ARG_NR, i requires 0 <= i < ARG_NR => if i < |ds| then Decimal(ds[i]) % WORD else 0)
  }

  // Reading the arguments.

  lemma TimesTen(a: nat, k: nat)
    ensures (a % WORD * 10 + k) % WORD == (10 * a + k) % WORD
  {
    var q, r := a / WORD, a % WORD;
    assert 10 * a + k == 10 * q * WORD + (10 * r + k);
    Shifted(10 * r + k, 10 * q);
  }

  lemma Shifted(a: nat, q: nat)
    ensures (q * WORD + a) % WORD == a % WORD
    decreases q
  {
    if q > 0 {
      Shifted(a, q - 1);
      assert q * WORD + a == ((q - 1) * WORD + a) + WORD;
    }
  }

  /** Digits go into the argument that is being read. */
  lemma DigitStep(t: Term, b: Byte)
    requires Valid(t) && t.ctl.mode == Arg && t.ctl.argc < ARG_NR && 0x30 <= b <= 0x39
    ensures var a := t.ctl.args[t.ctl.argc];
            Step(t, b) == t.(ctl := t.ctl.(args := t.ctl.args[t.ctl.argc := (a * 10 + (b - 0x30)) % WORD]))
  {
    hide StateCsi, StateNormal, StateEsc;
  }

  lemma {:induction false} ReadDigits(t: Term, d: seq<Byte>)
    requires Valid(t) && t.ctl.mode == Arg && t.ctl.argc < ARG_NR && t.ctl.args[t.ctl.argc] == 0 && Digits(d)
    ensures Run(t, d) == t.(ctl := t.ctl.(args := t.ctl.args[t.ctl.argc := Decimal(d) % WORD]))
    decreases |d|
  {
    if d == [] {
      assert t.ctl.args[t.ctl.argc := 0] == t.ctl.args;
    } else {
      hide Step;
      var n := |d| - 1;
      assert d == d[..n] + [d[n]];
      ReadDigits(t, d[..n]);
      var u := t.(ctl := t.ctl.(args := t.ctl.args[t.ctl.argc := Decimal(d[..n]) % WORD]));
      RunSplit(t, d[..n], [d[n]]);
      TimesTen(Decimal(d[..n]), d[n] - 0x30);
      OneStep(u, d[n]);
      hide Run;
      DigitStep(u, d[n]);
      assert Step(u, d[n]).ctl.args == t.ctl.args[t.ctl.argc := Decimal(d) % WORD];
    }
  }

  lemma OneStep(t: Term, b: Byte)
    requires Valid(t)
    ensures Run(t, [b]) == Step(t, b)
  {
    hide Step;
    assert [b][1..] == [];
    assert Run(Step(t, b), []) == Step(t, b);
  }

  /** `a` with the values of `ds` from place `k` on. */
  function Placed(a: seq<nat>, k: nat, ds: seq<seq<Byte>>): (r: seq<nat>)
    requires k + |ds| <= |a| && forall i | 0 <= i < |ds| :: Digits(ds[i])
    ensures |r| == |a|
    ensures forall i | 0 <= i < |a| :: r[i] == if k <= i < k + |ds| then Decimal(ds[i - k]) % WORD else a[i]
  {
    seq(|a|, i requires 0 <= i < |a| => if k <= i < k + |ds| then Decimal(ds[i - k]) % WORD else a[i])
  }

  lemma {:induction false} ReadArgs(t: Term, ds: seq<seq<Byte>>)
    requires Valid(t) && t.ctl.mode == Arg && Numbers(ds) && t.ctl.argc + |ds| <= ARG_NR
    requires forall i | t.ctl.argc <= i < ARG_NR :: t.ctl.args[i] == 0
    ensures Run(t, Joined(ds)) ==
            t.(ctl := t.ctl.(args := Placed(t.ctl.args, t.ctl.argc, ds), argc := t.ctl.argc + |ds| - 1))
    decreases |ds|
  {
    hide Step, Decimal, Run;
    var k := t.ctl.argc;
    ReadDigits(t, ds[0]);
    var u := t.(ctl := t.ctl.(args := t.ctl.args[k := Decimal(ds[0]) % WORD]));
    if |ds| == 1 {
      assert u.ctl.args == Placed(t.ctl.args, k, ds);
    } else {
      SemicolonStep(u);
      var w := u.(ctl := u.ctl.(argc := k + 1));
      RunSplit(t, ds[0], [SEMICOLON]);
      RunSplit(t, ds[0] + [SEMICOLON], Joined(ds[1..]));
      ReadArgs(w, ds[1..]);
      assert Placed(w.ctl.args, k + 1, ds[1..]) == Placed(t.ctl.args, k, ds);
    }
  }

  lemma SemicolonStep(t: Term)
    requires Valid(t) && t.ctl.mode == Arg && t.ctl.argc < ARG_NR
    ensures var u := t.(ctl := t.ctl.(argc := t.ctl.argc + 1)); Valid(u) && Run(t, [SEMICOLON]) == u
  {
    OneStep(t, SEMICOLON);
    hide StateCsi;
  }

  /** The state in which the arguments are read. */
  function Reading(t: Term): (r: Term)
    requires Valid(t)
    ensures Valid(r)
  {
    t.(ctl := t.ctl.(args := Zeros(), argc := 0, ques := false, mode := Arg))
  }

  lemma {:induction false} JoinedStart(ds: seq<seq<Byte>>, final: Byte)
    requires Numbers(ds) && Final(final)
    ensures (Joined(ds) + [final])[0] != QUESTION
  {
    if ds[0] == [] {
      assert |ds| > 1 ==> Joined(ds)[0] == SEMICOLON;
    } else {
      assert Joined(ds)[0] == ds[0][0];
    }
  }

  lemma Opens(t: Term, bytes: seq<Byte>)
    requires Valid(t) && t.ctl.mode == Normal && bytes != [] && bytes[0] != QUESTION
    ensures Run(t, [ESC, BRACKET] + bytes) == Run(Reading(t), bytes)
  {
    hide Step, Valid, Zeros;
    OpenSteps(t, bytes[0]);
    var all := [ESC, BRACKET] + bytes;
    assert all[1..] == [BRACKET] + bytes && ([BRACKET] + bytes)[1..] == bytes;
    var e := Step(t, ESC);
    var q := Step(e, BRACKET);
    assert Run(q, bytes) == Run(Step(q, bytes[0]), bytes[1..]);
    assert Run(e, [BRACKET] + bytes) == Run(q, bytes);
  }

  lemma OpenSteps(t: Term, b: Byte)
    requires Valid(t) && t.ctl.mode == Normal && b != QUESTION
    ensures Step(Step(Step(t, ESC), BRACKET), b) == Step(Reading(t), b)
  {
    hide StateCsi, Zeros;
    var q := t.(ctl := t.ctl.(mode := Query));
    assert Step(Step(t, ESC), BRACKET) == q;
    assert Step(q, b) == ArgThenCsi(Reading(t), b as char);
  }

  /** What the final byte finds. */
  function Ready(t: Term, ds: seq<seq<Byte>>): (r: Term)
    requires Valid(t) && Numbers(ds)
    ensures Valid(r)
  {
    t.(ctl := t.ctl.(args := Values(ds), argc := |ds|, ques := false, mode := Normal))
  }

  /** A whole sequence: its arguments in decimal, and then the effect of its final byte. */
  lemma SequenceRuns(t: Term, ds: seq<seq<Byte>>, final: Byte)
    requires Valid(t) && t.ctl.mode == Normal && Numbers(ds) && Final(final)
    ensures Run(t, Sequence(ds, final)) == StateCsi(Ready(t, ds), final as char)
  {
    var bytes := Joined(ds) + [final];
    JoinedStart(ds, final);
    assert Sequence(ds, final) == [ESC, BRACKET] + bytes;
    Opens(t, bytes);
    ReadArgs(Reading(t), ds);
    RunSplit(Reading(t), Joined(ds), [final]);
    var u := Run(Reading(t), Joined(ds));
    assert u.ctl.args == Values(ds);
    OneStep(u, final);
    Finishes(u, t, ds, final);
  }

  lemma Finishes(u: Term, t: Term, ds: seq<seq<Byte>>, final: Byte)
    requires Valid(t) && Numbers(ds) && Final(final)
    requires u == t.(ctl := t.ctl.(args := Values(ds), argc := |ds| - 1, ques := false, mode := Arg))
    ensures Valid(u) && Step(u, final) == StateCsi(Ready(t, ds), final as char)
  {
    hide StateCsi;
    var (c, done) := StateArg(u.ctl, final as char);
    assert done && u.(ctl := c) == Ready(t, ds).(ctl := Ready(t, ds).ctl.(mode := Csi));
    ModeForgotten(Ready(t, ds), final as char);
  }

  lemma ModeForgotten(t: Term, ch: char)
    requires Valid(t)
    ensures StateCsi(t.(ctl := t.ctl.(mode := Csi)), ch) == StateCsi(t.(ctl := t.ctl.(mode := Normal)), ch)
  {
    hide Times, EraseDisplay, EraseRow, SetStyle, Move, Count;
  }
}
