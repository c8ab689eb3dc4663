/**
 * What the console shows (src/kernel/driver/console.c): a screen of 25 rows of
 * 80 cells, a cursor and the state of the escape sequence being read.
 */
module Terminal {
  import opened Prelude
  import Attributes

  const WIDTH: nat := 80
  const HEIGHT: nat := 25
  const CELLS: nat := WIDTH * HEIGHT
  const ARG_NR: nat := 16
  const WORD: nat := 0x1_0000_0000

  datatype Mode = Normal | Esc | Query | Arg | Csi

  /** Everything the console keeps besides video memory. */
  datatype Ctl = Ctl(
    x: nat,
    y: nat,
    savedX: nat,
    savedY: nat,
    mode: Mode,
    args: seq<nat>,
    argc: nat,
    ques: bool,
    erase: nat,
    style: nat)

  datatype Term = Term(grid: seq<nat>, ctl: Ctl)

  predicate Sound(c: Ctl) {
    && c.x <= WIDTH && c.y < HEIGHT && c.savedX <= WIDTH && c.savedY < HEIGHT
    && |c.args| == ARG_NR && c.argc <= ARG_NR && forall i | 0 <= i < ARG_NR :: c.args[i] < WORD
  }

  predicate Valid(t: Term) {
    |t.grid| == CELLS && Sound(t.ctl)
  }

  // Cells.

  /** `start` up to `start + n` filled with `v`; cells past the end are not on the screen. */
  function Fill(g: seq<nat>, start: nat, n: nat, v: nat): (r: seq<nat>)
    ensures |r| == |g|
    ensures forall i | 0 <= i < |g| :: r[i] == if start <= i < start + n then v else g[i]
  {
    seq(|g|, i requires 0 <= i < |g| => if start <= i < start + n then v else g[i])
  }

  /** The cell the cursor stands on; behind the last column it is the first of the next row. */
  function Cursor(c: Ctl): nat {
    c.y * WIDTH + c.x
  }

  /** (style << 8) | ch with a signed character. */
  function Cell(style: nat, ch: nat): nat {
    if ch < 128 then style * 256 + ch else 0xFF00 + ch
  }

  /** The rows move up and a blank one comes in at the bottom. */
  function Scroll(g: seq<nat>, erase: nat): (r: seq<nat>)
    requires |g| == CELLS
    ensures |r| == CELLS
    ensures forall i | 0 <= i < CELLS :: r[i] == if i < CELLS - WIDTH then g[i + WIDTH] else erase
  {
    g[WIDTH..] + seq(WIDTH, i => erase)
  }

  // Moving the cursor.

  function Clamp(v: nat, limit: nat): (r: nat)
    requires 0 < limit
    ensures r < limit
  {
    if v >= 0x8000_0000 then 0 else if v >= limit then limit - 1 else v
  }

  function SetXY(c: Ctl, x: nat, y: nat): (r: Ctl)
    ensures Sound(c) ==> Sound(r)
  {
    c.(x := Clamp(x, WIDTH), y := Clamp(y, HEIGHT))
  }

  function Lf(t: Term): (r: Term)
    requires Valid(t)
    ensures Valid(r) && r.ctl.x == t.ctl.x
  {
    if t.ctl.y + 1 < HEIGHT then t.(ctl := t.ctl.(y := t.ctl.y + 1))
    else t.(grid := Scroll(t.grid, t.ctl.erase))
  }

  function Cr(t: Term): (r: Term)
    requires Valid(t)
    ensures Valid(r)
  {
    t.(ctl := t.ctl.(x := 0))
  }

  function Tab(t: Term): (r: Term)
    requires Valid(t)
    ensures Valid(r)
  {
    var x := t.ctl.x + 8 - t.ctl.x % 8;
    if x >= WIDTH then Lf(t.(ctl := t.ctl.(x := x - WIDTH))) else t.(ctl := t.ctl.(x := x))
  }

  function Put(t: Term, v: nat): (r: Term)
    requires Valid(t)
    ensures Valid(r)
  {
    t.(grid := Fill(t.grid, Cursor(t.ctl), 1, v))
  }

  function Bs(t: Term): (r: Term)
    requires Valid(t)
    ensures Valid(r)
  {
    if t.ctl.x == 0 then t else Put(t.(ctl := t.ctl.(x := t.ctl.x - 1)), t.ctl.erase)
  }

  function Chr(t: Term, ch: nat): (r: Term)
    requires Valid(t)
    ensures Valid(r)
  {
    var u := if t.ctl.x >= WIDTH then Lf(t.(ctl := t.ctl.(x := t.ctl.x - WIDTH))) else t;
    var w := Put(u, Cell(u.ctl.style, ch));
    w.(ctl := w.ctl.(x := w.ctl.x + 1))
  }

  // Editing.

  /** The cell at `at` goes, those up to `last` follow, and a blank comes in at `last`. */
  function Pulled(g: seq<nat>, at: nat, last: nat, blank: nat): (r: seq<nat>)
    requires at <= last < |g|
    ensures |r| == |g|
    ensures forall i | 0 <= i < |g| :: r[i] == if at <= i < last then g[i + 1] else if i == last then blank else g[i]
  {
    seq(|g|, i requires 0 <= i < |g| => if at <= i < last then g[i + 1] else if i == last then blank else g[i])
  }

  /** A blank comes in at `at`, the cells up to `last` move on, and the one at `last` goes. */
  function Pushed(g: seq<nat>, at: nat, last: nat, blank: nat): (r: seq<nat>)
    requires at <= last < |g|
    ensures |r| == |g|
    ensures forall i | 0 <= i < |g| :: r[i] == if at < i <= last then g[i - 1] else if i == at then blank else g[i]
  {
    seq(|g|, i requires 0 <= i < |g| => if at < i <= last then g[i - 1] else if i == at then blank else g[i])
  }

  /** The last cell of the cursor's row. */
  function RowEnd(c: Ctl): (r: nat)
    requires Sound(c) && c.x < WIDTH
    ensures Cursor(c) <= r < CELLS
  {
    c.y * WIDTH + (WIDTH - 1)
  }

  /** A cell leaves the row at the cursor. */
  function DeleteChar(t: Term): (r: Term)
    requires Valid(t)
    ensures Valid(r) && r.ctl == t.ctl
  {
    if t.ctl.x >= WIDTH then Put(t, t.ctl.erase)
    else t.(grid := Pulled(t.grid, Cursor(t.ctl), RowEnd(t.ctl), t.ctl.erase))
  }

  /** A blank cell comes into the row at the cursor. */
  function InsertChar(t: Term): (r: Term)
    requires Valid(t)
    ensures Valid(r) && r.ctl == t.ctl
  {
    if t.ctl.x >= WIDTH then Put(t, t.ctl.erase)
    else t.(grid := Pushed(t.grid, Cursor(t.ctl), RowEnd(t.ctl), t.ctl.erase))
  }

  /** A blank row comes in at the cursor and the last row goes. */
  function InsertLine(t: Term): (r: Term)
    requires Valid(t)
    ensures Valid(r) && r.ctl == t.ctl
    ensures forall i | 0 <= i < CELLS ::
              r.grid[i] == if i < t.ctl.y * WIDTH then t.grid[i]
                           else if i < (t.ctl.y + 1) * WIDTH then t.ctl.erase
                           else t.grid[i - WIDTH]
  {
    var start := t.ctl.y * WIDTH;
    t.(grid := t.grid[..start] + seq(WIDTH, i => t.ctl.erase) + t.grid[start..CELLS - WIDTH])
  }

  /** The row that delete_line leaves at `k`: the pointer steps by two rows at a time. */
  function DeleteSource(y: nat, k: nat): nat {
    if k > y && (k - y) % 2 == 1 && k + 1 < HEIGHT then k + 1 else k
  }

  function DeleteLine(t: Term): (r: Term)
    requires Valid(t)
    ensures Valid(r) && r.ctl == t.ctl
    ensures forall i | 0 <= i < CELLS ::
              r.grid[i] ==
              if i >= CELLS - WIDTH then t.ctl.erase else t.grid[DeleteSource(t.ctl.y, i / WIDTH) * WIDTH + i % WIDTH]
  {
    t.(grid := seq(CELLS, i requires 0 <= i < CELLS =>
         if i >= CELLS - WIDTH then t.ctl.erase else t.grid[DeleteSource(t.ctl.y, i / WIDTH) * WIDTH + i % WIDTH]))
  }

  datatype Edit = Lines(insert: bool) | Chars(insert: bool)

  function Once(t: Term, e: Edit): (r: Term)
    requires Valid(t)
    ensures Valid(r) && r.ctl == t.ctl
  {
    match e
    case Lines(insert) => if insert then InsertLine(t) else DeleteLine(t)
    case Chars(insert) => if insert then InsertChar(t) else DeleteChar(t)
  }

  function Times(t: Term, e: Edit, n: nat): (r: Term)
    requires Valid(t)
    ensures Valid(r) && r.ctl == t.ctl
    decreases n
  {
    if n == 0 then t else Times(Once(t, e), e, n - 1)
  }

  /** How often an editing sequence runs; the comparison is unsigned for lines and signed for characters. */
  function Count(c: Ctl, e: Edit): nat
    requires Sound(c)
  {
    var a := c.args[0];
    match e
    case Lines(_) => if a > HEIGHT then HEIGHT else if a == 0 then 1 else a
    case Chars(_) => if a < 0x8000_0000 && a > WIDTH - c.x then WIDTH - c.x else if a == 0 then 1 else a
  }

  function EraseDisplay(t: Term): (r: Term)
    requires Valid(t)
    ensures Valid(r)
  {
    var at := Cursor(t.ctl);
    match t.ctl.args[0]
    case 0 => t.(grid := Fill(t.grid, at, CELLS - at, t.ctl.erase))
    case 1 => t.(grid := Fill(t.grid, 0, at, t.ctl.erase))
    case 2 => t.(grid := Fill(t.grid, 0, CELLS, t.ctl.erase))
    case _ => t
  }

  function EraseRow(t: Term): (r: Term)
    requires Valid(t)
    ensures Valid(r)
  {
    var row := t.ctl.y * WIDTH;
    match t.ctl.args[0]
    case 0 => t.(grid := Fill(t.grid, row + t.ctl.x, WIDTH - t.ctl.x, t.ctl.erase))
    case 1 => t.(grid := Fill(t.grid, row, t.ctl.x, t.ctl.erase))
    case 2 => t.(grid := Fill(t.grid, row, WIDTH, t.ctl.erase))
    case _ => t
  }

  // Style.

  function SetStyle(t: Term): (r: Term)
    requires Valid(t)
    ensures Valid(r)
  {
    var s := Attributes.StyleCode(t.ctl.args[..t.ctl.argc]);
    t.(ctl := t.ctl.(style := s, erase := s * 256 + 0x20))
  }

  // One byte.

  function Add(a: nat, b: nat): nat {
    (a + b) % WORD
  }

  function Sub(a: nat, b: nat): nat
    requires b < WORD
  {
    (a + WORD - b) % WORD
  }

  /** An argument that counts from one. */
  function FromOne(c: Ctl, i: nat): (r: Ctl)
    requires Sound(c) && i < ARG_NR
    ensures Sound(r) && r == c.(args := r.args)
  {
    if c.args[i] > 0 then c.(args := c.args[i := c.args[i] - 1]) else c
  }

  /** An argument that is at least one. */
  function AtLeastOne(c: Ctl): (r: Ctl)
    requires Sound(c)
    ensures Sound(r) && r == c.(args := r.args)
  {
    if c.args[0] == 0 then c.(args := c.args[0 := 1]) else c
  }

  /** The sequences that only move the cursor. */
  function Move(c: Ctl, ch: char): (r: Ctl)
    requires Sound(c)
    ensures Sound(r)
  {
    var one := AtLeastOne(c);
    var n := one.args[0];
    match ch
    case 'G' => var d := FromOne(c, 0); SetXY(d, d.args[0], d.y)
    case '`' => var d := FromOne(c, 0); SetXY(d, d.args[0], d.y)
    case 'A' => SetXY(one, c.x, Sub(c.y, n))
    case 'B' => SetXY(one, c.x, Add(c.y, n))
    case 'e' => SetXY(one, c.x, Add(c.y, n))
    case 'C' => SetXY(one, Add(c.x, n), c.y)
    case 'a' => SetXY(one, Add(c.x, n), c.y)
    case 'D' => SetXY(one, Sub(c.x, n), c.y)
    case 'E' => SetXY(one, 0, Add(c.y, n))
    case 'F' => SetXY(one, 0, Sub(c.y, n))
    case 'd' => var d := FromOne(c, 0); SetXY(d, d.x, d.args[0])
    case 'H' => var d := FromOne(FromOne(c, 0), 1); SetXY(d, d.args[1], d.args[0])
    case 'f' => var d := FromOne(FromOne(c, 0), 1); SetXY(d, d.args[1], d.args[0])
    case 's' => c.(savedX := c.x, savedY := c.y)
    case 'u' => SetXY(c, c.savedX, c.savedY)
    case _ => c
  }

  /** state_csi */
  function StateCsi(t0: Term, ch: char): (r: Term)
    requires Valid(t0)
    ensures Valid(r)
  {
    var t := t0.(ctl := t0.ctl.(mode := Normal));
    match ch
    case 'J' => EraseDisplay(t)
    case 'K' => EraseRow(t)
    case 'L' => Times(t, Lines(true), Count(t.ctl, Lines(true)))
    case 'M' => Times(t, Lines(false), Count(t.ctl, Lines(false)))
    case 'P' => Times(t, Chars(false), Count(t.ctl, Chars(false)))
    case '@' => Times(t, Chars(true), Count(t.ctl, Chars(true)))
    case 'm' => SetStyle(t)
    case _ => t.(ctl := Move(t.ctl, ch))
  }

  /** state_normal */
  function StateNormal(t: Term, ch: nat): (r: Term)
    requires Valid(t)
    ensures Valid(r)
  {
    match ch
    case 0 => t
    case 7 => t
    case 8 => Bs(t)
    case 9 => Tab(t)
    case 10 => Cr(Lf(t))
    case 11 => Lf(t)
    case 12 => Lf(t)
    case 13 => Cr(t)
    case 0x7F => Put(t, t.ctl.erase)
    case 0x1B => t.(ctl := t.ctl.(mode := Esc))
    case _ => Chr(t, ch)
  }

  /** state_esc: only '[' leaves this state. */
  function StateEsc(t: Term, ch: char): (r: Term)
    requires Valid(t)
    ensures Valid(r)
  {
    match ch
    case '[' => t.(ctl := t.ctl.(mode := Query))
    case 'E' => Cr(Lf(t))
    case 'D' => Lf(t)
    case '7' => t.(ctl := t.ctl.(savedX := t.ctl.x, savedY := t.ctl.y))
    case '8' => t.(ctl := SetXY(t.ctl, t.ctl.savedX, t.ctl.savedY))
    case _ => t
  }

  /** state_arg; true when the sequence is complete. */
  function StateArg(c: Ctl, ch: char): (r: (Ctl, bool))
    requires Sound(c)
    ensures Sound(r.0)
  {
    if c.argc >= ARG_NR then (c, false)
    else if ch == ';' then (c.(argc := c.argc + 1), false)
    else if '0' <= ch <= '9' then
      (c.(args := c.args[c.argc := (c.args[c.argc] * 10 + (ch as int - '0' as int)) % WORD]), false)
    else (c.(argc := c.argc + 1, mode := Csi), true)
  }

  function Zeros(): (r: seq<nat>)
    ensures |r| == ARG_NR && forall i | 0 <= i < ARG_NR :: r[i] == 0
  {
    seq(ARG_NR, i => 0)
  }

  function ArgThenCsi(t: Term, ch: char): (r: Term)
    requires Valid(t)
    ensures Valid(r)
  {
    var (c, done) := StateArg(t.ctl, ch);
    if done then StateCsi(t.(ctl := c), ch) else t.(ctl := c)
  }

  /** The loop body of console_write. */
  function Step(t: Term, b: Byte): (r: Term)
    requires Valid(t)
    ensures Valid(r)
  {
    var ch := b as char;
    match t.ctl.mode
    case Normal => StateNormal(t, b)
    case Esc => StateEsc(t, ch)
    case Query =>
      var u := t.(ctl := t.ctl.(args := Zeros(), argc := 0, mode := Arg, ques := ch == '?'));
      if ch == '?' then u else ArgThenCsi(u, ch)
    case Arg => ArgThenCsi(t, ch)
    case Csi => StateCsi(t, ch)
  }

  /** console_write: whatever bytes come, the cursor stays on the screen and the arguments in their array. */
  function Run(t: Term, bytes: seq<Byte>): (r: Term)
    requires Valid(t)
    ensures Valid(r)
    decreases |bytes|
  {
    if bytes == [] then t else Run(Step(t, bytes[0]), bytes[1..])
  }

  // Which bytes lead out of an escape sequence.

  const ESC: Byte := 0x1B
  const BRACKET: Byte := 0x5B
  const QUESTION: Byte := 0x3F
  const SEMICOLON: Byte := 0x3B

  /** A digit or a semicolon. */
  predicate IsArg(b: Byte) {
    b == SEMICOLON || 0x30 <= b <= 0x39
  }

  function Semicolons(s: seq<Byte>): nat {
    if s == [] then 0 else (if s[0] == SEMICOLON then 1 else 0) + Semicolons(s[1..])
  }

  /** Digits and semicolons, with `a` before them fewer than sixteen semicolons, and one byte that is neither. */
  predicate ArgTail(s: seq<Byte>, a: nat) {
    && s != [] && !IsArg(s[|s| - 1])
    && (forall j | 0 <= j < |s| - 1 :: IsArg(s[j]))
    && a + Semicolons(s[..|s| - 1]) < ARG_NR
  }

  function AfterQuestion(s: seq<Byte>): seq<Byte> {
    if s != [] && s[0] == QUESTION then s[1..] else s
  }

  /** The bytes after ESC are whole: the first bracket is at `i`, and what follows it is a tail. */
  predicate Complete(s: seq<Byte>, i: nat) {
    && i < |s| && s[i] == BRACKET
    && (forall j | 0 <= j < i :: s[j] != BRACKET)
    && ArgTail(AfterQuestion(s[i + 1..]), 0)
  }

  /** After all of `s`, and not before, the console is back in its normal state. */
  predicate FirstReturn(t: Term, s: seq<Byte>)
    requires Valid(t)
  {
    Run(t, s).ctl.mode == Normal && forall k | 0 <= k < |s| :: Run(t, s[..k]).ctl.mode != Normal
  }

  lemma FirstReturnStep(t: Term, s: seq<Byte>)
    requires Valid(t) && s != [] && t.ctl.mode != Normal
    ensures FirstReturn(t, s) <==>
              if Step(t, s[0]).ctl.mode == Normal then |s| == 1 else FirstReturn(Step(t, s[0]), s[1..])
  {
    hide Step;
    var u, r := Step(t, s[0]), s[1..];
    forall k | 0 < k <= |s|
      ensures Run(t, s[..k]) == Run(u, r[..k - 1])
    {
      assert s[..k][1..] == r[..k - 1];
    }
    assert s[..|s|] == s && r[..|r|] == r && r[..0] == [] && s[..0] == [];
    if u.ctl.mode == Normal {
      assert |s| > 1 ==> Run(t, s[..1]) == u;
    } else {
      forall k | 0 <= k < |r|
        ensures Run(u, r[..k]) == Run(t, s[..k + 1])
      {
      }
    }
  }

  lemma TailStep(s: seq<Byte>, a: nat)
    requires s != [] && IsArg(s[0])
    ensures ArgTail(s, a) <==> ArgTail(s[1..], a + if s[0] == SEMICOLON then 1 else 0)
  {
    var r := s[1..];
    if |s| > 1 {
      assert s[..|s| - 1][1..] == r[..|r| - 1];
      assert forall j | 0 < j < |s| :: s[j] == r[j - 1];
    }
  }

  lemma {:induction false} FromArg(t: Term, s: seq<Byte>)
    requires Valid(t) && t.ctl.mode == Arg
    ensures FirstReturn(t, s) <==> ArgTail(s, t.ctl.argc)
    decreases |s|
  {
    if s != [] {
      var u := Step(t, s[0]);
      FirstReturnStep(t, s);
      EndsSequence(t, s[0]);
      if u.ctl.mode != Normal {
        FromArg(u, s[1..]);
        if IsArg(s[0]) {
          TailStep(s, t.ctl.argc);
        }
      } else {
        assert |s| == 1 ==> s[..0] == [];
      }
      hide FirstReturn, Step;
      if t.ctl.argc == ARG_NR {
        assert !ArgTail(s, ARG_NR) && !ArgTail(s[1..], ARG_NR);
      }
    }
  }

  /** One byte of the arguments: it ends them exactly when fewer than sixteen were read and it is no argument. */
  lemma EndsSequence(t: Term, b: Byte)
    requires Valid(t) && t.ctl.mode == Arg
    ensures Step(t, b).ctl.mode == Normal <==> t.ctl.argc < ARG_NR && !IsArg(b)
    ensures var u := Step(t, b);
            if t.ctl.argc == ARG_NR then u == t
            else if IsArg(b) then u.ctl.mode == Arg && u.ctl.argc == t.ctl.argc + (if b == SEMICOLON then 1 else 0)
            else u.ctl.mode == Normal
  {
    hide Fill, InsertLine, DeleteLine, InsertChar, DeleteChar, Times, StateCsi;
    var (c, done) := StateArg(t.ctl, b as char);
    if done {
      CsiMode(t.(ctl := c), b as char);
    }
  }

  lemma FromQuery(t: Term, s: seq<Byte>)
    requires Valid(t) && t.ctl.mode == Query
    ensures FirstReturn(t, s) <==> ArgTail(AfterQuestion(s), 0)
  {
    if s != [] {
      var u := t.(ctl := t.ctl.(args := Zeros(), argc := 0, mode := Arg, ques := s[0] == QUESTION));
      FirstReturnStep(t, s);
      if s[0] == QUESTION {
        assert Step(t, s[0]) == u;
        FromArg(u, s[1..]);
      } else {
        assert Step(t, s[0]) == ArgThenCsi(u, s[0] as char) == Step(u, s[0]);
        FirstReturnStep(u, s);
        FromArg(u, s);
      }
    }
  }

  lemma CompleteStep(s: seq<Byte>)
    requires s != [] && s[0] != BRACKET
    ensures (exists i :: Complete(s, i)) <==> exists i :: Complete(s[1..], i)
  {
    var r := s[1..];
    if i: nat :| Complete(s, i) {
      assert s[i + 1..] == r[i..] && i > 0;
      assert Complete(r, i - 1);
    }
    if i: nat :| Complete(r, i) {
      assert r[i + 1..] == s[i + 2..];
      assert Complete(s, i + 1);
    }
  }

  lemma {:induction false} FromEsc(t: Term, s: seq<Byte>)
    requires Valid(t) && t.ctl.mode == Esc
    ensures FirstReturn(t, s) <==> exists i :: Complete(s, i)
    decreases |s|
  {
    if s != [] {
      FirstReturnStep(t, s);
      var u := Step(t, s[0]);
      EscStep(t, s[0]);
      hide Step, FirstReturn;
      if s[0] == BRACKET {
        FromQuery(u, s[1..]);
        assert Complete(s, 0) <==> ArgTail(AfterQuestion(s[1..]), 0);
        assert forall i | Complete(s, i) :: i == 0;
      } else {
        FromEsc(u, s[1..]);
        CompleteStep(s);
      }
    }
  }

  lemma EscStep(t: Term, b: Byte)
    requires Valid(t) && t.ctl.mode == Esc
    ensures Step(t, b).ctl.mode == if b == BRACKET then Query else Esc
    ensures b !in {BRACKET, 0x45, 0x44, 0x37, 0x38} ==> Step(t, b) == t
  {
    hide Scroll;
  }

  /**
   * After ESC the console is back in its normal state for the first time behind `s` exactly when `s` has
   * a bracket, from there an optional question mark, digits and fewer than sixteen semicolons, and one
   * more byte.
   */
  lemma ReturnsExactly(t: Term, s: seq<Byte>)
    requires Valid(t) && t.ctl.mode == Normal
    ensures Step(t, ESC).ctl.mode == Esc
    ensures FirstReturn(Step(t, ESC), s) <==> exists i :: Complete(s, i)
  {
    FromEsc(Step(t, ESC), s);
  }

  /** So it comes back at all exactly when some beginning of the bytes is whole. */
  lemma LeavesExactly(t: Term, s: seq<Byte>)
    requires Valid(t) && t.ctl.mode == Normal
    ensures (exists k | 0 <= k <= |s| :: Run(Step(t, ESC), s[..k]).ctl.mode == Normal)
       <==> exists k, i | 0 <= k <= |s| :: Complete(s[..k], i)
  {
    var u := Step(t, ESC);
    assert u.ctl.mode == Esc;
    if k :| 0 <= k <= |s| && Run(u, s[..k]).ctl.mode == Normal {
      var f := Earliest(u, s, k);
      FromEsc(u, s[..f]);
      var i :| Complete(s[..f], i);
    }
    if k, i :| 0 <= k <= |s| && Complete(s[..k], i) {
      FromEsc(u, s[..k]);
    }
  }

  lemma Earliest(t: Term, s: seq<Byte>, k: nat) returns (f: nat)
    requires Valid(t) && k <= |s| && Run(t, s[..k]).ctl.mode == Normal
    ensures f <= k && FirstReturn(t, s[..f])
  {
    hide Step, Run;
    f := 0;
    while Run(t, s[..f]).ctl.mode != Normal
      invariant f <= k && forall j | 0 <= j < f :: Run(t, s[..j]).ctl.mode != Normal
      decreases k - f
    {
      f := f + 1;
    }
    forall j | 0 <= j < f
      ensures Run(t, s[..f][..j]).ctl.mode != Normal
    {
      assert s[..f][..j] == s[..j];
    }
  }

  /** Without a bracket the state after ESC is never left, and most bytes do nothing at all. */
  lemma {:induction false} EscSwallows(t: Term, s: seq<Byte>)
    requires Valid(t) && t.ctl.mode == Esc && forall i | 0 <= i < |s| :: s[i] != BRACKET
    ensures Run(t, s).ctl.mode == Esc
    ensures (forall i | 0 <= i < |s| :: s[i] !in {0x45, 0x44, 0x37, 0x38}) ==> Run(t, s) == t
    decreases |s|
  {
    if s != [] {
      EscStep(t, s[0]);
      hide Step;
      EscSwallows(Step(t, s[0]), s[1..]);
    }
  }

  /** A sequence with sixteen semicolons is never left again: every later byte is swallowed. */
  lemma {:induction false} SwallowsAll(t: Term, bytes: seq<Byte>)
    requires Valid(t) && t.ctl.mode == Arg && t.ctl.argc == ARG_NR
    ensures Run(t, bytes) == t
    decreases |bytes|
  {
    if bytes != [] {
      SwallowsAll(t, bytes[1..]);
    }
  }

  lemma {:induction false} RunSplit(t: Term, a: seq<Byte>, b: seq<Byte>)
    requires Valid(t)
    ensures Run(t, a + b) == Run(Run(t, a), b)
    decreases |a|
  {
    hide Step;
    if a == [] {
      assert a + b == b;
    } else {
      assert (a + b)[1..] == a[1..] + b;
      RunSplit(Step(t, a[0]), a[1..], b);
    }
  }

  function Repeat(b: Byte, n: nat): seq<Byte> {
    seq<Byte>(n, i => b)
  }

  lemma {:induction false} CountSemicolons(t: Term, n: nat)
    requires Valid(t) && t.ctl.mode == Arg && t.ctl.argc + n <= ARG_NR
    ensures Run(t, Repeat(SEMICOLON, n)) == t.(ctl := t.ctl.(argc := t.ctl.argc + n))
    decreases n
  {
    if n > 0 {
      var u := t.(ctl := t.ctl.(argc := t.ctl.argc + 1));
      assert Repeat(SEMICOLON, n)[1..] == Repeat(SEMICOLON, n - 1);
      assert Step(t, SEMICOLON) == u;
      CountSemicolons(u, n - 1);
    }
  }

  /** ESC, a bracket and sixteen semicolons, and nothing that comes after them is ever shown. */
  lemma SixteenSemicolons(t: Term, bytes: seq<Byte>)
    requires Valid(t) && t.ctl.mode == Normal
    ensures var head := [ESC, BRACKET] + Repeat(SEMICOLON, 16);
            Run(t, head).ctl.mode == Arg && Run(t, head + bytes) == Run(t, head) && Run(t, head).grid == t.grid
  {
    var open, head := [ESC, BRACKET, SEMICOLON], [ESC, BRACKET] + Repeat(SEMICOLON, 16);
    assert head == open + Repeat(SEMICOLON, 15);
    RunSplit(t, open, Repeat(SEMICOLON, 15));
    RunSplit(t, head, bytes);
    var e := Step(t, ESC);
    var q := Step(e, BRACKET);
    var u := Step(q, SEMICOLON);
    assert u.ctl.mode == Arg && u.ctl.argc == 1 && u.grid == t.grid;
    OpenRun(t, e, q, u);
    CountSemicolons(u, 15);
    SwallowsAll(Run(t, head), bytes);
  }

  lemma OpenRun(t: Term, e: Term, q: Term, u: Term)
    requires Valid(t) && e == Step(t, ESC) && q == Step(e, BRACKET) && u == Step(q, SEMICOLON)
    ensures Run(t, [ESC, BRACKET, SEMICOLON]) == u
  {
    hide Step;
    assert [ESC, BRACKET, SEMICOLON][1..] == [BRACKET, SEMICOLON] && [BRACKET, SEMICOLON][1..] == [SEMICOLON];
    assert [SEMICOLON][1..] == [];
    assert Run(u, []) == u;
    assert Run(q, [SEMICOLON]) == u;
    assert Run(e, [BRACKET, SEMICOLON]) == u;
  }

  lemma CsiMode(t: Term, ch: char)
    requires Valid(t)
    ensures StateCsi(t, ch).ctl.mode == Normal
  {
    hide Fill, Attributes.StyleCode, Count, Once, Times;
  }

  /** Rows after the cursor move up by one, as deleting a line would have it. */
  function LinesUp(t: Term): (r: seq<nat>)
    requires Valid(t)
    ensures |r| == CELLS
    ensures forall i | 0 <= i < CELLS ::
              r[i] ==
              if i >= CELLS - WIDTH then t.ctl.erase else if i < t.ctl.y * WIDTH then t.grid[i] else t.grid[i + WIDTH]
  {
    seq(CELLS, i requires 0 <= i < CELLS =>
      if i >= CELLS - WIDTH then t.ctl.erase else if i < t.ctl.y * WIDTH then t.grid[i] else t.grid[i + WIDTH])
  }

  function Row(g: seq<nat>, k: nat): (r: seq<nat>)
    requires |g| == CELLS && k < HEIGHT
    ensures |r| == WIDTH
  {
    g[k * WIDTH..(k + 1) * WIDTH]
  }

  /** The row below is the same. */
  predicate Repeated(t: Term, k: nat)
    requires Valid(t) && k < HEIGHT - 1
  {
    Row(t.grid, k) == Row(t.grid, k + 1)
  }

  /** Every second row from the cursor on is repeated. */
  predicate Paired(t: Term)
    requires Valid(t)
  {
    forall k | t.ctl.y <= k < HEIGHT - 1 && Even(k - t.ctl.y) :: Repeated(t, k)
  }

  predicate Even(n: int) {
    n % 2 == 0
  }

  lemma RowsEqual(g: seq<nat>, h: seq<nat>)
    requires |g| == |h| == CELLS && forall k | 0 <= k < HEIGHT :: Row(g, k) == Row(h, k)
    ensures g == h
  {
    forall j | 0 <= j < CELLS
      ensures g[j] == h[j]
    {
      var k, i := j / WIDTH, j % WIDTH;
      assert g[j] == Row(g, k)[i] && h[j] == Row(h, k)[i];
    }
  }

  lemma RowDeleted(t: Term, k: nat)
    requires Valid(t) && k < HEIGHT - 1
    ensures Row(DeleteLine(t).grid, k) == Row(t.grid, DeleteSource(t.ctl.y, k))
  {
    var d, n := DeleteLine(t).grid, DeleteSource(t.ctl.y, k);
    forall i | 0 <= i < WIDTH
      ensures Row(d, k)[i] == Row(t.grid, n)[i]
    {
      CellDeleted(t, k, i);
      RowCell(d, k, i);
      RowCell(t.grid, n, i);
    }
    hide Row;
  }

  lemma RowCell(g: seq<nat>, k: nat, i: nat)
    requires |g| == CELLS && k < HEIGHT && i < WIDTH
    ensures k * WIDTH + i < CELLS && Row(g, k)[i] == g[k * WIDTH + i]
  {
  }

  lemma CellDeleted(t: Term, k: nat, i: nat)
    requires Valid(t) && k < HEIGHT - 1 && i < WIDTH
    ensures var n := DeleteSource(t.ctl.y, k);
            n < HEIGHT && DeleteLine(t).grid[k * WIDTH + i] == t.grid[n * WIDTH + i]
  {
    CellOf(k, i);
  }

  lemma CellOf(k: nat, i: nat)
    requires i < WIDTH
    ensures (k * WIDTH + i) / WIDTH == k && (k * WIDTH + i) % WIDTH == i
  {
  }

  lemma RowUp(t: Term, k: nat)
    requires Valid(t) && k < HEIGHT - 1
    ensures Row(LinesUp(t), k) == Row(t.grid, if k < t.ctl.y then k else k + 1)
  {
  }

  lemma LastRow(t: Term)
    requires Valid(t)
    ensures Row(DeleteLine(t).grid, HEIGHT - 1) == Row(LinesUp(t), HEIGHT - 1)
  {
  }

  /** Text on the first row of an otherwise blank screen: deleting its line leaves it there. */
  lemma DeleteLineFails(t: Term, b: Byte)
    requires Valid(t) && Cleared(t) && Printable(b) && Cell(t.ctl.style, b) != t.ctl.erase
    ensures var u := Run(t, [b]); DeleteLine(u).grid != LinesUp(u)
  {
    var u := Run(t, [b]);
    TypedText(t, [b]);
    assert u.grid[0] == Cell(t.ctl.style, b) && u.grid[WIDTH] == t.ctl.erase && u.ctl.y == 0;
    assert Row(u.grid, 0)[0] != Row(u.grid, 1)[0];
    assert !Repeated(u, 0) && Even(0);
    DeleteLineExactly(u);
  }

  /** The screen as it is cleared when the system starts. */
  function StartScreen(): (t: Term) {
    Term(seq(CELLS, i => 0x0720), Ctl(0, 0, 0, 0, Normal, Zeros(), 0, false, 0x0720, 7))
  }

  /** One typed letter is enough. */
  lemma DeleteLineKeepsLetter()
    ensures var t := StartScreen(); Valid(t) && Cleared(t)
    ensures var u := Run(StartScreen(), [0x61]); Valid(u) && DeleteLine(u).grid != LinesUp(u)
  {
    DeleteLineFails(StartScreen(), 0x61);
  }

  /**
   * delete_line does not delete a line in general.  It does exactly when every
   * second row from the cursor on equals the row below it.
   */
  lemma DeleteLineExactly(t: Term)
    requires Valid(t)
    ensures DeleteLine(t).grid == LinesUp(t) <==> Paired(t)
  {
    hide DeleteLine, LinesUp, Row;
    var d, u := DeleteLine(t).grid, LinesUp(t);
    forall k | 0 <= k < HEIGHT - 1
      ensures Row(d, k) == Row(u, k) <==> k < t.ctl.y || !Even(k - t.ctl.y) || Repeated(t, k)
    {
      RowDeleted(t, k);
      RowUp(t, k);
    }
    LastRow(t);
    if Paired(t) {
      RowsEqual(d, u);
    } else {
      var k :| t.ctl.y <= k < HEIGHT - 1 && Even(k - t.ctl.y) && !Repeated(t, k);
      assert Row(d, k) != Row(u, k);
    }
  }

  // Plain text.

  predicate Printable(b: Byte) {
    b !in {0, 7, 8, 9, 10, 11, 12, 13, 0x7F, 0x1B}
  }

  predicate Cleared(t: Term) {
    && Valid(t) && t.ctl.mode == Normal && t.ctl.x == 0 && t.ctl.y == 0
    && forall i | 0 <= i < CELLS :: t.grid[i] == t.ctl.erase
  }

  /** The line the last of `n` characters stands on, counted from the first one written. */
  function LineOf(n: nat): nat {
    if n == 0 then 0 else (n - 1) / WIDTH
  }

  /** How many lines have left the screen. */
  function Gone(n: nat): nat {
    if LineOf(n) < HEIGHT then 0 else LineOf(n) - (HEIGHT - 1)
  }

  /** The screen shows the last lines of the text, broken every 80 characters. */
  predicate ShowsText(t0: Term, t: Term, s: seq<Byte>)
    requires Valid(t0) && Valid(t)
  {
    var n := |s|;
    && t.ctl == t0.ctl.(x := n - LineOf(n) * WIDTH, y := LineOf(n) - Gone(n))
    && forall i | 0 <= i < CELLS ::
         t.grid[i] == if Gone(n) * WIDTH + i < n then Cell(t0.ctl.style, s[Gone(n) * WIDTH + i]) else t0.ctl.erase
  }

  lemma {:induction false} RunAppend(t: Term, s: seq<Byte>, b: Byte)
    requires Valid(t)
    ensures Run(t, s + [b]) == Step(Run(t, s), b)
    decreases |s|
  {
    hide Step;
    if s == [] {
      assert Run(Step(t, b), []) == Step(t, b);
    } else {
      assert (s + [b])[1..] == s[1..] + [b];
      RunAppend(Step(t, s[0]), s[1..], b);
    }
  }

  /** The character fits on the line. */
  lemma TypeOn(t0: Term, t: Term, s: seq<Byte>, b: Byte)
    requires Cleared(t0) && Valid(t) && ShowsText(t0, t, s) && t.ctl.x < WIDTH
    ensures ShowsText(t0, Chr(t, b), s + [b])
  {
    SameLine(|s|);
    hide LineOf, Gone, Cell, Lf;
    assert forall i | 0 <= i < |s| :: (s + [b])[i] == s[i];
  }

  /** The character begins a new line of the screen. */
  lemma TypeBelow(t0: Term, t: Term, s: seq<Byte>, b: Byte)
    requires Cleared(t0) && Valid(t) && ShowsText(t0, t, s) && t.ctl.x == WIDTH && t.ctl.y < HEIGHT - 1
    ensures ShowsText(t0, Chr(t, b), s + [b])
  {
    NextLine(|s|);
    GoneWhen(|s|);
    hide LineOf, Gone, Cell, Scroll;
    assert forall i | 0 <= i < |s| :: (s + [b])[i] == s[i];
  }

  /** The character begins a new line and the screen scrolls. */
  lemma TypeScrolled(t0: Term, t: Term, s: seq<Byte>, b: Byte)
    requires Cleared(t0) && Valid(t) && ShowsText(t0, t, s) && t.ctl.x == WIDTH && t.ctl.y == HEIGHT - 1
    ensures ShowsText(t0, Chr(t, b), s + [b])
  {
    NextLine(|s|);
    GoneWhen(|s|);
    hide LineOf, Gone, Cell;
    assert forall i | 0 <= i < |s| :: (s + [b])[i] == s[i];
  }

  lemma GoneWhen(n: nat)
    ensures LineOf(n) - Gone(n) < HEIGHT - 1 <==> LineOf(n) < HEIGHT - 1
  {
  }

  lemma TypeOne(t0: Term, t: Term, s: seq<Byte>, b: Byte)
    requires Cleared(t0) && Valid(t) && ShowsText(t0, t, s)
    ensures ShowsText(t0, Chr(t, b), s + [b])
  {
    hide ShowsText, Chr;
    if t.ctl.x < WIDTH {
      TypeOn(t0, t, s, b);
    } else if t.ctl.y < HEIGHT - 1 {
      TypeBelow(t0, t, s, b);
    } else {
      TypeScrolled(t0, t, s, b);
    }
  }

  lemma NextLine(n: nat)
    requires n > 0 && n - LineOf(n) * WIDTH == WIDTH
    ensures LineOf(n + 1) == LineOf(n) + 1 && LineOf(n + 1) * WIDTH == n
    ensures Gone(n + 1) == if LineOf(n) < HEIGHT - 1 then Gone(n) else Gone(n) + 1
  {
  }

  lemma SameLine(n: nat)
    requires n == 0 || n - LineOf(n) * WIDTH < WIDTH
    ensures LineOf(n + 1) == LineOf(n) && Gone(n + 1) == Gone(n)
  {
  }

  /** Text of any length on a cleared screen: broken into lines, scrolled, the last lines on view. */
  lemma {:induction false} TypedText(t: Term, s: seq<Byte>)
    requires Valid(t) && Cleared(t) && forall i | 0 <= i < |s| :: Printable(s[i])
    ensures ShowsText(t, Run(t, s), s)
    decreases |s|
  {
    hide Chr, Cleared, ShowsText;
    if s == [] {
      EmptyText(t);
    } else {
      var n := |s| - 1;
      TypedText(t, s[..n]);
      assert s == s[..n] + [s[n]];
      RunAppend(t, s[..n], s[n]);
      TypeOne(t, Run(t, s[..n]), s[..n], s[n]);
      StillNormal(t, Run(t, s[..n]), s[..n]);
    }
  }

  lemma EmptyText(t: Term)
    requires Cleared(t)
    ensures ShowsText(t, t, [])
  {
  }

  lemma StillNormal(t0: Term, t: Term, s: seq<Byte>)
    requires Cleared(t0) && Valid(t) && ShowsText(t0, t, s)
    ensures t.ctl.mode == Normal
  {
  }
}
