/** Where the cursor goes and which cells change, for every control sequence of the console. */
module ScreenLaws {
  import opened Prelude
  import opened Terminal
  import opened Sequences
  import Attributes

  const LIMIT: int := 0x8000_0000      // from here on a number is negative to set_xy

  function Least(a: int, b: int): int {
    if a < b then a else b
  }

  function Most(a: int, b: int): int {
    if a < b then b else a
  }

  /** Only the cursor moved. */
  predicate Moved(t: Term, u: Term, x: int, y: int) {
    && u.grid == t.grid && u.ctl.mode == Normal && u.ctl.x == x && u.ctl.y == y
    && u.ctl.savedX == t.ctl.savedX && u.ctl.savedY == t.ctl.savedY
    && u.ctl.style == t.ctl.style && u.ctl.erase == t.ctl.erase
  }

  /** Only cells changed. */
  predicate Drawn(t: Term, u: Term) {
    && |u.grid| == |t.grid| && u.ctl.mode == Normal && u.ctl.x == t.ctl.x && u.ctl.y == t.ctl.y
    && u.ctl.savedX == t.ctl.savedX && u.ctl.savedY == t.ctl.savedY
    && u.ctl.style == t.ctl.style && u.ctl.erase == t.ctl.erase
  }

  // Moving by a number of rows or columns.

  /** The bytes of A, B, C, D, E, F, a and e. */
  predicate Relative(b: Byte) {
    0x41 <= b <= 0x46 || b == 0x61 || b == 0x65
  }

  function TargetX(x: int, k: int, b: Byte): int
    requires Relative(b)
  {
    match b
    case 0x43 => Least(79, x + k)
    case 0x61 => Least(79, x + k)
    case 0x44 => Least(79, Most(0, x - k))
    case 0x45 => 0
    case 0x46 => 0
    case _ => Least(79, x)
  }

  function TargetY(y: int, k: int, b: Byte): int
    requires Relative(b)
  {
    match b
    case 0x41 => Most(0, y - k)
    case 0x46 => Most(0, y - k)
    case 0x42 => Least(24, y + k)
    case 0x65 => Least(24, y + k)
    case 0x45 => Least(24, y + k)
    case _ => y
  }

  /** The number in place `i` of a sequence as 32 bits hold it, 0 where there is none. */
  function Arg(ds: seq<seq<Byte>>, i: nat): nat
    requires Numbers(ds)
  {
    if i < |ds| then Decimal(ds[i]) % WORD else 0
  }

  lemma ArgIsValue(ds: seq<seq<Byte>>)
    requires Numbers(ds)
    ensures Values(ds)[0] == Arg(ds, 0) < WORD && Values(ds)[1] == Arg(ds, 1) < WORD
  {
  }

  /** The move by `k` is in range: 32 bits wrap, and from LIMIT on a place counts as negative. */
  predicate InRange(x: int, y: int, k: int, b: Byte)
    requires Relative(b)
  {
    match b
    case 0x43 => x + k < LIMIT || (x == 80 && k == WORD - 1)
    case 0x61 => x + k < LIMIT || (x == 80 && k == WORD - 1)
    case 0x44 => k - x <= LIMIT
    case 0x41 => k - y <= LIMIT
    case 0x46 => k - y <= LIMIT
    case _ => y + k < LIMIT
  }

  lemma Adds(v: nat, k: nat, limit: nat)
    requires 25 <= limit && v <= limit <= 80 && 1 <= k < WORD
    ensures Clamp(v, limit) == Least(limit - 1, v)
    ensures Clamp(Add(v, k), limit) == Least(limit - 1, v + k) <==> v + k < LIMIT || (v == limit && k == WORD - 1)
  {
  }

  lemma Subtracts(v: nat, k: nat, limit: nat)
    requires 25 <= limit && v <= limit <= 80 && 1 <= k < WORD
    ensures Clamp(Sub(v, k), limit) == Least(limit - 1, Most(0, v - k)) <==> k - v <= LIMIT
  {
  }

  lemma DownMove(c: Ctl, b: Byte)
    requires Sound(c) && c.args[0] < WORD && (b == 0x42 || b == 0x45 || b == 0x65)
    ensures var k, r := Most(1, c.args[0]), Move(c, b as char);
            && r == c.(x := r.x, y := r.y, args := r.args)
            && (r.x == TargetX(c.x, k, b) && r.y == TargetY(c.y, k, b) <==> InRange(c.x, c.y, k, b))
  {
    Adds(c.x, 1, WIDTH);
    Adds(c.y, Most(1, c.args[0]), HEIGHT);
    hide Clamp, Add, Sub;
  }

  lemma UpMove(c: Ctl, b: Byte)
    requires Sound(c) && c.args[0] < WORD && (b == 0x41 || b == 0x46)
    ensures var k, r := Most(1, c.args[0]), Move(c, b as char);
            && r == c.(x := r.x, y := r.y, args := r.args)
            && (r.x == TargetX(c.x, k, b) && r.y == TargetY(c.y, k, b) <==> InRange(c.x, c.y, k, b))
  {
    Adds(c.x, 1, WIDTH);
    Subtracts(c.y, Most(1, c.args[0]), HEIGHT);
    hide Clamp, Add, Sub;
  }

  lemma SideMove(c: Ctl, b: Byte)
    requires Sound(c) && c.args[0] < WORD && (b == 0x43 || b == 0x44 || b == 0x61)
    ensures var k, r := Most(1, c.args[0]), Move(c, b as char);
            && r == c.(x := r.x, y := r.y, args := r.args)
            && (r.x == TargetX(c.x, k, b) && r.y == TargetY(c.y, k, b) <==> InRange(c.x, c.y, k, b))
  {
    Adds(c.y, 1, HEIGHT);
    Adds(c.x, Most(1, c.args[0]), WIDTH);
    Subtracts(c.x, Most(1, c.args[0]), WIDTH);
    hide Clamp, Add, Sub;
  }

  lemma RelativeMove(c: Ctl, b: Byte)
    requires Sound(c) && Relative(b) && c.args[0] < WORD
    ensures var k, r := Most(1, c.args[0]), Move(c, b as char);
            && r == c.(x := r.x, y := r.y, args := r.args)
            && (r.x == TargetX(c.x, k, b) && r.y == TargetY(c.y, k, b) <==> InRange(c.x, c.y, k, b))
  {
    hide Move, TargetX, TargetY, InRange;
    if b == 0x41 || b == 0x46 {
      UpMove(c, b);
    } else if b == 0x43 || b == 0x44 || b == 0x61 {
      SideMove(c, b);
    } else {
      DownMove(c, b);
    }
  }

  lemma RelativeCsi(t: Term, b: Byte)
    requires Valid(t) && t.ctl.mode == Normal && Relative(b) && t.ctl.args[0] < WORD
    ensures var k := Most(1, t.ctl.args[0]);
            Moved(t, StateCsi(t, b as char), TargetX(t.ctl.x, k, b), TargetY(t.ctl.y, k, b)) <==>
            InRange(t.ctl.x, t.ctl.y, k, b)
  {
    hide Times, EraseDisplay, EraseRow, SetStyle, Count, Move, TargetX, TargetY, InRange;
    assert StateCsi(t, b as char) == t.(ctl := Move(t.ctl, b as char));
    RelativeMove(t.ctl, b);
  }

  /**
   * ESC [ n with one of these letters moves by n, by one if n is 0 or missing, and stops at the edges.  Large
   * numbers wrap: it does so exactly while the move is in range.
   */
  lemma MovesBy(t: Term, ds: seq<seq<Byte>>, b: Byte)
    requires Valid(t) && t.ctl.mode == Normal && Numbers(ds) && Relative(b)
    ensures var k := Most(1, Arg(ds, 0));
            Moved(t, Run(t, Sequence(ds, b)), TargetX(t.ctl.x, k, b), TargetY(t.ctl.y, k, b)) <==>
            InRange(t.ctl.x, t.ctl.y, k, b)
  {
    hide StateCsi, Run, Sequence, TargetX, TargetY, Values, Arg, InRange;
    ArgIsValue(ds);
    SequenceRuns(t, ds, b);
    RelativeCsi(Ready(t, ds), b);
  }

  lemma NextDigit(d: seq<Byte>, k: nat)
    requires Digits(d) && k < |d|
    ensures Decimal(d[..k + 1]) == 10 * Decimal(d[..k]) + d[k] as int - 0x30 && Decimal(d[..0]) == 0
  {
    assert d[..k + 1][..k] == d[..k];
  }

  /** 2147483648 in digits. */
  function Far(): seq<Byte> {
    [0x32, 0x31, 0x34, 0x37, 0x34, 0x38, 0x33, 0x36, 0x34, 0x38]
  }

  lemma FarHead()
    ensures Digits(Far()) && Decimal(Far()[..5]) == 21474
  {
    var d := Far();
    NextDigit(d, 0);
    NextDigit(d, 1);
    NextDigit(d, 2);
    NextDigit(d, 3);
    NextDigit(d, 4);
    hide Decimal;
  }

  lemma FarNumber()
    ensures Digits(Far()) && Decimal(Far()) == 0x8000_0000
  {
    FarHead();
    var d := Far();
    NextDigit(d, 5);
    NextDigit(d, 6);
    NextDigit(d, 7);
    NextDigit(d, 8);
    NextDigit(d, 9);
    assert d[..10] == d;
    hide Decimal;
  }

  /** ESC [ 2147483648 B on the start screen: not down to the last row. */
  lemma FarDownFails()
    ensures Digits(Far()) && Valid(StartScreen())
    ensures !Moved(StartScreen(), Run(StartScreen(), Sequence([Far()], 0x42)), 0, 24)
  {
    FarNumber();
    hide Run, Sequence, Far, Decimal;
    MovesBy(StartScreen(), [Far()], 0x42);
  }

  // Moving to a place.

  /** Places count from one, and a missing one is the first. */
  function Place(n: int): int {
    Most(n, 1) - 1
  }

  /** G, backquote, d, H and f. */
  predicate Absolute(b: Byte) {
    b == 0x47 || b == 0x60 || b == 0x64 || b == 0x48 || b == 0x66
  }

  /** The places that `b` uses are not negative to set_xy. */
  predicate Named(r: int, c: int, b: Byte) {
    r <= LIMIT && (b == 0x48 || b == 0x66 ==> c <= LIMIT)
  }

  lemma AbsoluteCsi(t: Term, b: Byte)
    requires Valid(t) && t.ctl.mode == Normal && Absolute(b)
    ensures var r, c := t.ctl.args[0], t.ctl.args[1];
            Moved(t, StateCsi(t, b as char), ColumnOf(t.ctl.x, r, c, b), RowOf(t.ctl.y, r, b)) <==> Named(r, c, b)
  {
    hide Times, EraseDisplay, EraseRow, SetStyle, Count;
  }

  function ColumnOf(x: int, r: int, c: int, b: Byte): int {
    if b == 0x47 || b == 0x60 then Least(79, Place(r)) else if b == 0x64 then Least(79, x) else Least(79, Place(c))
  }

  function RowOf(y: int, r: int, b: Byte): int {
    if b == 0x47 || b == 0x60 then y else Least(24, Place(r))
  }

  /** G and backquote name a column, d a row, H and f a row and a column. */
  lemma MovesTo(t: Term, ds: seq<seq<Byte>>, b: Byte)
    requires Valid(t) && t.ctl.mode == Normal && Numbers(ds) && Absolute(b)
    ensures var r, c := Arg(ds, 0), Arg(ds, 1);
            Moved(t, Run(t, Sequence(ds, b)), ColumnOf(t.ctl.x, r, c, b), RowOf(t.ctl.y, r, b)) <==> Named(r, c, b)
  {
    hide StateCsi, Run, Sequence, Values, Arg, ColumnOf, RowOf, Named;
    SequenceRuns(t, ds, b);
    ArgIsValue(ds);
    AbsoluteCsi(Ready(t, ds), b);
  }

  /** s keeps the place of the cursor, and u goes back to the place kept. */
  lemma SavesAndRestores(t: Term, ds: seq<seq<Byte>>)
    requires Valid(t) && t.ctl.mode == Normal && Numbers(ds)
    ensures var u := Run(t, Sequence(ds, 0x73));
            && u.ctl.savedX == t.ctl.x && u.ctl.savedY == t.ctl.y && u.grid == t.grid
            && u.ctl.x == t.ctl.x && u.ctl.y == t.ctl.y && u.ctl.mode == Normal
    ensures Moved(t, Run(t, Sequence(ds, 0x75)), Least(79, t.ctl.savedX), t.ctl.savedY)
  {
    SequenceRuns(t, ds, 0x73);
    SequenceRuns(t, ds, 0x75);
    hide Run, Sequence, Values, StateCsi;
    PlaceKept(Ready(t, ds));
  }

  lemma PlaceKept(t: Term)
    requires Valid(t) && t.ctl.mode == Normal
    ensures StateCsi(t, 's') == t.(ctl := t.ctl.(savedX := t.ctl.x, savedY := t.ctl.y))
    ensures StateCsi(t, 'u') == t.(ctl := t.ctl.(x := Least(79, t.ctl.savedX), y := t.ctl.savedY))
  {
    hide Times, EraseDisplay, EraseRow, SetStyle, Count;
  }

  // Erasing.

  /** The cells from the cursor on (0), before it (1) or all (2). */
  predicate Erased(n: int, at: int, i: int) {
    (n == 0 && i >= at) || (n == 1 && i < at) || n == 2
  }

  lemma EraseCsi(t: Term)
    requires Valid(t) && t.ctl.mode == Normal
    ensures var u := StateCsi(t, 'J');
            && Drawn(t, u)
            && forall i | 0 <= i < CELLS ::
                 u.grid[i] == if Erased(t.ctl.args[0], t.ctl.y * 80 + t.ctl.x, i) then t.ctl.erase else t.grid[i]
    ensures var u := StateCsi(t, 'K');
            && Drawn(t, u)
            && forall i | 0 <= i < CELLS ::
                 u.grid[i] ==
                 if i / 80 == t.ctl.y && Erased(t.ctl.args[0], t.ctl.x, i % 80) then t.ctl.erase else t.grid[i]
  {
    hide Times, SetStyle, Move, Count;
    assert StateCsi(t, 'J') == EraseDisplay(t) && StateCsi(t, 'K') == EraseRow(t);
  }

  /** J erases on the screen and K on the cursor's row. */
  lemma ErasesCells(t: Term, ds: seq<seq<Byte>>)
    requires Valid(t) && t.ctl.mode == Normal && Numbers(ds)
    ensures var u, n := Run(t, Sequence(ds, 0x4A)), Arg(ds, 0);
            && Drawn(t, u)
            && forall i | 0 <= i < CELLS ::
                 u.grid[i] == if Erased(n, t.ctl.y * 80 + t.ctl.x, i) then t.ctl.erase else t.grid[i]
    ensures var u, n := Run(t, Sequence(ds, 0x4B)), Arg(ds, 0);
            && Drawn(t, u)
            && forall i | 0 <= i < CELLS ::
                 u.grid[i] == if i / 80 == t.ctl.y && Erased(n, t.ctl.x, i % 80) then t.ctl.erase else t.grid[i]
  {
    hide StateCsi, Run, Sequence, Erased;
    SequenceRuns(t, ds, 0x4A);
    SequenceRuns(t, ds, 0x4B);
    ArgIsValue(ds);
    hide Values, Arg;
    EraseCsi(Ready(t, ds));
  }

  // Single bytes.

  /** The rows after a line feed: on the last row they move up, and a blank one comes in. */
  predicate Fed(t: Term, g: seq<nat>)
    requires Valid(t)
  {
    && |g| == CELLS
    && forall i | 0 <= i < CELLS ::
         g[i] == if t.ctl.y < 24 then t.grid[i] else if i < CELLS - 80 then t.grid[i + 80] else t.ctl.erase
  }

  lemma OneByte(t: Term, b: Byte)
    requires Valid(t) && t.ctl.mode == Normal
    ensures Run(t, [b]) == StateNormal(t, b)
  {
    OneStep(t, b);
    hide StateNormal;
  }

  /** Backspace goes one column back and erases there, but not over the start of the row. */
  lemma Backspace(t: Term)
    requires Valid(t) && t.ctl.mode == Normal
    ensures var u := Run(t, [8]);
            if t.ctl.x == 0 then u == t
            else u.ctl == t.ctl.(x := t.ctl.x - 1)
                 && u.grid == t.grid[t.ctl.y * 80 + t.ctl.x - 1 := t.ctl.erase]
  {
    OneByte(t, 8);
  }

  /** Tab goes to the next column divisible by eight, on the next row if there is none on this one. */
  lemma TabStop(t: Term)
    requires Valid(t) && t.ctl.mode == Normal
    ensures var u := Run(t, [9]);
            && u.ctl.x % 8 == 0
            && (t.ctl.x < 72 ==> u == t.(ctl := t.ctl.(x := u.ctl.x)) && t.ctl.x < u.ctl.x <= t.ctl.x + 8)
            && (t.ctl.x >= 72 ==>
                  && u.ctl.x == (if t.ctl.x == 80 then 8 else 0)
                  && u.ctl.y == Least(24, t.ctl.y + 1)
                  && Fed(t, u.grid))
  {
    hide Run, StateNormal, Tab;
    OneByte(t, 9);
    assert StateNormal(t, 9) == Tab(t) by { TabByte(t); }
    if t.ctl.x < 72 {
      TabShort(t);
    } else {
      TabWraps(t);
    }
  }

  lemma TabByte(t: Term)
    requires Valid(t)
    ensures StateNormal(t, 9) == Tab(t)
  {
  }

  lemma TabShort(t: Term)
    requires Valid(t) && t.ctl.x < 72
    ensures var u := Tab(t);
            u == t.(ctl := t.ctl.(x := u.ctl.x)) && t.ctl.x < u.ctl.x <= t.ctl.x + 8 && u.ctl.x % 8 == 0
  {
    TabColumn(t.ctl.x);
  }

  lemma TabWraps(t: Term)
    requires Valid(t) && t.ctl.x >= 72
    ensures var u := Tab(t);
            && u.ctl.x == (if t.ctl.x == 80 then 8 else 0)
            && u.ctl.y == Least(24, t.ctl.y + 1)
            && Fed(t, u.grid)
  {
    TabColumn(t.ctl.x);
    var k := t.(ctl := t.ctl.(x := t.ctl.x + 8 - t.ctl.x % 8 - 80));
    assert Tab(t) == Lf(k);
    hide Lf, Tab;
    Feeds(k);
  }

  lemma TabColumn(x: nat)
    requires x <= 80
    ensures var c := x + 8 - x % 8;
            c % 8 == 0 && x < c <= x + 8 && (c >= 80 <==> x >= 72) && (x >= 72 ==> c - 80 == if x == 80 then 8 else 0)
  {
  }

  lemma Feeds(t: Term)
    requires Valid(t)
    ensures var u := Lf(t);
            && u.ctl == t.ctl.(y := Least(24, t.ctl.y + 1))
            && Fed(t, u.grid)
  {
  }

  /** Line feed, carriage return and their kin. */
  lemma LineEnds(t: Term)
    requires Valid(t) && t.ctl.mode == Normal
    ensures var u := Run(t, [13]); u == t.(ctl := t.ctl.(x := 0))
    ensures Run(t, [11]) == Run(t, [12]) && Run(t, [10]) == Run(Run(t, [11]), [13])
    ensures var u := Run(t, [11]);
            && u.ctl == t.ctl.(y := Least(24, t.ctl.y + 1))
            && Fed(t, u.grid)
    ensures Run(t, [0]) == t && Run(t, [7]) == t
    ensures Run(t, [0x7F]).ctl == t.ctl
    ensures forall i | 0 <= i < CELLS ::
              Run(t, [0x7F]).grid[i] == if i == t.ctl.y * 80 + t.ctl.x then t.ctl.erase else t.grid[i]
  {
    OneByte(t, 0);
    OneByte(t, 7);
    OneByte(t, 10);
    OneByte(t, 11);
    OneByte(t, 12);
    OneByte(t, 13);
    OneByte(t, 0x7F);
    hide Run, Chr, Tab, Bs, Scroll;
    Feeds(t);
    OneByte(Run(t, [11]), 13);
  }

  /** What a byte of text puts into its cell: the style above the byte, and from 128 on the style is lost. */
  function Shape(style: nat, b: Byte): nat {
    if b < 128 then 256 * style + b else 256 * 0xFF + b
  }

  lemma TextByte(t: Term, b: Byte)
    requires Valid(t) && Printable(b)
    ensures StateNormal(t, b) == Chr(t, b) && StateNormal(t, 10) == Cr(Lf(t))
  {
    hide Chr, Lf, Put, Bs, Tab;
  }

  lemma TextShort(t: Term, b: Byte)
    requires Valid(t) && t.ctl.x < 80
    ensures Chr(t, b).ctl == t.ctl.(x := t.ctl.x + 1)
    ensures Chr(t, b).grid == t.grid[t.ctl.y * 80 + t.ctl.x := Shape(t.ctl.style, b)]
  {
    hide Lf;
  }

  lemma TextWraps(t: Term, b: Byte)
    requires Valid(t) && t.ctl.x == 80
    ensures var fed := Cr(Lf(t)); Chr(t, b) == Chr(fed, b) && fed.ctl.x == 0 && fed.ctl.mode == t.ctl.mode
  {
    assert Lf(t.(ctl := t.ctl.(x := 0))) == Cr(Lf(t));
    hide Put, Scroll;
  }

  /** Any other byte goes to the cursor, which moves on; behind the last column a new line comes first. */
  lemma PutsByte(t: Term, b: Byte)
    requires Valid(t) && t.ctl.mode == Normal && Printable(b)
    ensures var u := Run(t, [b]);
            && (t.ctl.x < 80 ==>
                  && u.ctl == t.ctl.(x := t.ctl.x + 1)
                  && u.grid == t.grid[t.ctl.y * 80 + t.ctl.x := Shape(t.ctl.style, b)])
            && (t.ctl.x == 80 ==>
                  var fed := Run(t, [10]); u == Run(fed, [b]) && fed.ctl.x == 0 && fed.ctl.mode == Normal)
  {
    OneByte(t, b);
    OneByte(t, 10);
    TextByte(t, b);
    hide Run, StateNormal, Chr, Lf, Shape, Printable;
    if t.ctl.x == 80 {
      TextWraps(t, b);
      OneByte(Cr(Lf(t)), b);
      TextByte(Cr(Lf(t)), b);
    } else {
      TextShort(t, b);
    }
  }

  // Inserting and deleting.

  /** `c` blank rows at the cursor. */
  lemma {:induction false} InsertedLines(t: Term, c: nat, i: nat)
    requires Valid(t) && i < CELLS
    ensures Times(t, Lines(true), c).grid[i] ==
            if i < t.ctl.y * 80 then t.grid[i] else if i < (t.ctl.y + c) * 80 then t.ctl.erase else t.grid[i - c * 80]
    decreases c
  {
    if c > 0 {
      var u := Once(t, Lines(true));
      InsertedLines(u, c - 1, i);
    }
  }

  /** `c` blank cells at the cursor. */
  lemma {:induction false} InsertedChars(t: Term, c: nat, i: nat)
    requires Valid(t) && t.ctl.x < 80 && i < CELLS
    ensures Times(t, Chars(true), c).grid[i] ==
            if i / 80 != t.ctl.y || i % 80 < t.ctl.x then t.grid[i]
            else if i % 80 < t.ctl.x + c then t.ctl.erase else t.grid[i - c]
    decreases c
  {
    hide Once;
    if c > 0 {
      var u := Once(t, Chars(true));
      InsertedOne(t, i);
      InsertedChars(u, c - 1, i);
      if i / 80 == t.ctl.y && i % 80 >= t.ctl.x + c - 1 {
        RowPlace(i, c - 1);
        InsertedOne(t, i - (c - 1));
      }
    }
  }

  lemma RowPlace(i: nat, k: nat)
    requires k <= i % 80
    ensures k <= i && (i - k) / 80 == i / 80 && (i - k) % 80 == i % 80 - k
  {
  }

  lemma InsertedOne(t: Term, i: nat)
    requires Valid(t) && t.ctl.x < 80 && i < CELLS
    ensures Once(t, Chars(true)).grid[i] ==
            if i / 80 != t.ctl.y || i % 80 < t.ctl.x then t.grid[i]
            else if i % 80 == t.ctl.x then t.ctl.erase else t.grid[i - 1]
  {
  }

  /** `c` cells gone at the cursor. */
  lemma {:induction false} DeletedChars(t: Term, c: nat, i: nat)
    requires Valid(t) && t.ctl.x < 80 && i < CELLS
    ensures Times(t, Chars(false), c).grid[i] ==
            if i / 80 != t.ctl.y || i % 80 < t.ctl.x then t.grid[i]
            else if i % 80 + c < 80 then t.grid[i + c] else if c == 0 then t.grid[i] else t.ctl.erase
    decreases c
  {
    hide Once;
    if c > 0 {
      var u := Once(t, Chars(false));
      DeletedOne(t, i);
      DeletedChars(u, c - 1, i);
      if i / 80 == t.ctl.y && i % 80 >= t.ctl.x && i % 80 + (c - 1) < 80 {
        RowAhead(i, c - 1);
        DeletedOne(t, i + (c - 1));
      }
    }
  }

  lemma RowAhead(i: nat, k: nat)
    requires i < CELLS && i % 80 + k < 80
    ensures i + k < CELLS && (i + k) / 80 == i / 80 && (i + k) % 80 == i % 80 + k
  {
  }

  lemma DeletedOne(t: Term, i: nat)
    requires Valid(t) && t.ctl.x < 80 && i < CELLS
    ensures Once(t, Chars(false)).grid[i] ==
            if i / 80 != t.ctl.y || i % 80 < t.ctl.x then t.grid[i]
            else if i % 80 < 79 then t.grid[i + 1] else t.ctl.erase
  {
  }

  /** Cell `i` once `c` blank rows have come into `f` at row `y`. */
  function LineCell(f: seq<nat>, y: nat, c: nat, blank: nat, i: nat): nat
    requires |f| == CELLS && i < CELLS
  {
    if i < y * 80 then f[i] else if i < (y + c) * 80 then blank else f[i - c * 80]
  }

  /** Cell `i` once `c` blank cells have come into row `y` of `f` at column `x`. */
  function CharCell(f: seq<nat>, x: nat, y: nat, c: nat, blank: nat, i: nat): nat
    requires |f| == CELLS && i < CELLS
  {
    if i / 80 != y || i % 80 < x then f[i] else if i % 80 < x + c then blank else f[i - c]
  }

  /** In `g` there are `c` blank rows from row `y` of `f` on, and the rows below have moved down. */
  predicate LinesAdded(f: seq<nat>, g: seq<nat>, y: nat, c: int, blank: nat) {
    && |f| == |g| == CELLS && c >= 0
    && forall i | 0 <= i < CELLS :: g[i] == LineCell(f, y, c, blank, i)
  }

  /** In `g` there are `c` blank cells at column `x` of row `y` of `f`, and the cells behind have moved on. */
  predicate CharsAdded(f: seq<nat>, g: seq<nat>, x: nat, y: nat, c: int, blank: nat) {
    && |f| == |g| == CELLS && c >= 0
    && forall i | 0 <= i < CELLS :: g[i] == CharCell(f, x, y, c, blank, i)
  }

  /** In `g` there are `c` cells gone at column `x` of row `y` of `f`, and blanks at the end of the row. */
  predicate CharsGone(f: seq<nat>, g: seq<nat>, x: nat, y: nat, c: int, blank: nat) {
    && |f| == |g| == CELLS && c >= 0
    && forall i | 0 <= i < CELLS ::
         g[i] == if i / 80 != y || i % 80 < x then f[i] else if i % 80 + c < 80 then f[i + c] else blank
  }

  lemma InsertedLinesAll(t: Term, c: nat)
    requires Valid(t)
    ensures LinesAdded(t.grid, Times(t, Lines(true), c).grid, t.ctl.y, c, t.ctl.erase)
  {
    var g := Times(t, Lines(true), c).grid;
    assert |g| == CELLS && |t.grid| == CELLS;
    forall i | 0 <= i < CELLS
      ensures g[i] == LineCell(t.grid, t.ctl.y, c, t.ctl.erase, i)
    {
      InsertedLines(t, c, i);
    }
  }

  lemma InsertedCharsAll(t: Term, c: nat)
    requires Valid(t) && t.ctl.x < 80
    ensures CharsAdded(t.grid, Times(t, Chars(true), c).grid, t.ctl.x, t.ctl.y, c, t.ctl.erase)
  {
    var g := Times(t, Chars(true), c).grid;
    assert |g| == CELLS && |t.grid| == CELLS;
    forall i | 0 <= i < CELLS
      ensures g[i] == CharCell(t.grid, t.ctl.x, t.ctl.y, c, t.ctl.erase, i)
    {
      InsertedChars(t, c, i);
    }
  }

  lemma DeletedCharsAll(t: Term, c: nat)
    requires Valid(t) && t.ctl.x < 80 && c > 0
    ensures CharsGone(t.grid, Times(t, Chars(false), c).grid, t.ctl.x, t.ctl.y, c, t.ctl.erase)
  {
    var g := Times(t, Chars(false), c).grid;
    assert |g| == CELLS && |t.grid| == CELLS;
    forall i | 0 <= i < CELLS
      ensures g[i] == if i / 80 != t.ctl.y || i % 80 < t.ctl.x then t.grid[i]
                      else if i % 80 + c < 80 then t.grid[i + c] else t.ctl.erase
    {
      DeletedChars(t, c, i);
    }
  }

  /**
   * Cell `i` after `c` deletions of row `y` of `f`: every second row takes the one below it, the last row
   * is blank, and from the second deletion on so is the row that takes it.
   */
  function GoneCell(f: seq<nat>, y: nat, c: nat, blank: nat, i: nat): nat
    requires |f| == CELLS && i < CELLS
  {
    var k := i / 80;
    if c == 0 then f[i]
    else if k == 24 then blank
    else if k < y || (k - y) % 2 == 0 then f[i]
    else if k == 23 && c > 1 then blank
    else f[i + 80]
  }

  lemma DeletedOnce(t: Term, i: nat)
    requires Valid(t) && i < CELLS
    ensures Once(t, Lines(false)).grid[i] == GoneCell(t.grid, t.ctl.y, 1, t.ctl.erase, i)
  {
  }

  lemma {:induction false} DeletedLines(t: Term, c: nat, i: nat)
    requires Valid(t) && i < CELLS
    ensures Times(t, Lines(false), c).grid[i] == GoneCell(t.grid, t.ctl.y, c, t.ctl.erase, i)
    decreases c
  {
    hide Once;
    if c > 0 {
      DeletedLines(Once(t, Lines(false)), c - 1, i);
      DeletedOnce(t, i);
      if i + 80 < CELLS {
        DeletedOnce(t, i + 80);
      }
    }
  }

  lemma EditCsi(t: Term, ch: char, e: Edit)
    requires Valid(t) && t.ctl.mode == Normal
    requires (ch, e) in {('L', Lines(true)), ('M', Lines(false)), ('@', Chars(true)), ('P', Chars(false))}
    ensures StateCsi(t, ch) == Times(t, e, Count(t.ctl, e))
  {
    hide Times, Count, EraseDisplay, EraseRow, SetStyle, Move;
  }

  /** An editing sequence, from its bytes. */
  lemma EditRuns(t: Term, ds: seq<seq<Byte>>, b: Byte, e: Edit)
    requires Valid(t) && t.ctl.mode == Normal && Numbers(ds)
    requires (b as char, e) in {('L', Lines(true)), ('M', Lines(false)), ('@', Chars(true)), ('P', Chars(false))}
    ensures var u, r := Run(t, Sequence(ds, b)), Ready(t, ds); u == Times(r, e, Count(r.ctl, e)) && Drawn(t, u)
  {
    hide Run, Sequence, Times, StateCsi, Count, Values;
    assert Final(b);
    SequenceRuns(t, ds, b);
    EditCsi(Ready(t, ds), b as char, e);
  }

  /** How many cells: one if none is asked for, and no more than are left unless the number counts as negative. */
  function CharTimes(x: int, n: nat): nat
    requires x < 80
  {
    if n < LIMIT then Least(80 - x, Most(1, n)) else n
  }

  lemma LineCount(t: Term, ds: seq<seq<Byte>>, insert: bool)
    requires Valid(t) && Numbers(ds)
    ensures Count(Ready(t, ds).ctl, Lines(insert)) == Least(25, Most(1, Arg(ds, 0)))
  {
    ArgIsValue(ds);
  }

  lemma CharCount(t: Term, ds: seq<seq<Byte>>, insert: bool)
    requires Valid(t) && Numbers(ds) && t.ctl.x < 80
    ensures Count(Ready(t, ds).ctl, Chars(insert)) == CharTimes(t.ctl.x, Arg(ds, 0))
  {
    ArgIsValue(ds);
  }

  /** L: as many blank rows as asked, one if none is, and no more than the screen has. */
  lemma InsertsLines(t: Term, ds: seq<seq<Byte>>)
    requires Valid(t) && t.ctl.mode == Normal && Numbers(ds)
    ensures var u, c := Run(t, Sequence(ds, 0x4C)), Least(25, Most(1, Arg(ds, 0)));
            Drawn(t, u) && LinesAdded(t.grid, u.grid, t.ctl.y, c, t.ctl.erase)
  {
    hide Run, Sequence, Times, Values, Arg, Count;
    EditRuns(t, ds, 0x4C, Lines(true));
    LineCount(t, ds, true);
    InsertedLinesAll(Ready(t, ds), Count(Ready(t, ds).ctl, Lines(true)));
  }

  /** M: the rows above stay; below, every second row takes the next one and the last is blank. */
  lemma DeletesLines(t: Term, ds: seq<seq<Byte>>)
    requires Valid(t) && t.ctl.mode == Normal && Numbers(ds)
    ensures var u, c := Run(t, Sequence(ds, 0x4D)), Least(25, Most(1, Arg(ds, 0)));
            Drawn(t, u) && forall i | 0 <= i < CELLS :: u.grid[i] == GoneCell(t.grid, t.ctl.y, c, t.ctl.erase, i)
  {
    hide Run, Sequence, Times, Values, Arg, Count, GoneCell;
    EditRuns(t, ds, 0x4D, Lines(false));
    LineCount(t, ds, false);
    var r := Ready(t, ds);
    forall i | 0 <= i < CELLS
      ensures Run(t, Sequence(ds, 0x4D)).grid[i] ==
              GoneCell(t.grid, t.ctl.y, Least(25, Most(1, Arg(ds, 0))), t.ctl.erase, i)
    {
      DeletedLines(r, Count(r.ctl, Lines(false)), i);
    }
  }

  /** @: as many blank cells as asked. */
  lemma InsertsChars(t: Term, ds: seq<seq<Byte>>)
    requires Valid(t) && t.ctl.mode == Normal && Numbers(ds) && t.ctl.x < 80
    ensures var u, c := Run(t, Sequence(ds, 0x40)), CharTimes(t.ctl.x, Arg(ds, 0));
            Drawn(t, u) && CharsAdded(t.grid, u.grid, t.ctl.x, t.ctl.y, c, t.ctl.erase)
  {
    hide Run, Sequence, Times, Values, Arg, Count;
    EditRuns(t, ds, 0x40, Chars(true));
    CharCount(t, ds, true);
    InsertedCharsAll(Ready(t, ds), Count(Ready(t, ds).ctl, Chars(true)));
  }

  /** P: as many cells go. */
  lemma DeletesChars(t: Term, ds: seq<seq<Byte>>)
    requires Valid(t) && t.ctl.mode == Normal && Numbers(ds) && t.ctl.x < 80
    ensures var u, c := Run(t, Sequence(ds, 0x50)), CharTimes(t.ctl.x, Arg(ds, 0));
            Drawn(t, u) && CharsGone(t.grid, u.grid, t.ctl.x, t.ctl.y, c, t.ctl.erase)
  {
    hide Run, Sequence, Times, Values, Arg, Count;
    EditRuns(t, ds, 0x50, Chars(false));
    CharCount(t, ds, false);
    DeletedCharsAll(Ready(t, ds), Count(Ready(t, ds).ctl, Chars(false)));
  }

  lemma {:induction false} MarginTimes(t: Term, insert: bool, c: nat, i: nat)
    requires Valid(t) && t.ctl.x == 80 && i < CELLS
    ensures Times(t, Chars(insert), c).grid[i] ==
            if c > 0 && i == t.ctl.y * 80 + 80 then t.ctl.erase else t.grid[i]
    decreases c
  {
    if c > 0 {
      MarginTimes(Once(t, Chars(insert)), insert, c - 1, i);
    }
  }

  /**
   * Behind the last column @ and P do nothing if asked for a number of cells; asked for none, or for a number that
   * counts as negative, they erase the first cell of the next row.
   */
  lemma EditsAtMargin(t: Term, ds: seq<seq<Byte>>, insert: bool)
    requires Valid(t) && t.ctl.mode == Normal && Numbers(ds) && t.ctl.x == 80
    ensures var u := Run(t, Sequence(ds, if insert then 0x40 else 0x50));
            && Drawn(t, u)
            && forall i | 0 <= i < CELLS ::
                 u.grid[i] == if !(0 < Arg(ds, 0) < LIMIT) && i == t.ctl.y * 80 + 80 then t.ctl.erase else t.grid[i]
  {
    var e, r := Chars(insert), Ready(t, ds);
    EditRuns(t, ds, if insert then 0x40 else 0x50, e);
    ArgIsValue(ds);
    var c := Count(r.ctl, e);
    assert c > 0 <==> !(0 < Arg(ds, 0) < LIMIT);
    hide Run, Sequence, Times, Values, Arg, Count;
    forall i | 0 <= i < CELLS
      ensures Times(r, e, c).grid[i] == if c > 0 && i == t.ctl.y * 80 + 80 then t.ctl.erase else t.grid[i]
    {
      MarginTimes(r, insert, c, i);
    }
  }

  // Style, and the bytes after ESC.

  /** m: the style of all the numbers together, and blanks of that style from then on. */
  lemma SetsStyle(t: Term, ds: seq<seq<Byte>>)
    requires Valid(t) && t.ctl.mode == Normal && Numbers(ds)
    ensures var u, style := Run(t, Sequence(ds, 0x6D)), Attributes.StyleCode(Values(ds)[..|ds|]);
            && u.grid == t.grid && u.ctl.mode == Normal && u.ctl.x == t.ctl.x && u.ctl.y == t.ctl.y
            && u.ctl.style == style && u.ctl.erase == 256 * style + 0x20
  {
    SequenceRuns(t, ds, 0x6D);
    hide Run, Sequence, Times, EraseDisplay, EraseRow, Move, Count, Values, Attributes.StyleCode;
    assert StateCsi(Ready(t, ds), 'm') == SetStyle(Ready(t, ds));
  }

  /** The final bytes with a meaning: @, A to H, J to M, P, backquote, a, d, e, f, m, s and u. */
  predicate Known(b: Byte) {
    || Relative(b) || Absolute(b) || b == 0x4A || b == 0x4B
    || b == 0x4C || b == 0x4D || b == 0x40 || b == 0x50 || b == 0x6D || b == 0x73 || b == 0x75
  }

  lemma OtherCsi(t: Term, b: Byte)
    requires Valid(t) && t.ctl.mode == Normal && !Known(b)
    ensures StateCsi(t, b as char) == t
  {
    hide Times, EraseDisplay, EraseRow, SetStyle, SetXY, Count;
  }

  /** A sequence that ends in any other byte changes nothing on the screen. */
  lemma OthersIgnored(t: Term, ds: seq<seq<Byte>>, b: Byte)
    requires Valid(t) && t.ctl.mode == Normal && Numbers(ds) && Final(b) && !Known(b)
    ensures Moved(t, Run(t, Sequence(ds, b)), t.ctl.x, t.ctl.y)
  {
    hide Run, Sequence, StateCsi, Known, Values;
    SequenceRuns(t, ds, b);
    OtherCsi(Ready(t, ds), b);
  }

  /** E and D after ESC feed a line, 7 keeps the place and 8 goes back to it. */
  lemma AfterEscape(t: Term)
    requires Valid(t) && t.ctl.mode == Esc
    ensures var u := Step(t, 0x44); u.ctl == t.ctl.(y := Least(24, t.ctl.y + 1)) && Fed(t, u.grid)
    ensures var u := Step(t, 0x45); u.ctl == t.ctl.(x := 0, y := Least(24, t.ctl.y + 1)) && Fed(t, u.grid)
    ensures Step(t, 0x37) == t.(ctl := t.ctl.(savedX := t.ctl.x, savedY := t.ctl.y))
    ensures Step(t, 0x38) == t.(ctl := t.ctl.(x := Least(79, t.ctl.savedX), y := t.ctl.savedY))
  {
    hide StateCsi, StateNormal, Fed;
    Feeds(t);
    hide Lf;
  }
}
