/**
 * The console driver (src/kernel/driver/console.c).  Video memory is longer than
 * the screen, which moves through it when it scrolls.  Addresses count cells of
 * two bytes from mem_base.
 */
module Console {
  import opened Prelude
  import Attributes
  import opened Terminal

  /** (MEM_SIZE / ROW_SIZE) rows. */
  const MEM_CELLS: nat := 102 * WIDTH

  const UP_ROW: int := -80

  function View(m: seq<nat>, screen: nat): (g: seq<nat>)
    requires screen + CELLS <= |m|
    ensures |g| == CELLS
  {
    m[screen..screen + CELLS]
  }

  lemma ViewFill(m: seq<nat>, screen: nat, start: nat, n: nat, v: nat)
    requires screen + CELLS <= |m|
    ensures View(Fill(m, screen + start, n, v), screen) == Fill(View(m, screen), start, n, v)
  {
  }

  /** `m` with the cells from `lo` up to `hi` taken from `step` further on. */
  function Shifted(m: seq<nat>, lo: nat, hi: nat, step: int): (r: seq<nat>)
    requires lo <= hi <= |m| && 0 <= lo + step && hi + step <= |m|
    ensures |r| == |m|
    ensures forall c | 0 <= c < |m| :: r[c] == if lo <= c < hi then m[c + step] else m[c]
  {
    seq(|m|, c requires 0 <= c < |m| => if lo <= c < hi then m[c + step] else m[c])
  }

  lemma ViewCopied(m: seq<nat>, screen: nat)
    requires screen + CELLS <= |m|
    ensures View(Shifted(m, 0, CELLS, screen), 0) == View(m, screen)
  {
  }

  /** What the copies and the erased row of scroll_up leave on the moved screen. */
  lemma ViewScroll(m: seq<nat>, k: seq<nat>, screen: nat, base: nat, erase: nat)
    requires screen + CELLS <= |m| == |k| && base + CELLS + WIDTH <= |k|
    requires View(k, base) == View(m, screen)
    ensures View(Fill(k, base + CELLS, WIDTH, erase), base + WIDTH) == Scroll(View(m, screen), erase)
  {
    var g, r := View(m, screen), View(Fill(k, base + CELLS, WIDTH, erase), base + WIDTH);
    forall i | 0 <= i < CELLS
      ensures r[i] == Scroll(g, erase)[i]
    {
      if i < CELLS - WIDTH {
        assert View(k, base)[i + WIDTH] == k[base + i + WIDTH];
      }
    }
  }

  class Driver {
    const mem: array<nat>
    var screen: nat
    var pos: nat
    var x: nat
    var y: nat
    var savedX: nat
    var savedY: nat
    var mode: Mode
    var args: seq<nat>
    var argc: nat
    var ques: bool
    var erase: nat
    var style: nat

    ghost function State(): Ctl
      reads this
    {
      Ctl(x, y, savedX, savedY, mode, args, argc, ques, erase, style)
    }

    ghost predicate Valid()
      reads this
    {
      && mem.Length == MEM_CELLS
      && screen % WIDTH == 0 && screen + CELLS < MEM_CELLS
      && pos == screen + y * WIDTH + x
      && Sound(State()) && style < 256
    }

    ghost function Shown(): (t: Term)
      requires Valid()
      reads this, mem
      ensures Terminal.Valid(t)
    {
      Term(View(mem[..], screen), State())
    }

    /** console_init */
    constructor ()
      ensures Valid() && fresh(mem)
      ensures Shown() == Term(seq(CELLS, i => 0x0720), Ctl(0, 0, 0, 0, Normal, Zeros(), 0, false, 0x0720, 7))
    {
      mem := new nat[MEM_CELLS](i => 0x0720);
      screen, pos, x, y, savedX, savedY := 0, 0, 0, 0, 0, 0;
      mode, args, argc, ques, erase, style := Normal, Zeros(), 0, false, 0x0720, 7;
    }

    /** erase_screen */
    method Erase(start: nat, n: nat)
      requires start + n <= mem.Length
      modifies mem
      ensures mem[..] == Fill(old(mem[..]), start, n, erase)
    {
      var i := 0;
      while i < n
        invariant 0 <= i <= n && mem[..] == Fill(old(mem[..]), start, i, erase)
      {
        mem[start + i] := erase;
        i := i + 1;
      }
    }

    /** memcpy between ranges that do not overlap. */
    method Copy(dst: nat, src: nat, n: nat)
      requires dst + n <= mem.Length && src + n <= mem.Length && (dst + n <= src || src + n <= dst)
      modifies mem
      ensures mem[..] == Shifted(old(mem[..]), dst, dst + n, src - dst)
    {
      var k := 0;
      while k < n
        invariant 0 <= k <= n && mem[..] == Shifted(old(mem[..]), dst, dst + k, src - dst)
      {
        ghost var m := mem[..];
        assert m[src + k] == old(mem[..])[src + k];
        mem[dst + k] := mem[src + k];
        assert mem[..] == m[dst + k := m[src + k]];
        k := k + 1;
      }
    }

    /** One cell at the cursor. */
    method Write(v: nat)
      requires Valid()
      modifies mem
      ensures Valid() && Shown() == Put(old(Shown()), v)
    {
      ghost var m := mem[..];
      ViewFill(m, screen, pos - screen, 1, v);
      mem[pos] := v;
      assert mem[..] == Fill(m, pos, 1, v);
    }

    method ScrollUp()
      requires Valid() && y + 1 == HEIGHT
      modifies this`screen, this`pos, mem
      ensures Valid() && Shown() == Lf(old(Shown()))
    {
      hide Scroll, Fill, View, Shifted;
      ghost var m, s := mem[..], screen;
      if screen + CELLS + WIDTH >= MEM_CELLS {
        Copy(0, screen, CELLS);
        ViewCopied(m, s);
        pos := pos - screen;
        screen := 0;
      }
      ghost var k := mem[..];
      Erase(screen + CELLS, WIDTH);
      ViewScroll(m, k, s, screen, erase);
      screen := screen + WIDTH;
      pos := pos + WIDTH;
    }

    method LineFeed()
      requires Valid()
      modifies this`screen, this`pos, this`y, mem
      ensures Valid() && Shown() == Lf(old(Shown()))
    {
      if y + 1 < HEIGHT {
        y := y + 1;
        pos := pos + WIDTH;
        return;
      }
      ScrollUp();
    }

    method CarriageReturn()
      requires Valid()
      modifies this`pos, this`x
      ensures Valid() && Shown() == Cr(old(Shown()))
    {
      pos := pos - x;
      x := 0;
    }

    method Tabulate()
      requires Valid()
      modifies this`screen, this`pos, this`x, this`y, mem
      ensures Valid() && Shown() == Tab(old(Shown()))
    {
      hide Lf;
      var offset := 8 - x % 8;
      x := x + offset;
      pos := pos + offset;
      if x >= WIDTH {
        x := x - WIDTH;
        pos := pos - WIDTH;
        LineFeed();
      }
    }

    method Backspace()
      requires Valid()
      modifies this`pos, this`x, mem
      ensures Valid() && Shown() == Bs(old(Shown()))
    {
      if x == 0 {
        return;
      }
      x := x - 1;
      pos := pos - 1;
      Write(erase);
    }

    method Character(ch: nat)
      requires Valid() && ch < 256
      modifies this`screen, this`pos, this`x, this`y, mem
      ensures Valid() && Shown() == Chr(old(Shown()), ch)
    {
      hide Lf, Put;
      if x >= WIDTH {
        x := x - WIDTH;
        pos := pos - WIDTH;
        LineFeed();
      }
      Write(Cell(style, ch));
      pos := pos + 1;
      x := x + 1;
    }

    method MoveTo(newX: nat, newY: nat)
      requires Valid()
      modifies this`pos, this`x, this`y
      ensures Valid() && State() == SetXY(old(State()), newX, newY) && Shown() == old(Shown()).(ctl := State())
    {
      x, y := Clamp(newX, WIDTH), Clamp(newY, HEIGHT);
      pos := screen + y * WIDTH + x;
    }

    method EraseCells(start: nat, n: nat)
      requires Valid() && start + n <= CELLS
      modifies mem
      ensures Valid() && Shown() == old(Shown()).(grid := Fill(old(Shown()).grid, start, n, erase))
    {
      ghost var m := mem[..];
      ViewFill(m, screen, start, n, erase);
      Erase(screen + start, n);
    }

    /** The cells behind `lo` move one place to the left, up to `hi`. */
    method Pull(lo: nat, hi: nat)
      requires lo <= hi < mem.Length
      modifies mem
      ensures mem[..] == Shifted(old(mem[..]), lo, hi, 1)
    {
      ghost var m := mem[..];
      var ptr := lo;
      while ptr < hi
        invariant lo <= ptr <= hi && mem[..] == Shifted(m, lo, ptr, 1)
      {
        ghost var k := mem[..];
        assert k[ptr + 1] == m[ptr + 1];
        mem[ptr] := mem[ptr + 1];
        assert mem[..] == k[ptr := k[ptr + 1]];
        ptr := ptr + 1;
      }
    }

    /** The cells from `lo` up to `hi` move one place to the right. */
    method Push(lo: nat, hi: nat)
      requires lo <= hi < mem.Length
      modifies mem
      ensures mem[..] == Shifted(old(mem[..]), lo + 1, hi + 1, -1)
    {
      ghost var m := mem[..];
      var last := hi;
      while last > lo
        invariant lo <= last <= hi && mem[..] == Shifted(m, last + 1, hi + 1, -1)
      {
        ghost var k := mem[..];
        assert k[last - 1] == m[last - 1];
        mem[last] := mem[last - 1];
        assert mem[..] == k[last := k[last - 1]];
        last := last - 1;
      }
    }

    method SetCell(i: nat, v: nat)
      requires i < mem.Length
      modifies mem
      ensures mem[..] == old(mem[..])[i := v]
    {
      mem[i] := v;
    }

    method RemoveChar()
      requires Valid()
      modifies mem
      ensures Valid() && Shown() == DeleteChar(old(Shown()))
    {
      hide Put, Shifted, Pulled, Pushed;
      if x >= WIDTH {
        Write(erase);
        return;
      }
      ghost var m := mem[..];
      var last := pos + (WIDTH - x - 1);
      Pull(pos, last);
      SetCell(last, erase);
      ViewPulled(m, screen, Cursor(State()), RowEnd(State()), erase);
    }

    method AddChar()
      requires Valid()
      modifies mem
      ensures Valid() && Shown() == InsertChar(old(Shown()))
    {
      hide Put, Shifted, Pulled, Pushed;
      if x >= WIDTH {
        Write(erase);
        return;
      }
      ghost var m := mem[..];
      Push(pos, pos + (WIDTH - x - 1));
      SetCell(pos, erase);
      ViewPushed(m, screen, Cursor(State()), RowEnd(State()), erase);
    }

    method AddLine()
      requires Valid()
      modifies mem
      ensures Valid() && Shown() == InsertLine(old(Shown()))
    {
      ghost var m := mem[..];
      var start := screen + y * WIDTH;
      var i := 2;
      var src: int := screen + CELLS - 2 * WIDTH;
      while src >= start
        invariant 2 <= i && src == screen + CELLS - i * WIDTH && src >= start - WIDTH
        invariant mem[..] == Shifted(m, src + 2 * WIDTH, screen + CELLS, UP_ROW)
        decreases src
      {
        ghost var k := mem[..];
        Copy(src + WIDTH, src, WIDTH);
        ShiftMore(m, k, src, screen + CELLS);
        i := i + 1;
        src := src - WIDTH;
      }
      AddedRow(screen, y, i, src);
      Erase(start, WIDTH);
      ViewLineAdded(m, screen, old(Shown()));
    }

    method RemoveLine()
      requires Valid()
      modifies mem
      ensures Valid() && Shown() == DeleteLine(old(Shown()))
    {
      hide DeleteLine, Shifted, MovedRows, Fill;
      ghost var m := mem[..];
      var start := screen + y * WIDTH;
      var i := 1;
      MovedNone(m, screen, y);
      while start + 2 * i * WIDTH < screen + CELLS
        invariant 1 <= i && mem[..] == MovedRows(m, screen, y, i)
      {
        ghost var k := mem[..];
        var src := start + 2 * i * WIDTH;
        Copy(src - WIDTH, src, WIDTH);
        MovedMore(m, screen, y, i);
        i := i + 1;
      }
      Erase(screen + CELLS - WIDTH, WIDTH);
      ViewLineRemoved(m, screen, old(Shown()), i);
    }

    /** insert_line, delete_line, insert_char or delete_char. */
    method EditOnce(e: Edit)
      requires Valid()
      modifies mem
      ensures Valid() && Shown() == Once(old(Shown()), e)
    {
      hide InsertLine, DeleteLine, InsertChar, DeleteChar;
      match e
      case Lines(insert) =>
        if insert { AddLine(); } else { RemoveLine(); }
      case Chars(insert) =>
        if insert { AddChar(); } else { RemoveChar(); }
    }

    /** csi_L, csi_M, csi_P and csi_at */
    method EditTimes(e: Edit)
      requires Valid()
      modifies mem
      ensures Valid() && Shown() == Times(old(Shown()), e, Count(old(State()), e))
    {
      hide Once;
      var nr: nat := args[0];
      match e {
        case Lines(_) =>
          if nr > HEIGHT { nr := HEIGHT; } else if nr == 0 { nr := 1; }
        case Chars(_) =>
          var max := WIDTH - x;
          if nr < 0x8000_0000 && nr > max { nr := max; } else if nr == 0 { nr := 1; }
      }
      while nr > 0
        invariant Valid() && Times(Shown(), e, nr) == Times(old(Shown()), e, Count(old(State()), e))
        decreases nr
      {
        EditOnce(e);
        nr := nr - 1;
      }
    }

    /** csi_J */
    method ClearDisplay()
      requires Valid()
      modifies mem
      ensures Valid() && Shown() == EraseDisplay(old(Shown()))
    {
      hide Fill;
      if args[0] == 0 {
        EraseCells(pos - screen, CELLS - (pos - screen));
      } else if args[0] == 1 {
        EraseCells(0, pos - screen);
      } else if args[0] == 2 {
        EraseCells(0, CELLS);
      }
    }

    /** csi_K */
    method ClearRow()
      requires Valid()
      modifies mem
      ensures Valid() && Shown() == EraseRow(old(Shown()))
    {
      hide Fill;
      if args[0] == 0 {
        EraseCells(pos - screen, WIDTH - x);
      } else if args[0] == 1 {
        EraseCells(pos - screen - x, x);
      } else if args[0] == 2 {
        EraseCells(pos - screen - x, WIDTH);
      }
    }

    /** csi_m */
    method ChangeStyle()
      requires Valid()
      modifies this`style, this`erase
      ensures Valid() && Shown() == SetStyle(old(Shown()))
    {
      style := Attributes.Combine(args[..argc]);
      erase := style * 256 + 0x20;
    }

    method CountFromOne(i: nat)
      requires Valid() && i < ARG_NR
      modifies this`args
      ensures Valid() && State() == FromOne(old(State()), i)
    {
      if args[i] > 0 {
        args := args[i := args[i] - 1];
      }
    }

    method AtLeast()
      requires Valid()
      modifies this`args
      ensures Valid() && State() == AtLeastOne(old(State()))
    {
      if args[0] == 0 {
        args := args[0 := 1];
      }
    }

    /** The sequences that go to a place. */
    method GoTo(ch: char)
      requires Valid() && ch in {'G', '`', 'd', 'H', 'f', 's', 'u'}
      modifies this`pos, this`x, this`y, this`args, this`savedX, this`savedY
      ensures Valid() && State() == Move(old(State()), ch)
    {
      hide FromOne, SetXY, AtLeastOne;
      if ch == 's' {
        savedX, savedY := x, y;
        return;
      }
      if ch == 'u' {
        MoveTo(savedX, savedY);
        return;
      }
      CountFromOne(0);
      if ch == 'd' {
        MoveTo(x, args[0]);
      } else if ch == 'H' || ch == 'f' {
        CountFromOne(1);
        MoveTo(args[1], args[0]);
      } else {
        MoveTo(args[0], y);
      }
    }

    /** The sequences that go some way. */
    method GoBy(ch: char)
      requires Valid() && ch in {'A', 'B', 'e', 'C', 'a', 'D', 'E', 'F'}
      modifies this`pos, this`x, this`y, this`args
      ensures Valid() && State() == Move(old(State()), ch)
    {
      hide FromOne, SetXY, AtLeastOne;
      AtLeast();
      var n := args[0];
      if ch == 'A' {
        MoveTo(x, Sub(y, n));
      } else if ch == 'B' || ch == 'e' {
        MoveTo(x, Add(y, n));
      } else if ch == 'C' || ch == 'a' {
        MoveTo(Add(x, n), y);
      } else if ch == 'D' {
        MoveTo(Sub(x, n), y);
      } else if ch == 'E' {
        MoveTo(0, Add(y, n));
      } else {
        MoveTo(0, Sub(y, n));
      }
    }

    /** state_csi */
    method CsiByte(ch: char)
      requires Valid()
      modifies this, mem
      ensures Valid() && Shown() == StateCsi(old(Shown()), ch)
    {
      hide EraseDisplay, EraseRow, Times, SetStyle, Move, Count;
      mode := Normal;
      ghost var t := Shown();
      assert t == old(Shown()).(ctl := old(State()).(mode := Normal));
      match ch
      case 'J' => ClearDisplay();
      case 'K' => ClearRow();
      case 'L' => EditTimes(Lines(true));
      case 'M' => EditTimes(Lines(false));
      case 'P' => EditTimes(Chars(false));
      case '@' => EditTimes(Chars(true));
      case 'm' => ChangeStyle();
      case _ => MoveByte(ch, t);
    }

    method MoveByte(ch: char, ghost t: Term)
      requires Valid() && t == Shown()
      modifies this`pos, this`x, this`y, this`args, this`savedX, this`savedY
      ensures Valid() && Shown() == t.(ctl := Move(t.ctl, ch))
    {
      if ch in {'G', '`', 'd', 'H', 'f', 's', 'u'} {
        GoTo(ch);
      } else if ch in {'A', 'B', 'e', 'C', 'a', 'D', 'E', 'F'} {
        GoBy(ch);
      }
    }

    /** state_normal */
    method NormalByte(ch: nat)
      requires Valid() && ch < 256
      modifies this`screen, this`pos, this`x, this`y, this`mode, mem
      ensures Valid() && Shown() == StateNormal(old(Shown()), ch)
    {
      hide Bs, Tab, Lf, Cr, Put, Chr;
      if ch == 0 || ch == 7 {
      } else if ch == 8 {
        Backspace();
      } else if ch == 9 {
        Tabulate();
      } else if ch == 10 {
        LineFeed();
        CarriageReturn();
      } else if ch == 11 || ch == 12 {
        LineFeed();
      } else if ch == 13 {
        CarriageReturn();
      } else if ch == 0x7F {
        Write(erase);
      } else if ch == 0x1B {
        mode := Esc;
      } else {
        Character(ch);
      }
    }

    /** state_esc */
    method EscByte(ch: char)
      requires Valid()
      modifies this`screen, this`pos, this`x, this`y, this`mode, this`savedX, this`savedY, mem
      ensures Valid() && Shown() == StateEsc(old(Shown()), ch)
    {
      hide Lf, Cr, SetXY;
      if ch == '[' {
        mode := Query;
      } else if ch == 'E' {
        LineFeed();
        CarriageReturn();
      } else if ch == 'D' {
        LineFeed();
      } else if ch == '7' {
        savedX, savedY := x, y;
      } else if ch == '8' {
        MoveTo(savedX, savedY);
      }
    }

    /** state_arg */
    method ArgByte(ch: char) returns (done: bool)
      requires Valid()
      modifies this`args, this`argc, this`mode
      ensures Valid() && (State(), done) == StateArg(old(State()), ch)
    {
      if argc >= ARG_NR {
        return false;
      }
      if ch == ';' {
        argc := argc + 1;
        return false;
      }
      if '0' <= ch <= '9' {
        args := args[argc := (args[argc] * 10 + (ch as int - '0' as int)) % WORD];
        return false;
      }
      argc := argc + 1;
      mode := Csi;
      done := true;
    }

    method ArgOrCsi(ch: char)
      requires Valid()
      modifies this, mem
      ensures Valid() && Shown() == ArgThenCsi(old(Shown()), ch)
    {
      hide StateArg, StateCsi;
      var done := ArgByte(ch);
      if done {
        CsiByte(ch);
      }
    }

    /** The switch of console_write. */
    method WriteByte(b: Byte)
      requires Valid()
      modifies this, mem
      ensures Valid() && Shown() == Step(old(Shown()), b)
    {
      hide StateNormal, StateEsc, StateArg, StateCsi, ArgThenCsi;
      var ch := b as char;
      match mode
      case Normal => NormalByte(b);
      case Esc => EscByte(ch);
      case Query =>
        args, argc, mode, ques := Zeros(), 0, Arg, ch == '?';
        if ch != '?' {
          ArgOrCsi(ch);
        }
      case Arg => ArgOrCsi(ch);
      case Csi => CsiByte(ch);
    }

    /** console_write; the count it returns is one more than the bytes it took. */
    method WriteAll(buf: seq<Byte>) returns (nr: nat)
      requires Valid()
      modifies this, mem
      ensures Valid() && Shown() == Run(old(Shown()), buf) && nr == |buf| + 1
    {
      hide Step;
      var i := 0;
      assert buf[0..] == buf;
      while i < |buf|
        invariant 0 <= i <= |buf| && Valid() && Run(Shown(), buf[i..]) == Run(old(Shown()), buf)
      {
        assert buf[i..][0] == buf[i] && buf[i..][1..] == buf[i + 1..];
        WriteByte(buf[i]);
        i := i + 1;
      }
      nr := i + 1;
    }
  }

  lemma ViewPulled(m: seq<nat>, screen: nat, at: nat, last: nat, blank: nat)
    requires screen + CELLS <= |m| && at <= last < CELLS
    ensures View(Shifted(m, screen + at, screen + last, 1)[screen + last := blank], screen)
            == Pulled(View(m, screen), at, last, blank)
  {
    var g, s := View(m, screen), Shifted(m, screen + at, screen + last, 1);
    var k, p := s[screen + last := blank], Pulled(g, at, last, blank);
    forall i | 0 <= i < CELLS
      ensures View(k, screen)[i] == p[i]
    {
      var c := screen + i;
      assert View(k, screen)[i] == k[c] && g[i] == m[c];
      assert s[c] == if screen + at <= c < screen + last then m[c + 1] else m[c];
      if at <= i < last {
        assert g[i + 1] == m[c + 1];
      }
    }
  }

  lemma ViewPushed(m: seq<nat>, screen: nat, at: nat, last: nat, blank: nat)
    requires screen + CELLS <= |m| && at <= last < CELLS
    ensures View(Shifted(m, screen + at + 1, screen + last + 1, -1)[screen + at := blank], screen)
            == Pushed(View(m, screen), at, last, blank)
  {
    var g, s := View(m, screen), Shifted(m, screen + at + 1, screen + last + 1, -1);
    var k, p := s[screen + at := blank], Pushed(g, at, last, blank);
    forall i | 0 <= i < CELLS
      ensures View(k, screen)[i] == p[i]
    {
      var c := screen + i;
      assert View(k, screen)[i] == k[c] && g[i] == m[c];
      assert s[c] == if screen + at + 1 <= c < screen + last + 1 then m[c - 1] else m[c];
      if at < i <= last {
        assert g[i - 1] == m[c - 1];
      }
    }
  }

  lemma AddedRow(screen: nat, y: nat, i: nat, src: int)
    requires y < HEIGHT && src == screen + CELLS - i * WIDTH && screen + y * WIDTH - WIDTH <= src < screen + y * WIDTH
    ensures src + 2 * WIDTH == screen + (y + 1) * WIDTH
  {
  }

  /** One more row moved down. */
  lemma ShiftMore(m: seq<nat>, k: seq<nat>, src: nat, end: nat)
    requires src + 2 * WIDTH <= end <= |m| && k == Shifted(m, src + 2 * WIDTH, end, UP_ROW)
    ensures Shifted(k, src + WIDTH, src + 2 * WIDTH, UP_ROW) == Shifted(m, src + WIDTH, end, UP_ROW)
  {
  }

  lemma ViewLineAdded(m: seq<nat>, screen: nat, t: Term)
    requires screen + CELLS <= |m| && Valid(t) && t.grid == View(m, screen)
    ensures var k := Shifted(m, screen + (t.ctl.y + 1) * WIDTH, screen + CELLS, UP_ROW);
            View(Fill(k, screen + t.ctl.y * WIDTH, WIDTH, t.ctl.erase), screen) == InsertLine(t).grid
  {
    var k := Shifted(m, screen + (t.ctl.y + 1) * WIDTH, screen + CELLS, UP_ROW);
    var v, g := View(Fill(k, screen + t.ctl.y * WIDTH, WIDTH, t.ctl.erase), screen), InsertLine(t).grid;
    forall i | 0 <= i < CELLS
      ensures v[i] == g[i]
    {
      assert v[i] == Fill(k, screen + t.ctl.y * WIDTH, WIDTH, t.ctl.erase)[screen + i];
      if i >= (t.ctl.y + 1) * WIDTH {
        assert k[screen + i] == m[screen + i + UP_ROW] == t.grid[i - WIDTH];
      } else if i < t.ctl.y * WIDTH {
        assert k[screen + i] == m[screen + i] == t.grid[i];
      }
    }
  }

  /** Where delete_line has cell `c` of the screen from after `i` passes. */
  function Moved(y: nat, i: nat, c: nat): (r: nat)
    requires c < CELLS
    ensures r < CELLS
  {
    var k := c / WIDTH;
    if k > y && (k - y) % 2 == 1 && k + 1 < y + 2 * i && k + 1 < HEIGHT then c + WIDTH else c
  }

  function MovedRows(m: seq<nat>, screen: nat, y: nat, i: nat): (r: seq<nat>)
    requires screen + CELLS <= |m|
    ensures |r| == |m|
    ensures forall c | 0 <= c < |m| ::
              r[c] == if screen <= c < screen + CELLS then m[screen + Moved(y, i, c - screen)] else m[c]
  {
    seq(|m|, c requires 0 <= c < |m| =>
          if screen <= c < screen + CELLS then m[screen + Moved(y, i, c - screen)] else m[c])
  }

  lemma MovedNone(m: seq<nat>, screen: nat, y: nat)
    requires screen + CELLS <= |m|
    ensures MovedRows(m, screen, y, 1) == m
  {
  }

  lemma MovedNext(y: nat, i: nat, c: nat)
    requires i >= 1 && c < CELLS && y + 2 * i < HEIGHT
    ensures (y + 2 * i - 1) * WIDTH <= c < (y + 2 * i) * WIDTH ==>
              c + WIDTH < CELLS && Moved(y, i + 1, c) == c + WIDTH && Moved(y, i, c + WIDTH) == c + WIDTH
    ensures !((y + 2 * i - 1) * WIDTH <= c < (y + 2 * i) * WIDTH) ==> Moved(y, i + 1, c) == Moved(y, i, c)
  {
  }

  lemma MovedCell(m: seq<nat>, screen: nat, y: nat, i: nat, c: nat)
    requires i >= 1 && screen + CELLS <= |m| && y + 2 * i < HEIGHT && c < CELLS
    ensures var dst, k := (y + 2 * i - 1) * WIDTH, MovedRows(m, screen, y, i);
            dst + 2 * WIDTH <= CELLS
            && MovedRows(m, screen, y, i + 1)[screen + c] ==
               if dst <= c < dst + WIDTH then k[screen + c + WIDTH] else k[screen + c]
  {
    hide Moved;
    MovedNext(y, i, c);
  }

  lemma MovedMore(m: seq<nat>, screen: nat, y: nat, i: nat)
    requires i >= 1 && screen + CELLS <= |m| && y + 2 * i < HEIGHT
    ensures var dst := screen + (y + 2 * i - 1) * WIDTH;
            Shifted(MovedRows(m, screen, y, i), dst, dst + WIDTH, WIDTH) == MovedRows(m, screen, y, i + 1)
  {
    hide Moved;
    var dst, k := screen + (y + 2 * i - 1) * WIDTH, MovedRows(m, screen, y, i);
    var r, n := Shifted(k, dst, dst + WIDTH, WIDTH), MovedRows(m, screen, y, i + 1);
    forall c | 0 <= c < |m|
      ensures r[c] == n[c]
    {
      if screen <= c < screen + CELLS {
        MovedCell(m, screen, y, i, c - screen);
      }
    }
  }

  lemma ViewLineRemoved(m: seq<nat>, screen: nat, t: Term, i: nat)
    requires screen + CELLS <= |m| && Valid(t) && t.grid == View(m, screen) && t.ctl.y + 2 * i >= HEIGHT
    ensures View(Fill(MovedRows(m, screen, t.ctl.y, i), screen + CELLS - WIDTH, WIDTH, t.ctl.erase), screen)
            == DeleteLine(t).grid
  {
    hide Moved;
    var k := MovedRows(m, screen, t.ctl.y, i);
    var v, g := View(Fill(k, screen + CELLS - WIDTH, WIDTH, t.ctl.erase), screen), DeleteLine(t).grid;
    forall j | 0 <= j < CELLS
      ensures v[j] == g[j]
    {
      if j < CELLS - WIDTH {
        MovedSource(t.ctl.y, i, j);
      }
    }
  }

  lemma MovedSource(y: nat, i: nat, j: nat)
    requires j < CELLS - WIDTH && y + 2 * i >= HEIGHT
    ensures Moved(y, i, j) == DeleteSource(y, j / WIDTH) * WIDTH + j % WIDTH
  {
  }
}
