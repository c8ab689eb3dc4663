/**
 * The pipe between one reading and one writing task (src/kernel/fs/pipe/pipe.c).
 *
 * A step is one pass of the loop of pipe_read or pipe_write, so the runs below
 * contain every interleaving of the two tasks.
 */
module PipeProtocol {
  import opened Prelude
  import opened Fifo

  /** PAGE_SIZE; the ring keeps one of its cells free. */
  const SIZE: nat := 4096
  const CAPACITY: nat := SIZE - 1

  /** Where a task is in its call; `todo` is what the call has not moved yet. */
  datatype Side<T> = Idle | Running(todo: T) | Asleep(todo: T) | Woken(todo: T)

  /** `asked` and `offered` collect what all the calls so far wanted to move. */
  datatype Pipe = Pipe(
    buf: seq<bv8>,
    reader: Side<nat>,
    writer: Side<seq<bv8>>,
    rxWaiter: bool,
    txWaiter: bool,
    got: seq<bv8>,
    sent: seq<bv8>,
    asked: nat,
    offered: seq<bv8>)

  datatype Event = ReadCall(count: nat) | WriteCall(data: seq<bv8>) | ReadStep | WriteStep

  function Open(): Pipe {
    Pipe([], Idle, Idle, false, false, [], [], 0, [])
  }

  predicate CanRun<T>(side: Side<T>) {
    side.Running? || side.Woken?
  }

  predicate Enabled(s: Pipe, e: Event) {
    match e
    case ReadCall(_) => s.reader.Idle?
    case WriteCall(_) => s.writer.Idle?
    case ReadStep => CanRun(s.reader)
    case WriteStep => CanRun(s.writer)
  }

  function Wake<T>(side: Side<T>, waiting: bool): Side<T> {
    if waiting && side.Asleep? then Woken(side.todo) else side
  }

  /** The second half of the reading loop; None is a failed assertion. */
  function TakeByte(s: Pipe, left: nat): Option<Pipe>
    requires left > 0
  {
    if s.buf == [] then None
    else Some(s.(buf := s.buf[1..], got := s.got + [s.buf[0]], reader := Running(left - 1),
                 writer := Wake(s.writer, s.txWaiter), txWaiter := false))
  }

  function ReadPass(s: Pipe): Option<Pipe>
    requires CanRun(s.reader)
  {
    var left := s.reader.todo;
    if left == 0 then Some(s.(reader := Idle))
    else if s.reader.Running? && s.buf == [] then
      if s.rxWaiter then None else Some(s.(rxWaiter := true, reader := Asleep(left)))
    else TakeByte(s, left)
  }

  /** fifo_put on a full ring drops the oldest byte. */
  function PutByte(s: Pipe, rest: seq<bv8>): Option<Pipe>
    requires rest != []
  {
    var room := if |s.buf| >= CAPACITY then s.buf[|s.buf| - CAPACITY + 1..] else s.buf;
    Some(s.(buf := room + [rest[0]], sent := s.sent + [rest[0]], writer := Running(rest[1..]),
            reader := Wake(s.reader, s.rxWaiter), rxWaiter := false))
  }

  function WritePass(s: Pipe): Option<Pipe>
    requires CanRun(s.writer)
  {
    var rest := s.writer.todo;
    if rest == [] then Some(s.(writer := Idle))
    else if s.writer.Running? && |s.buf| == CAPACITY then
      if s.txWaiter then None else Some(s.(txWaiter := true, writer := Asleep(rest)))
    else PutByte(s, rest)
  }

  function Step(s: Pipe, e: Event): Option<Pipe>
    requires Enabled(s, e)
  {
    match e
    case ReadCall(count) => Some(s.(reader := Running(count), asked := s.asked + count))
    case WriteCall(data) => Some(s.(writer := Running(data), offered := s.offered + data))
    case ReadStep => ReadPass(s)
    case WriteStep => WritePass(s)
  }

  function Left(side: Side<nat>): nat {
    if side.Idle? then 0 else side.todo
  }

  function Rest(side: Side<seq<bv8>>): seq<bv8> {
    if side.Idle? then [] else side.todo
  }

  predicate Inv(s: Pipe) {
    && |s.buf| <= CAPACITY
    && s.sent == s.got + s.buf
    && s.asked == |s.got| + Left(s.reader)
    && s.offered == s.sent + Rest(s.writer)
    && (s.rxWaiter <==> s.reader.Asleep?)
    && (s.txWaiter <==> s.writer.Asleep?)
    && (s.reader.Asleep? ==> s.buf == [] && s.reader.todo > 0)
    && (s.writer.Asleep? ==> |s.buf| == CAPACITY && s.writer.todo != [])
    && (s.reader.Woken? ==> s.buf != [] && s.reader.todo > 0)
    && (s.writer.Woken? ==> |s.buf| < CAPACITY && s.writer.todo != [])
  }

  /** No pass fails an assertion of the code, and none loses or reorders a byte. */
  lemma StepInv(s: Pipe, e: Event)
    requires Inv(s) && Enabled(s, e)
    ensures Step(s, e).Some? && Inv(Step(s, e).value)
    ensures s.got <= Step(s, e).value.got && s.offered <= Step(s, e).value.offered
  {
    match e
    case ReadCall(count) =>
    case WriteCall(data) =>
      assert s.offered == s.sent;
    case ReadStep =>
      if s.reader.todo > 0 && s.buf != [] {
        assert s.buf == [s.buf[0]] + s.buf[1..];
        assert s.got + s.buf == (s.got + [s.buf[0]]) + s.buf[1..];
      }
    case WriteStep =>
      var rest := s.writer.todo;
      if rest != [] && |s.buf| < CAPACITY {
        assert rest == [rest[0]] + rest[1..];
        assert s.sent + rest == (s.sent + [rest[0]]) + rest[1..];
        assert s.sent + [rest[0]] == s.got + (s.buf + [rest[0]]);
      }
  }

  /** Runs the events that are enabled when their turn comes; the others do nothing. */
  function Run(s: Pipe, es: seq<Event>): Option<Pipe>
    decreases |es|
  {
    if es == [] then Some(s)
    else if !Enabled(s, es[0]) then Run(s, es[1..])
    else match Step(s, es[0])
      case None => None
      case Some(s1) => Run(s1, es[1..])
  }

  lemma {:induction false} RunInv(s: Pipe, es: seq<Event>)
    requires Inv(s)
    ensures Run(s, es).Some? && Inv(Run(s, es).value)
    decreases |es|
  {
    if es != [] {
      if Enabled(s, es[0]) {
        StepInv(s, es[0]);
        RunInv(Step(s, es[0]).value, es[1..]);
      } else {
        RunInv(s, es[1..]);
      }
    }
  }

  /**
   * In every interleaving the reader has received exactly the first bytes that
   * were written, in order, and the two tasks never sleep at the same time.
   */
  lemma PrefixDelivered(es: seq<Event>)
    ensures Run(Open(), es).Some?
    ensures var s := Run(Open(), es).value;
            && s.got <= s.offered
            && |s.sent| - |s.got| <= 4095
            && !(s.reader.Asleep? && s.writer.Asleep?)
  {
    RunInv(Open(), es);
    var s := Run(Open(), es).value;
    assert s.offered == s.got + (s.buf + Rest(s.writer));
  }

  // Progress.

  predicate Stuck(s: Pipe) {
    !CanRun(s.reader) && !CanRun(s.writer)
  }

  function Weight<T>(side: Side<T>): nat {
    match side
    case Idle => 0
    case Asleep(_) => 1
    case Running(_) => 2
    case Woken(_) => 1
  }

  function Work(s: Pipe): nat {
    3 * (Left(s.reader) + |Rest(s.writer)|) + Weight(s.reader) + Weight(s.writer)
  }

  /** Between calls, the passes of the two tasks come to an end. */
  lemma PassesEnd(s: Pipe, e: Event)
    requires Inv(s) && (e.ReadStep? || e.WriteStep?) && Enabled(s, e)
    ensures Step(s, e).Some? && Work(Step(s, e).value) < Work(s)
  {
    StepInv(s, e);
  }

  /** Each of the events is a pass that its task can make when its turn comes. */
  ghost predicate Passes(s: Pipe, es: seq<Event>)
    requires Inv(s)
    decreases |es|
  {
    es == []
    || (&& (es[0].ReadStep? || es[0].WriteStep?)
        && Enabled(s, es[0])
        && (StepInv(s, es[0]); Passes(Step(s, es[0]).value, es[1..])))
  }

  lemma {:induction false} PassesBounded(s: Pipe, es: seq<Event>)
    requires Inv(s) && Passes(s, es)
    ensures |es| <= Work(s)
    decreases |es|
  {
    if es != [] {
      StepInv(s, es[0]);
      PassesEnd(s, es[0]);
      PassesBounded(Step(s, es[0]).value, es[1..]);
    }
  }

  /**
   * When neither task can go on, everything asked for that was also offered has
   * arrived: a read is still waiting only for bytes nobody has written, and a
   * write only for room that only a further read can make.
   */
  lemma StuckIsServed(es: seq<Event>)
    requires Run(Open(), es).Some? && Stuck(Run(Open(), es).value)
    ensures var s := Run(Open(), es).value;
            && s.got <= s.offered
            && (s.reader.Idle? <==> s.asked <= |s.offered|)
            && (s.reader.Idle? ==> |s.got| == s.asked)
            && (s.reader.Asleep? ==> s.got == s.offered)
            && (s.writer.Idle? <==> |s.offered| <= |s.got| + 4095)
  {
    RunInv(Open(), es);
    var s := Run(Open(), es).value;
    assert s.offered == s.got + (s.buf + Rest(s.writer));
  }

  // The loops as they run: until the call is done or its task goes to sleep.

  function Repeat(e: Event, n: nat): seq<Event> {
    seq(n, i => e)
  }

  function ReadOn(s: Pipe): (r: Pipe)
    requires CanRun(s.reader)
  {
    var n := s.reader.todo;
    var k := Min(n, |s.buf|);
    s.(buf := s.buf[k..],
       got := s.got + s.buf[..k],
       reader := if k < n then Asleep(n - k) else Idle,
       rxWaiter := s.rxWaiter || k < n,
       writer := if k > 0 then Wake(s.writer, s.txWaiter) else s.writer,
       txWaiter := s.txWaiter && k == 0)
  }

  function WriteOn(s: Pipe): (r: Pipe)
    requires CanRun(s.writer) && |s.buf| <= CAPACITY
  {
    var rest := s.writer.todo;
    var k := Min(|rest|, CAPACITY - |s.buf|);
    s.(buf := s.buf + rest[..k],
       sent := s.sent + rest[..k],
       writer := if k < |rest| then Asleep(rest[k..]) else Idle,
       txWaiter := s.txWaiter || k < |rest|,
       reader := if k > 0 then Wake(s.reader, s.rxWaiter) else s.reader,
       rxWaiter := s.rxWaiter && k == 0)
  }

  lemma ReadOnPass(s: Pipe)
    requires Inv(s) && CanRun(s.reader)
    ensures Step(s, ReadStep).Some?
    ensures var s1 := Step(s, ReadStep).value;
            if s.reader.todo > 0 && s.buf != []
            then s1.reader == Running(s.reader.todo - 1) && s1.buf == s.buf[1..] && ReadOn(s1) == ReadOn(s)
            else s1 == ReadOn(s)
  {
    var k := Min(s.reader.todo, |s.buf|);
    if k > 0 {
      var s1 := Step(s, ReadStep).value;
      assert s.buf[..k] == [s.buf[0]] + s.buf[1..][..k - 1];
      assert s1.got + s1.buf[..k - 1] == s.got + s.buf[..k];
      assert s1.buf[k - 1..] == s.buf[k..];
    } else {
      assert s.got + s.buf[..0] == s.got;
    }
  }

  lemma WriteOnPass(s: Pipe)
    requires Inv(s) && CanRun(s.writer)
    ensures Step(s, WriteStep).Some?
    ensures var s1 := Step(s, WriteStep).value;
            if s.writer.todo != [] && |s.buf| < CAPACITY
            then s1.writer == Running(s.writer.todo[1..]) && |s1.buf| == |s.buf| + 1 && WriteOn(s1) == WriteOn(s)
            else s1 == WriteOn(s)
  {
    var rest, k := s.writer.todo, Min(|s.writer.todo|, CAPACITY - |s.buf|);
    if k > 0 {
      var s1 := Step(s, WriteStep).value;
      assert rest[..k] == [rest[0]] + rest[1..][..k - 1];
      assert s1.buf + rest[1..][..k - 1] == s.buf + rest[..k];
      assert s1.sent + rest[1..][..k - 1] == s.sent + rest[..k];
      assert rest[1..][k - 1..] == rest[k..];
    } else {
      assert s.buf + rest[..0] == s.buf && s.sent + rest[..0] == s.sent;
    }
  }

  /** The uninterrupted loop of a read is a run of passes. */
  lemma {:induction false} ReadOnIsRun(s: Pipe)
    requires Inv(s) && CanRun(s.reader)
    ensures Run(s, Repeat(ReadStep, Min(s.reader.todo, |s.buf|) + 1)) == Some(ReadOn(s))
    decreases s.reader.todo
  {
    hide Inv, Step, ReadOn;
    var es := Repeat(ReadStep, Min(s.reader.todo, |s.buf|) + 1);
    assert es[1..] == Repeat(ReadStep, |es| - 1);
    StepInv(s, ReadStep);
    ReadOnPass(s);
    if |es| > 1 {
      ReadOnIsRun(Step(s, ReadStep).value);
    } else {
      assert Run(Step(s, ReadStep).value, []) == Step(s, ReadStep);
    }
  }

  lemma {:induction false} WriteOnIsRun(s: Pipe)
    requires Inv(s) && CanRun(s.writer) && |s.buf| <= CAPACITY
    ensures Run(s, Repeat(WriteStep, Min(|s.writer.todo|, CAPACITY - |s.buf|) + 1)) == Some(WriteOn(s))
    decreases |s.writer.todo|
  {
    hide Inv, Step, WriteOn;
    var es := Repeat(WriteStep, Min(|s.writer.todo|, CAPACITY - |s.buf|) + 1);
    assert es[1..] == Repeat(WriteStep, |es| - 1);
    StepInv(s, WriteStep);
    WriteOnPass(s);
    if |es| > 1 {
      WriteOnIsRun(Step(s, WriteStep).value);
    } else {
      assert Run(Step(s, WriteStep).value, []) == Step(s, WriteStep);
    }
  }

  class PipeInode {
    const fifo: Ringbuffer
    var rxWaiter: bool
    var txWaiter: bool

    ghost predicate Valid()
      reads this, fifo
    {
      fifo.Valid() && fifo.buf.Length == SIZE
    }

    /** This inode holds the shared part of `s`. */
    ghost predicate Holds(s: Pipe)
      requires Valid()
      reads this, fifo, fifo.buf
    {
      fifo.Contents() == s.buf && rxWaiter == s.rxWaiter && txWaiter == s.txWaiter
    }

    /** pipe_open */
    constructor ()
      ensures Valid() && Holds(Open()) && fresh(fifo) && fresh(fifo.buf)
    {
      fifo := new Ringbuffer(SIZE);
      rxWaiter, txWaiter := false, false;
    }

    /** pipe_read up to where it returns or blocks; `woken` when it goes on after blocking. */
    method Read(count: nat, woken: bool, ghost s: Pipe) returns (data: seq<bv8>, asleep: bool)
      requires Valid() && Inv(s) && Holds(s)
      requires s.reader == if woken then Woken(count) else Running(count)
      modifies this, fifo`tail
      ensures Valid() && Holds(ReadOn(s))
      ensures s.got + data == ReadOn(s).got
      ensures asleep <==> ReadOn(s).reader.Asleep?
      ensures asleep ==> ReadOn(s).reader.todo == count - |data|
    {
      hide Ring, Next;
      data := [];
      asleep := false;
      var resumed := woken;
      while |data| < count
        invariant Valid() && |data| <= count && |data| <= |s.buf|
        invariant data == s.buf[..|data|] && fifo.Contents() == s.buf[|data|..]
        invariant rxWaiter == s.rxWaiter && txWaiter == (s.txWaiter && data == [])
        invariant resumed ==> data == [] && s.buf != []
      {
        var empty := fifo.Empty();
        if !resumed && empty {
          assert !rxWaiter;
          rxWaiter := true;
          asleep := true;
          return;
        }
        resumed := false;
        var byte := fifo.Get();
        assert s.buf[|data|..] == [byte] + s.buf[|data| + 1..];
        data := data + [byte];
        if txWaiter {
          txWaiter := false;
        }
      }
    }

    /** pipe_write up to where it returns or blocks. */
    method Write(data: seq<bv8>, woken: bool, ghost s: Pipe) returns (nr: nat, asleep: bool)
      requires Valid() && Inv(s) && Holds(s)
      requires s.writer == if woken then Woken(data) else Running(data)
      modifies this, fifo`head, fifo`tail, fifo.buf
      ensures Valid() && Holds(WriteOn(s))
      ensures nr <= |data| && s.sent + data[..nr] == WriteOn(s).sent
      ensures asleep <==> WriteOn(s).writer.Asleep?
      ensures asleep ==> WriteOn(s).writer.todo == data[nr..]
    {
      hide Ring, Next;
      nr := 0;
      asleep := false;
      var resumed := woken;
      while nr < |data|
        invariant Valid() && nr <= |data| && |s.buf| + nr <= CAPACITY
        invariant fifo.Contents() == s.buf + data[..nr]
        invariant txWaiter == s.txWaiter && rxWaiter == (s.rxWaiter && nr == 0)
        invariant resumed ==> nr == 0 && |s.buf| < CAPACITY
      {
        var full := fifo.Full();
        if !resumed && full {
          assert !txWaiter;
          txWaiter := true;
          asleep := true;
          return;
        }
        resumed := false;
        fifo.Put(data[nr]);
        assert data[..nr + 1] == data[..nr] + [data[nr]];
        nr := nr + 1;
        if rxWaiter {
          rxWaiter := false;
        }
      }
      assert data[..nr] == data;
    }
  }
}
