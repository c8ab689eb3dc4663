/**
 * The request queue of a block device (src/kernel/driver/device.c) and the sorted
 * insertion of src/include/xjos/list.h.  Any number of tasks call device_request;
 * a task gives up the processor only while it waits for its turn and while the
 * driver works, so the stretches in between are the steps.
 */
module Elevator {
  import opened Prelude

  type U32 = x: int | 0 <= x < 0x1_0000_0000

  /** The list reads its keys as int. */
  function Key(offset: U32): int {
    if offset < 0x8000_0000 then offset else offset - 0x1_0000_0000
  }

  /** Blocked before its turn, Ready once it was woken, Busy inside do_request. */
  datatype Phase = Blocked | Ready | Busy

  /** `hasTask`: the request names the task to wake. */
  datatype Req = Req(id: nat, offset: U32, hasTask: bool, phase: Phase)

  datatype Device = Device(queue: seq<Req>, up: bool)

  predicate Sorted(q: seq<Req>) {
    forall i, j | 0 <= i < j < |q| :: Key(q[i].offset) <= Key(q[j].offset)
  }

  predicate Distinct(q: seq<Req>) {
    forall i, j | 0 <= i < j < |q| :: q[i].id != q[j].id
  }

  /** The request at `a` has its turn and all the others wait. */
  predicate Sole(q: seq<Req>, a: int) {
    && 0 <= a < |q| && !q[a].phase.Blocked?
    && (forall i | 0 <= i < |q| && i != a :: q[i].phase.Blocked? && q[i].hasTask)
  }

  ghost predicate Inv(s: Device) {
    && Sorted(s.queue) && Distinct(s.queue)
    && (s.queue != [] ==> exists a :: Sole(s.queue, a))
  }

  /** The place of list_insert_sort: behind every key that is not greater. */
  function Place(q: seq<Req>, key: int): (p: nat)
    ensures p <= |q|
    ensures forall i | 0 <= i < p :: Key(q[i].offset) <= key
    ensures p < |q| ==> Key(q[p].offset) > key
  {
    if q == [] || Key(q[0].offset) > key then 0 else 1 + Place(q[1..], key)
  }

  function Insert(q: seq<Req>, r: Req): seq<Req> {
    var p := Place(q, Key(r.offset));
    q[..p] + [r] + q[p..]
  }

  function Submit(s: Device, id: nat, offset: U32): Device {
    var r := if s.queue == [] then Req(id, offset, false, Busy) else Req(id, offset, true, Blocked);
    s.(queue := Insert(s.queue, r))
  }

  function Start(s: Device, i: nat): Device
    requires i < |s.queue|
  {
    s.(queue := s.queue[i := s.queue[i].(phase := Busy)])
  }

  /** The direction request_nextreq leaves behind. */
  function Turn(s: Device, i: nat): bool {
    if s.up && i + 1 == |s.queue| then false
    else if !s.up && i == 0 then true
    else s.up
  }

  function NextReq(s: Device, i: nat): (r: Option<nat>)
    requires i < |s.queue|
    ensures r.Some? ==> r.value < |s.queue| && r.value != i
  {
    if Turn(s, i) then (if i + 1 == |s.queue| then None else Some(i + 1))
    else (if i == 0 then None else Some(i - 1))
  }

  function Without(q: seq<Req>, i: nat): (r: seq<Req>)
    requires i < |q|
  {
    q[..i] + q[i + 1..]
  }

  /** What follows do_request; None when the next request has no task to wake. */
  function Finish(s: Device, i: nat): Option<Device>
    requires i < |s.queue|
  {
    var q := Without(s.queue, i);
    match NextReq(s, i)
    case None => Some(Device(q, Turn(s, i)))
    case Some(j) =>
      var k := if j < i then j else j - 1;
      if s.queue[j].hasTask then Some(Device(q[k := q[k].(phase := Ready)], Turn(s, i))) else None
  }

  datatype Event = Request(id: nat, offset: U32) | Begin(id: nat) | End(id: nat)

  function Find(q: seq<Req>, id: nat): (p: nat)
    ensures p <= |q|
    ensures forall i | 0 <= i < p :: q[i].id != id
    ensures p < |q| ==> q[p].id == id
  {
    if q == [] || q[0].id == id then 0 else 1 + Find(q[1..], id)
  }

  predicate Enabled(s: Device, e: Event) {
    var p := Find(s.queue, e.id);
    match e
    case Request(_, _) => p == |s.queue|
    case Begin(_) => p < |s.queue| && s.queue[p].phase.Ready?
    case End(_) => p < |s.queue| && s.queue[p].phase.Busy?
  }

  function Step(s: Device, e: Event): Option<Device>
    requires Enabled(s, e)
  {
    match e
    case Request(id, offset) => Some(Submit(s, id, offset))
    case Begin(id) => Some(Start(s, Find(s.queue, id)))
    case End(id) => Finish(s, Find(s.queue, id))
  }

  lemma InsertSorted(q: seq<Req>, r: Req)
    requires Sorted(q)
    ensures Sorted(Insert(q, r))
  {
    var p := Place(q, Key(r.offset));
    forall i | p <= i < |q|
      ensures Key(q[i].offset) > Key(r.offset)
    {
      assert Key(q[p].offset) <= Key(q[i].offset);
    }
  }

  lemma InsertDistinct(q: seq<Req>, r: Req)
    requires Distinct(q) && forall i | 0 <= i < |q| :: q[i].id != r.id
    ensures Distinct(Insert(q, r))
  {
  }

  lemma InsertSole(q: seq<Req>, r: Req, a: int)
    requires Sole(q, a) && r.phase.Blocked? && r.hasTask
    ensures Sole(Insert(q, r), if a < Place(q, Key(r.offset)) then a else a + 1)
  {
  }

  lemma WithoutKeeps(q: seq<Req>, i: nat)
    requires i < |q| && Sorted(q) && Distinct(q)
    ensures Sorted(Without(q, i)) && Distinct(Without(q, i))
  {
  }

  lemma FinishSole(s: Device, a: nat)
    requires Sole(s.queue, a)
    ensures Finish(s, a).Some?
    ensures NextReq(s, a).None? <==> |s.queue| == 1
    ensures |s.queue| > 1 ==>
              var j := NextReq(s, a).value;
              Sole(Finish(s, a).value.queue, if j < a then j else j - 1)
  {
  }

  lemma FinishInv(s: Device, a: nat)
    requires Inv(s) && Sole(s.queue, a) && a < |s.queue|
    ensures Finish(s, a).Some? && Inv(Finish(s, a).value)
  {
    hide Turn, Sole;
    FinishSole(s, a);
    WithoutKeeps(s.queue, a);
  }

  /**
   * No step wakes a request without a task.  The queue stays sorted, and in a
   * queue with requests exactly one is in service or has just been woken.
   */
  lemma StepInv(s: Device, e: Event)
    requires Inv(s) && Enabled(s, e)
    ensures Step(s, e).Some? && Inv(Step(s, e).value)
  {
    var p := Find(s.queue, e.id);
    match e
    case Request(id, offset) =>
      var r := if s.queue == [] then Req(id, offset, false, Busy) else Req(id, offset, true, Blocked);
      InsertSorted(s.queue, r);
      InsertDistinct(s.queue, r);
      if s.queue == [] {
        assert Sole(Insert(s.queue, r), 0);
      } else {
        var a :| Sole(s.queue, a);
        InsertSole(s.queue, r, a);
      }
    case Begin(_) =>
      assert Sole(Start(s, p).queue, p);
    case End(_) =>
      assert Sole(s.queue, p);
      FinishInv(s, p);
  }

  function Run(s: Device, es: seq<Event>): Option<Device>
    decreases |es|
  {
    if es == [] then Some(s)
    else if !Enabled(s, es[0]) then Run(s, es[1..])
    else match Step(s, es[0])
      case None => None
      case Some(s1) => Run(s1, es[1..])
  }

  lemma {:induction false} RunInv(s: Device, es: seq<Event>)
    requires Inv(s)
    ensures Run(s, es).Some? && Inv(Run(s, es).value)
    decreases |es|
  {
    if es != [] {
      if Enabled(s, es[0]) {
        StepInv(s, es[0]);
        RunInv(Step(s, es[0]).value, es[1..]);
      } else {
        RunInv(s, es[1..]);
      }
    }
  }

  /** A queue with requests always has a task that can go on with one of them. */
  lemma NeverStuck(es: seq<Event>) returns (e: Event)
    requires Run(Device([], true), es).Some? && Run(Device([], true), es).value.queue != []
    ensures !e.Request? && Enabled(Run(Device([], true), es).value, e)
  {
    var s := Run(Device([], true), es).value;
    RunInv(Device([], true), es);
    var a :| Sole(s.queue, a);
    e := if s.queue[a].phase.Ready? then Begin(s.queue[a].id) else End(s.queue[a].id);
    assert Find(s.queue, e.id) == a;
  }

  // The order of service.

  /** Whether the arm is still to come by `j` in its present direction. */
  predicate Ahead(s: Device, a: int, j: int) {
    if s.up then a < j else j < a
  }

  /**
   * The next request is the nearest one in the direction of travel, so the keys
   * served in a row rise while going up and fall while going down, and the arm
   * turns only when nothing is left in front of it.
   */
  lemma NearestNext(s: Device, a: nat)
    requires Inv(s) && Sole(s.queue, a) && |s.queue| > 1
    ensures var q, up, j := s.queue, Turn(s, a), NextReq(s, a).value;
            && (up ==> Key(q[a].offset) <= Key(q[j].offset))
            && (!up ==> Key(q[j].offset) <= Key(q[a].offset))
            && (forall i | 0 <= i < |q| && i != a && Ahead(s.(up := up), a, i) ::
                 if up then Key(q[j].offset) <= Key(q[i].offset) else Key(q[i].offset) <= Key(q[j].offset))
            && (s.up && !up ==> forall i | 0 <= i < |q| :: Key(q[i].offset) <= Key(q[a].offset))
            && (!s.up && up ==> forall i | 0 <= i < |q| :: Key(q[a].offset) <= Key(q[i].offset))
  {
  }

  // Keys and sectors.

  /** The key is the sector number as a 32-bit int. */
  lemma KeyIsInt(offset: U32)
    ensures -0x8000_0000 <= Key(offset) < 0x8000_0000
    ensures Key(offset) == offset || Key(offset) == offset - 0x1_0000_0000
  {
  }

  predicate InSectorOrder(q: seq<Req>) {
    forall i, j | 0 <= i < j < |q| :: q[i].offset <= q[j].offset
  }

  /** All sectors lie below 2^31, or none does. */
  predicate OneSide(q: seq<Req>) {
    forall i, j | 0 <= i < j < |q| :: q[i].offset < 0x8000_0000 <==> q[j].offset < 0x8000_0000
  }

  /** The list is in the order of the sectors exactly when they lie on one side of 2^31. */
  lemma SectorOrderExactly(q: seq<Req>)
    requires Sorted(q)
    ensures InSectorOrder(q) <==> OneSide(q)
  {
    forall i, j | 0 <= i < j < |q|
      ensures q[i].offset <= q[j].offset <==> (q[i].offset < 0x8000_0000 <==> q[j].offset < 0x8000_0000)
    {
      KeyIsInt(q[i].offset);
      KeyIsInt(q[j].offset);
      assert Key(q[i].offset) <= Key(q[j].offset);
    }
  }

  /** A request for sector 2^31 comes before one for sector 0. */
  lemma FarSectorFirst(id: nat, other: nat)
    requires id != other
    ensures var s := Submit(Submit(Device([], true), id, 0), other, 0x8000_0000);
            Inv(s) && s.queue[0].id == other && !InSectorOrder(s.queue)
  {
    var s := Submit(Submit(Device([], true), id, 0), other, 0x8000_0000);
    assert s.queue[0].offset == 0x8000_0000 && s.queue[1].offset == 0;
    assert Sole(s.queue, 1);
  }

  predicate Waits(s: Device, id: nat) {
    var p := Find(s.queue, id);
    p < |s.queue| && s.queue[p].phase.Blocked?
  }

  /** The request waits before and after each of the events. */
  predicate WaitsThrough(s: Device, es: seq<Event>, id: nat)
    decreases |es|
  {
    && Waits(s, id)
    && (es != [] ==>
          if Enabled(s, es[0])
          then Step(s, es[0]).Some? && WaitsThrough(Step(s, es[0]).value, es[1..], id)
          else WaitsThrough(s, es[1..], id))
  }

  function Reversals(s: Device, es: seq<Event>): nat
    decreases |es|
  {
    if es == [] then 0
    else if !Enabled(s, es[0]) then Reversals(s, es[1..])
    else match Step(s, es[0])
      case None => 0
      case Some(s1) => (if s1.up == s.up then 0 else 1) + Reversals(s1, es[1..])
  }

  lemma FoundAt(q: seq<Req>, id: nat, i: nat)
    requires Distinct(q) && i < |q| && q[i].id == id
    ensures Find(q, id) == i
  {
  }

  lemma InsertAhead(s: Device, id: nat, offset: U32, a: nat, w: nat) returns (b: nat, v: nat)
    requires Inv(s) && Sole(s.queue, a) && w < |s.queue| && s.queue[w].phase.Blocked?
    requires Find(s.queue, id) == |s.queue|
    ensures var s1 := Submit(s, id, offset);
            && Sole(s1.queue, b) && v < |s1.queue| && s1.queue[v] == s.queue[w]
            && s1.up == s.up && (Ahead(s1, b, v) <==> Ahead(s, a, w))
  {
    var r := Req(id, offset, true, Blocked);
    var p := Place(s.queue, Key(offset));
    InsertSole(s.queue, r, a);
    b := if a < p then a else a + 1;
    v := if w < p then w else w + 1;
  }

  lemma FinishAhead(s: Device, a: nat, w: nat) returns (b: nat, v: nat)
    requires Inv(s) && Sole(s.queue, a) && w < |s.queue| && s.queue[w].phase.Blocked?
    requires NextReq(s, a) != Some(w)
    ensures Finish(s, a).Some?
    ensures var s1 := Finish(s, a).value;
            && Sole(s1.queue, b) && v < |s1.queue| && s1.queue[v] == s.queue[w]
            && (Ahead(s, a, w) ==> s1.up == s.up && Ahead(s1, b, v))
            && (s1.up != s.up ==> Ahead(s1, b, v))
  {
    FinishSole(s, a);
    var j := NextReq(s, a).value;
    b := if j < a then j else j - 1;
    v := if w < a then w else w - 1;
  }

  lemma NextWoken(s: Device, a: nat, w: nat)
    requires Inv(s) && Sole(s.queue, a) && a < |s.queue| && NextReq(s, a) == Some(w)
    ensures Finish(s, a).Some? && !Waits(Finish(s, a).value, s.queue[w].id)
  {
    FinishInv(s, a);
    FoundAt(Finish(s, a).value.queue, s.queue[w].id, if w < a then w else w - 1);
  }

  lemma StepAhead(s: Device, e: Event, id: nat, a: nat) returns (b: nat)
    requires Inv(s) && Enabled(s, e) && Step(s, e).Some?
    requires Waits(s, id) && Waits(Step(s, e).value, id) && Sole(s.queue, a)
    ensures var s1 := Step(s, e).value; var w, v := Find(s.queue, id), Find(s1.queue, id);
            && Sole(s1.queue, b)
            && (Ahead(s, a, w) ==> s1.up == s.up && Ahead(s1, b, v))
            && (s1.up != s.up ==> Ahead(s1, b, v))
  {
    StepInv(s, e);
    var w, p := Find(s.queue, id), Find(s.queue, e.id);
    var s1 := Step(s, e).value;
    match e
    case Request(new_, offset) =>
      var v;
      b, v := InsertAhead(s, new_, offset, a, w);
      FoundAt(s1.queue, id, v);
    case Begin(_) =>
      assert p == a;
      b := a;
      assert Sole(s1.queue, a);
      FoundAt(s1.queue, id, w);
    case End(_) =>
      assert p == a;
      if NextReq(s, a) == Some(w) {
        NextWoken(s, a, w);
      }
      var v;
      b, v := FinishAhead(s, a, w);
      FoundAt(s1.queue, id, v);
  }

  lemma {:induction false} ReversalsWhileWaiting(s: Device, es: seq<Event>, id: nat, a: nat)
    requires Inv(s) && WaitsThrough(s, es, id) && Sole(s.queue, a)
    ensures Reversals(s, es) <= if Ahead(s, a, Find(s.queue, id)) then 0 else 1
    decreases |es|
  {
    hide Inv, Sole, Step, Enabled, Ahead, Waits;
    if es != [] {
      if Enabled(s, es[0]) {
        StepInv(s, es[0]);
        var s1 := Step(s, es[0]).value;
        assert WaitsThrough(s1, es[1..], id);
        var b := StepAhead(s, es[0], id, a);
        ReversalsWhileWaiting(s1, es[1..], id, b);
      } else {
        ReversalsWhileWaiting(s, es[1..], id, a);
      }
    }
  }

  /**
   * However many requests arrive meanwhile, the arm turns at most once while a
   * request waits, whatever happened before.
   */
  lemma OneReversal(before: seq<Event>, es: seq<Event>, id: nat)
    requires Run(Device([], true), before).Some?
    requires WaitsThrough(Run(Device([], true), before).value, es, id)
    ensures Reversals(Run(Device([], true), before).value, es) <= 1
  {
    var s := Run(Device([], true), before).value;
    RunInv(Device([], true), before);
    assert Waits(s, id);
    var a :| Sole(s.queue, a);
    ReversalsWhileWaiting(s, es, id, a);
  }

  // The code on the device record.

  class BlockDevice {
    var requestList: seq<Req>
    var directUp: bool

    ghost function State(): Device
      reads this
    {
      Device(requestList, directUp)
    }

    constructor ()
      ensures State() == Device([], true)
    {
      requestList, directUp := [], true;
    }

    /** list_insert_sort */
    method InsertSort(r: Req)
      modifies this`requestList
      ensures requestList == Insert(old(requestList), r)
    {
      var anchor := 0;
      while anchor < |requestList| && Key(requestList[anchor].offset) <= Key(r.offset)
        invariant anchor <= |requestList|
        invariant anchor + Place(requestList[anchor..], Key(r.offset)) == Place(requestList, Key(r.offset))
      {
        assert requestList[anchor..][1..] == requestList[anchor + 1..];
        anchor := anchor + 1;
      }
      requestList := requestList[..anchor] + [r] + requestList[anchor..];
    }

    /** device_request up to the driver's work or to task_block. */
    method Request(id: nat, offset: U32) returns (wait: bool)
      modifies this`requestList
      ensures State() == Submit(old(State()), id, offset)
      ensures wait <==> old(requestList) != []
    {
      wait := requestList != [];
      InsertSort(if wait then Req(id, offset, true, Blocked) else Req(id, offset, false, Busy));
    }

    /** request_nextreq for the request at `i`. */
    method NextRequest(i: nat) returns (next: Option<nat>)
      requires i < |requestList|
      modifies this`directUp
      ensures directUp == Turn(old(State()), i) && next == NextReq(old(State()), i)
    {
      if directUp && i + 1 == |requestList| {
        directUp := false;
      } else if !directUp && i == 0 {
        directUp := true;
      }
      if directUp {
        next := if i + 1 == |requestList| then None else Some(i + 1);
      } else {
        next := if i == 0 then None else Some(i - 1);
      }
    }

    /** The rest of device_request after the driver is done with the request at `i`. */
    method Complete(i: nat)
      requires Inv(State()) && Sole(requestList, i) && i < |requestList|
      modifies this
      ensures Finish(old(State()), i) == Some(State())
      ensures Inv(State())
    {
      FinishInv(State(), i);
      var next := NextRequest(i);
      requestList := requestList[..i] + requestList[i + 1..];
      if next.Some? {
        var k := if next.value < i then next.value else next.value - 1;
        assert requestList[k].hasTask;
        requestList := requestList[k := requestList[k].(phase := Ready)];
      }
    }
  }
}
