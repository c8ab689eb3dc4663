/** How long a ready task of the fair scheduler waits, and when it waits for ever. */
module CfsProgress {
  import opened Prelude
  import opened RbNodes
  import opened CfsModel

  /** The running task has run long enough for its virtual clock to move. */
  ghost predicate Advances(s: Cfs)
    requires Fairly(s)
  {
    s.current.Some? && (Ticks(s.slice) - s.ticks) * JIFFY * NICE_0_WEIGHT >= s.wt[s.current.value]
  }

  lemma QuotientPositive(x: nat, w: nat)
    requires w > 0
    ensures x / w > 0 <==> x >= w
  {
    var q := x / w;
    assert x == q * w + x % w;
    if q > 0 {
      assert q * w >= w;
    } else {
      assert q * w == 0;
    }
  }

  /** That is when schedule makes it due later. */
  lemma AdvancesExactly(s: Cfs)
    requires Fairly(s) && s.current.Some?
    ensures Charge(s).vr[s.current.value] > s.vr[s.current.value] <==> Advances(s)
  {
    QuotientPositive((Ticks(s.slice) - s.ticks) * JIFFY * NICE_0_WEIGHT, s.wt[s.current.value]);
  }

  // What stands between a task and the processor.

  function Gap(a: nat, b: nat): nat {
    if a <= b then b - a + 1 else 0
  }

  /** How far the tasks of `q` have to go to be due behind `x`. */
  ghost function Lead(q: seq<Task>, vr: map<Task, nat>, x: Task): nat
    requires x in vr && forall t | t in q :: t in vr
  {
    if q == [] then 0 else (if q[0] == x then 0 else Gap(vr[q[0]], vr[x])) + Lead(q[1..], vr, x)
  }

  lemma {:induction false} LeadInsert(q: seq<Task>, vr: map<Task, nat>, x: Task, t: Task)
    requires x in vr && t in vr && t != x && forall y | y in q :: y in vr
    ensures Lead(Insert(q, vr, t), vr, x) == Lead(q, vr, x) + Gap(vr[t], vr[x])
    decreases |q|
  {
    if q == [] || vr[t] < vr[q[0]] {
      assert ([t] + q)[1..] == q;
    } else {
      LeadInsert(q[1..], vr, x, t);
      var r := Insert(q[1..], vr, t);
      assert ([q[0]] + r)[1..] == r;
    }
  }

  lemma {:induction false} LeadSame(q: seq<Task>, vr: map<Task, nat>, x: Task, t: Task, v: nat)
    requires x in vr && t != x && t !in q && forall y | y in q :: y in vr
    ensures Lead(q, vr[t := v], x) == Lead(q, vr, x)
    decreases |q|
  {
    if q != [] {
      LeadSame(q[1..], vr, x, t, v);
    }
  }

  ghost predicate Near(q: seq<Task>, vr: map<Task, nat>, x: Task) {
    x in vr && forall y | y in q :: y in vr && vr[x] <= vr[y] + MAX_LAG
  }

  lemma {:induction false} LeadBound(q: seq<Task>, vr: map<Task, nat>, x: Task)
    requires Near(q, vr, x)
    ensures Lead(q, vr, x) <= |q| * (MAX_LAG + 1)
    decreases |q|
  {
    if q != [] {
      LeadBound(q[1..], vr, x);
    }
  }

  lemma {:induction false} LeadWithout(q: seq<Task>, vr: map<Task, nat>, x: Task)
    requires x in q && Near(q, vr, x)
    ensures Lead(q, vr, x) <= (|q| - 1) * (MAX_LAG + 1)
    decreases |q|
  {
    if q[0] == x {
      LeadBound(q[1..], vr, x);
    } else {
      LeadWithout(q[1..], vr, x);
    }
  }

  /** The running task and the ready ones. */
  ghost function Active(s: Cfs): seq<Task> {
    (if s.current.Some? then [s.current.value] else []) + s.queue
  }

  ghost predicate Waiting(s: Cfs, x: Task) {
    Fairly(s) && s.current.Some? && x in s.queue
  }

  ghost function Ahead(s: Cfs, x: Task): nat
    requires Waiting(s, x)
  {
    Lead(Active(s), s.vr, x)
  }

  lemma AheadBound(s: Cfs, x: Task)
    requires Waiting(s, x)
    ensures Ahead(s, x) <= |s.queue| * (MAX_LAG + 1)
  {
    assert Active(s)[1..] == s.queue;
    assert forall y | y in Active(s) :: y == s.current.value || y in s.queue;
    LeadWithout(Active(s), s.vr, x);
  }

  lemma AheadSplit(s: Cfs, x: Task)
    requires Waiting(s, x)
    ensures Ahead(s, x) == Lead(s.queue, s.vr, x) + Gap(s.vr[s.current.value], s.vr[x])
    ensures Gap(s.vr[s.current.value], s.vr[x]) >= 1
  {
    assert Active(s)[1..] == s.queue;
  }

  /** What Pick makes of a queue is the same tasks in the same order. */
  lemma PickActive(s: Cfs, x: Task)
    requires Shaped(s) && s.queue != [] && x in s.vr
    ensures Pick(s).current.Some? && Active(Pick(s)) == s.queue && Pick(s).vr == s.vr
  {
  }

  /** A schedule never takes a waiting task away from the processor, and brings it nearer if the clock moved. */
  lemma ReschedNearer(s: Cfs, x: Task)
    requires Waiting(s, x) && x in Schedule(s, true).queue
    ensures Waiting(Schedule(s, true), x) && Ahead(Schedule(s, true), x) + One(Advances(s)) <= Ahead(s, x)
    ensures !Advances(s) ==> Ahead(Schedule(s, true), x) == Ahead(s, x)
  {
    var c, n := s.current.value, Charge(s);
    ScheduleFairly(s, true);
    AheadSplit(s, x);
    AdvancesExactly(s);
    ChargeFairly(s);
    hide Fairly, Advances, Insert, Lead;
    ReschedParts(s, x, n, c);
    var e := Enqueue(n, c);
    PickActive(e, x);
    LeadInsert(s.queue, n.vr, x, c);
    LeadSame(s.queue, s.vr, x, c, n.vr[c]);
  }

  lemma ReschedParts(s: Cfs, x: Task, n: Cfs, c: Task)
    requires Waiting(s, x) && n == Charge(s) && s.current == Some(c) && Shaped(n)
    ensures c != x && c !in s.queue && c in s.vr && x in s.vr && (forall y | y in s.queue :: y in s.vr)
    ensures n.queue == s.queue && n.min == s.min && n.vr == s.vr[c := n.vr[c]] && n.vr[c] >= s.vr[c] >= s.min
    ensures Enqueue(n, c).vr == n.vr && Enqueue(n, c).queue == Insert(s.queue, n.vr, c)
    ensures Shaped(Enqueue(n, c)) && Enqueue(n, c).queue != []
    ensures Schedule(s, true) == Pick(Enqueue(n, c))
  {
    hide Insert, Sorted, NoDup;
    assert n.vr[c := n.vr[c]] == n.vr;
  }

  /** So does one after which the running task is gone. */
  lemma BlockNearer(s: Cfs, x: Task)
    requires Waiting(s, x) && x in Schedule(s, false).queue
    ensures Waiting(Schedule(s, false), x) && Ahead(Schedule(s, false), x) < Ahead(s, x)
  {
    var c, n := s.current.value, Charge(s);
    ScheduleFairly(s, false);
    AheadSplit(s, x);
    ChargeFairly(s);
    ReschedParts(s, x, n, c);
    hide Insert, Lead;
    PickActive(n, x);
    LeadSame(s.queue, s.vr, x, c, n.vr[c]);
  }

  // Runs in which no task joins.

  predicate Closed(e: Event) {
    !e.Wakeup? && !e.Create?
  }

  /** Schedule runs, and the running task has moved its clock or is gone. */
  ghost predicate Moves(s: Cfs, e: Event)
    requires Fairly(s)
  {
    e.Block? || (e.Resched? && Advances(s))
  }

  /** `x` is ready throughout, and nobody joins. */
  ghost predicate WaitsThrough(s: Cfs, es: seq<Event>, x: Task)
    decreases |es|
  {
    && Waiting(s, x)
    && (es != [] ==> Legal(s, es[0]) && Closed(es[0]) && WaitsThrough(Step(s, es[0]), es[1..], x))
  }

  ghost function CountMoves(s: Cfs, es: seq<Event>, x: Task): nat
    requires WaitsThrough(s, es, x)
    decreases |es|
  {
    if es == [] then 0 else One(Moves(s, es[0])) + CountMoves(Step(s, es[0]), es[1..], x)
  }

  lemma StepNearer(s: Cfs, e: Event, x: Task)
    requires Waiting(s, x) && Legal(s, e) && Closed(e) && Waiting(Step(s, e), x)
    ensures Ahead(Step(s, e), x) + One(Moves(s, e)) <= Ahead(s, x)
  {
    match e
    case Resched => ReschedNearer(s, x);
    case Block => BlockNearer(s, x);
    case Tick =>
    case Renice(_) =>
  }

  lemma {:induction false} WaitsLess(s: Cfs, es: seq<Event>, x: Task)
    requires WaitsThrough(s, es, x)
    ensures CountMoves(s, es, x) <= Ahead(s, x)
    decreases |es|
  {
    hide Ahead, Fairly, Moves;
    if es != [] {
      StepNearer(s, es[0], x);
      WaitsLess(Step(s, es[0]), es[1..], x);
    }
  }

  /** While a task is ready, schedule moves others on at most MAX_LAG + 1 times for each task ready with it. */
  lemma WaitBound(s: Cfs, es: seq<Event>, x: Task)
    requires WaitsThrough(s, es, x)
    ensures CountMoves(s, es, x) <= |s.queue| * (MAX_LAG + 1)
  {
    WaitsLess(s, es, x);
    AheadBound(s, x);
  }

  // Slices used up one after the other.

  /** The running task at the end of its slice. */
  ghost function Spent(s: Cfs): (r: Cfs)
    requires Fairly(s)
    ensures Fairly(r) && r.current == s.current && r.queue == s.queue && r.vr == s.vr && r.wt == s.wt
  {
    if s.current.Some? then s.(ticks := 0) else s
  }

  ghost function Round(s: Cfs): (r: Cfs)
    requires Fairly(s)
    ensures Fairly(r)
  {
    ScheduleFairly(Spent(s), true);
    Schedule(Spent(s), true)
  }

  ghost function After(s: Cfs, n: nat): (r: Cfs)
    requires Fairly(s)
    ensures Fairly(r)
    decreases n
  {
    if n == 0 then s else After(Round(s), n - 1)
  }

  /** The virtual times once the running task has paid for its slice. */
  ghost function Paid(s: Cfs): map<Task, nat>
    requires Fairly(s)
  {
    Charge(Spent(s)).vr
  }

  ghost function Total(s: Cfs): nat
    requires Fairly(s)
  {
    assert forall t | t in Active(s) :: t in s.queue || s.current == Some(t);
    TotalWeight(Active(s), s.wt)
  }

  /** Of a weight `w` among `total`: a whole slice does not move the clock. */
  predicate Stuck(w: nat, total: nat) {
    Ticks(Slice(w, total)) * JIFFY * NICE_0_WEIGHT < w
  }

  /** The running task has the slice of the present weight, as after every schedule. */
  ghost predicate Settled(s: Cfs)
    requires Fairly(s)
  {
    s.current.Some? && s.slice == Slice(s.wt[s.current.value], Total(s))
  }

  lemma {:induction false} WeightInsert(q: seq<Task>, vr: map<Task, nat>, wt: map<Task, nat>, t: Task)
    requires t in vr && t in wt && (forall x | x in q :: x in vr && x in wt)
    ensures TotalWeight(Insert(q, vr, t), wt) == wt[t] + TotalWeight(q, wt)
    decreases |q|
  {
    if q == [] || vr[t] < vr[q[0]] {
      assert ([t] + q)[1..] == q;
    } else {
      WeightInsert(q[1..], vr, wt, t);
      var r := Insert(q[1..], vr, t);
      assert ([q[0]] + r)[1..] == r;
    }
  }

  lemma PickSettles(s: Cfs)
    requires Shaped(s) && s.queue != [] && Fairly(Pick(s))
    ensures var u := Pick(s);
            && u.current == Some(s.queue[0]) && Active(u) == s.queue && u.vr == s.vr && u.wt == s.wt
            && Settled(u) && Total(u) == TotalWeight(s.queue, s.wt)
  {
    hide Slice, Ticks, TotalWeight, Sorted, NoDup;
    assert [s.queue[0]] + s.queue[1..] == s.queue;
  }

  /** What one round leaves: the same tasks and weights, the paid times, and a settled state. */
  ghost predicate Rounded(s: Cfs, u: Cfs)
    requires Fairly(s) && Fairly(u)
  {
    && Settled(u) && u.vr == Paid(s) && u.wt == s.wt && Total(u) == Total(s)
    && (forall t | t in Active(u) :: t in Active(s)) && (forall t | t in Active(s) :: t in Active(u))
  }

  lemma RoundParts(s: Cfs, x: Task)
    requires Fairly(s) && x in s.queue
    ensures Rounded(s, Round(s)) && Round(s).vr[x] == s.vr[x]
  {
    if s.current.Some? {
      RoundRuns(s, x);
    } else {
      ScheduleFairly(s, true);
      PickSettles(s);
      assert Active(s) == s.queue;
    }
  }

  lemma RoundRuns(s: Cfs, x: Task)
    requires Fairly(s) && s.current.Some? && x in s.queue
    ensures Rounded(s, Round(s)) && Round(s).vr[x] == s.vr[x]
  {
    hide Fairly, Insert, Pick, Slice, TotalWeight, Round, Paid;
    var e := RoundPicks(s, x);
    PickSettles(e);
    RoundActive(s, s.current.value, e.vr);
  }

  lemma RoundPicks(s: Cfs, x: Task) returns (e: Cfs)
    requires Fairly(s) && s.current.Some? && x in s.queue
    ensures Shaped(e) && e.queue != [] && Round(s) == Pick(e) && e.wt == s.wt && e.vr == Paid(s)
            && e.vr.Keys == s.vr.Keys
    ensures s.current.value in e.vr && x in e.vr && x in s.vr && e.vr[x] == s.vr[x]
    ensures (forall y | y in s.queue :: y in e.vr) && e.queue == Insert(s.queue, e.vr, s.current.value)
  {
    var k, c := Spent(s), s.current.value;
    var n := Charge(k);
    ChargeFairly(k);
    hide Insert, Pick, Slice, Ticks, Delta, Sorted, NoDup;
    ReschedParts(k, x, n, c);
    e := Enqueue(n, c);
  }

  lemma RoundActive(s: Cfs, c: Task, vr: map<Task, nat>)
    requires Fairly(s) && s.current == Some(c) && vr.Keys == s.vr.Keys && c in vr && forall y | y in s.queue :: y in vr
    ensures var q := Insert(s.queue, vr, c);
            && (forall t :: t in q <==> t in Active(s))
            && (forall t | t in q :: t in s.wt) && TotalWeight(q, s.wt) == Total(s)
  {
    hide Insert, Sorted, NoDup;
    WeightInsert(s.queue, vr, s.wt, c);
    assert Active(s)[1..] == s.queue;
  }

  /** The task picked is due as early as any. */
  lemma CurrentFirst(s: Cfs, t: Task)
    requires Fairly(s) && s.current.Some? && t in Active(s)
    ensures t in s.vr && s.vr[s.current.value] <= s.vr[t] && (t == s.current.value || t in s.queue)
  {
  }

  /** In a settled state the clock stands still exactly if the running task is stuck. */
  lemma PaidSettled(s: Cfs, t: Task)
    requires Fairly(s) && Settled(s) && t in s.vr
    ensures t in Paid(s) && Paid(s)[t] >= s.vr[t] && (t != s.current.value ==> Paid(s)[t] == s.vr[t])
    ensures t == s.current.value ==> (Paid(s)[t] > s.vr[t] <==> !Stuck(s.wt[t], Total(s)))
    ensures Advances(Spent(s)) <==> !Stuck(s.wt[s.current.value], Total(s))
  {
    hide Slice, Total;
    AdvancesExactly(Spent(s));
  }

  /** `t` is stuck and due before `x`. */
  ghost predicate Behind(s: Cfs, t: Task, x: Task)
    requires Fairly(s)
  {
    && Settled(s) && x in s.queue && t in Active(s) && t in s.vr && x in s.vr && t in s.wt
    && s.vr[t] < s.vr[x] && Stuck(s.wt[t], Total(s))
  }

  /** A stuck task that is before `x` once the slice is paid keeps `x` from being picked next. */
  lemma BehindRound(s: Cfs, t: Task, x: Task)
    requires Fairly(s) && x in s.queue && t in Active(s)
    requires t in Paid(s) && Paid(s)[t] < s.vr[x] && Stuck(s.wt[t], Total(s))
    ensures var u := Round(s); Behind(u, t, x) && u.vr[t] == Paid(s)[t] && u.vr[x] == s.vr[x]
  {
    var u := Round(s);
    RoundParts(s, x);
    assert t in Active(u) && x in Active(s);
    CurrentFirst(u, t);
    CurrentFirst(u, x);
    hide Fairly, Round, Stuck, Total, Paid, Settled, Active;
  }

  lemma BehindStays(s: Cfs, t: Task, x: Task)
    requires Fairly(s) && Behind(s, t, x)
    ensures var u := Round(s); Behind(u, t, x) && u.vr[t] == s.vr[t] && u.vr[x] == s.vr[x]
  {
    PaidSettled(s, t);
    hide Fairly, Round, Stuck, Total, Paid, Settled, Active;
    BehindRound(s, t, x);
  }

  lemma {:induction false} StaysBehind(s: Cfs, t: Task, x: Task, n: nat)
    requires Fairly(s) && Behind(s, t, x)
    ensures var k := After(s, n); Behind(k, t, x) && k.vr[t] == s.vr[t] && k.vr[x] == s.vr[x]
    decreases n
  {
    hide Round, Behind, Fairly;
    if n > 0 {
      BehindStays(s, t, x);
      StaysBehind(Round(s), t, x, n - 1);
    }
  }

  /** One stuck task due before `x` is enough: `x` is passed over for ever. */
  lemma Starves(s: Cfs, t: Task, x: Task, n: nat)
    requires Fairly(s) && x in s.queue && t in Active(s)
    requires t in Paid(s) && Paid(s)[t] < s.vr[x] && Stuck(s.wt[t], Total(s))
    ensures var k := After(s, n);
            && x in k.queue && x in k.vr && k.vr[x] == s.vr[x]
            && (n > 0 ==> t in Active(k) && t in k.vr && k.vr[t] == Paid(s)[t])
  {
    hide Round, Stuck, Total, Paid, Settled, Sorted, NoDup, Active;
    if n > 0 {
      BehindRound(s, t, x);
      StaysBehind(Round(s), t, x, n - 1);
    }
  }

  /** No task due before `x` is stuck. */
  ghost predicate Clear(s: Cfs, x: Task)
    requires Fairly(s) && x in s.vr
  {
    forall t | t in Active(s) && t in s.vr && s.vr[t] < s.vr[x] :: !Stuck(s.wt[t], Total(s))
  }

  lemma ClearRound(s: Cfs, x: Task)
    requires Fairly(s) && Settled(s) && x in s.queue && Clear(s, x)
    ensures x in Round(s).vr && Clear(Round(s), x)
  {
    var u := Round(s);
    RoundParts(s, x);
    hide Round, Stuck, Total, Paid;
    forall t | t in Active(u) && t in u.vr && u.vr[t] < u.vr[x]
      ensures !Stuck(u.wt[t], Total(u))
    {
      CurrentFirst(s, t);
      PaidSettled(s, t);
    }
  }

  /** If the running task is due no earlier than `x` and stands still, it goes behind `x`. */
  lemma TieRound(s: Cfs, x: Task, k: nat)
    requires Waiting(s, x) && k < |s.queue| && s.queue[k] == x && !Advances(s)
    requires s.vr[s.current.value] >= s.vr[x]
    ensures var u := Schedule(s, true);
            if k == 0 then u.current == Some(x) else k - 1 < |u.queue| && u.queue[k - 1] == x
  {
    var c, n := s.current.value, Charge(s);
    ScheduleFairly(s, true);
    AdvancesExactly(s);
    ChargeFairly(s);
    var p := InsertPlace(s.queue, n.vr, c);
    hide Fairly, Advances, Insert;
    ReschedParts(s, x, n, c);
    assert k < p;
  }

  lemma AfterNone(s: Cfs)
    requires Fairly(s)
    ensures After(s, 0) == s
  {
  }

  /** Then `x` gets the processor. */
  lemma {:induction false} GetsThere(s: Cfs, x: Task, k: nat) returns (n: nat)
    requires Waiting(s, x) && Settled(s) && Clear(s, x) && k < |s.queue| && s.queue[k] == x
    ensures After(s, n).current == Some(x)
    decreases Ahead(s, x), k
  {
    hide Round, Clear, Settled, Total, Ahead, Sorted, NoDup;
    var u := Round(s);
    if u.current == Some(x) {
      AfterNone(u);
      return 1;
    }
    ClearRound(s, x);
    StillWaiting(s, x);
    var j := NextPlace(s, x, k);
    var m := GetsThere(u, x, j);
    n := m + 1;
  }

  lemma StillWaiting(s: Cfs, x: Task)
    requires Waiting(s, x) && Round(s).current != Some(x)
    ensures Waiting(Round(s), x) && Settled(Round(s))
  {
    RoundParts(s, x);
    CurrentFirst(Round(s), x);
  }

  /** Where `x` stands after a round in which it was not picked; if it is no nearer, it has moved up. */
  lemma NextPlace(s: Cfs, x: Task, k: nat) returns (j: nat)
    requires Waiting(s, x) && Settled(s) && Clear(s, x) && k < |s.queue| && s.queue[k] == x
    requires Waiting(Round(s), x)
    ensures j < |Round(s).queue| && Round(s).queue[j] == x
    ensures Ahead(Round(s), x) < Ahead(s, x) || (Ahead(Round(s), x) == Ahead(s, x) && j < k)
  {
    hide Fairly, Ahead, Stuck, Total, Settled, Schedule, Clear;
    SpentAhead(s, x);
    if !Advances(Spent(s)) {
      StandsStill(s, x);
    }
    j := PlaceAfter(Spent(s), x, k);
  }

  lemma PlaceAfter(s: Cfs, x: Task, k: nat) returns (j: nat)
    requires Waiting(s, x) && k < |s.queue| && s.queue[k] == x && Waiting(Schedule(s, true), x)
    requires Advances(s) || s.vr[s.current.value] >= s.vr[x]
    ensures var u := Schedule(s, true);
            && j < |u.queue| && u.queue[j] == x
            && (Ahead(u, x) < Ahead(s, x) || (Ahead(u, x) == Ahead(s, x) && j < k))
  {
    hide Ahead, Schedule, Sorted, NoDup, Advances;
    ReschedNearer(s, x);
    if Advances(s) {
      var u := Schedule(s, true);
      j :| 0 <= j < |u.queue| && u.queue[j] == x;
    } else {
      NotCurrent(s, x);
      TieRound(s, x, k);
      j := k - 1;
    }
  }

  /** With nobody stuck before `x`, a clock that stands still belongs to a task that is not before `x`. */
  lemma StandsStill(s: Cfs, x: Task)
    requires Waiting(s, x) && Settled(s) && Clear(s, x) && !Advances(Spent(s))
    ensures s.vr[s.current.value] >= s.vr[x]
  {
    var c := s.current.value;
    PaidSettled(s, c);
    hide Fairly, Stuck, Total, Settled, Advances;
    assert c in Active(s);
  }

  lemma SpentAhead(s: Cfs, x: Task)
    requires Waiting(s, x)
    ensures Waiting(Spent(s), x) && Ahead(Spent(s), x) == Ahead(s, x) && s.current.value in s.vr
  {
  }

  lemma NotCurrent(s: Cfs, x: Task)
    requires Fairly(s) && x in Schedule(s, true).queue
    ensures Fairly(Schedule(s, true)) && Schedule(s, true).current != Some(x)
  {
    ScheduleFairly(s, true);
  }

  /**
   * When slices are used up and nobody joins or leaves, a ready task is picked
   * exactly when no task due before it, once the running one has paid, is stuck.
   */
  lemma PickedExactly(s: Cfs, x: Task)
    requires Fairly(s) && x in s.queue
    ensures (exists n: nat :: After(s, n).current == Some(x)) <==>
            forall t | t in Active(s) && t in Paid(s) && Paid(s)[t] < s.vr[x] :: !Stuck(s.wt[t], Total(s))
  {
    var u := Round(s);
    RoundParts(s, x);
    hide Round, Stuck, Total, Paid;
    if t :| t in Active(s) && t in Paid(s) && Paid(s)[t] < s.vr[x] && Stuck(s.wt[t], Total(s)) {
      forall n: nat
        ensures After(s, n).current != Some(x)
      {
        Starves(s, t, x, n);
        WaitingRuns(After(s, n), x);
      }
    } else if u.current == Some(x) {
      assert After(u, 0) == u;
      assert After(s, 1) == u;
    } else {
      CurrentFirst(u, x);
      var k :| 0 <= k < |u.queue| && u.queue[k] == x;
      var n := GetsThere(u, x, k);
      assert After(s, n + 1) == After(u, n);
    }
  }

  lemma WaitingRuns(s: Cfs, x: Task)
    requires Fairly(s) && x in s.queue
    ensures s.current != Some(x)
  {
  }

  // The same as events of the machine.

  lemma RunFirst(s: Cfs, e: Event, es: seq<Event>)
    requires Fairly(s) && Legal(s, e)
    ensures Run(s, [e] + es) == Run(Step(s, e), es)
  {
    assert ([e] + es)[1..] == es;
  }

  lemma {:induction false} RunTicks(s: Cfs, n: nat, es: seq<Event>)
    requires Fairly(s) && s.current.Some? && s.ticks >= n
    ensures Fairly(s.(ticks := s.ticks - n)) && Run(s, Clock(n) + es) == Run(s.(ticks := s.ticks - n), es)
    decreases n
  {
    hide Run, Sorted, NoDup;
    if n == 0 {
      assert Clock(0) + es == es;
    } else {
      var k := s.(ticks := s.ticks - 1);
      assert Clock(n) + es == [Tick] + (Clock(n - 1) + es);
      RunFirst(s, Tick, Clock(n - 1) + es);
      StepFairly(s, Tick);
      RunTicks(k, n - 1, es);
    }
  }

  function Clock(n: nat): seq<Event> {
    seq(n, i => Tick)
  }

  /** The ticks and schedules of `n` slices. */
  ghost function Slices(s: Cfs, n: nat): seq<Event>
    requires Fairly(s)
    decreases n
  {
    if n == 0 then []
    else Clock(if s.current.Some? then s.ticks else 0) + ([Resched] + Slices(Round(s), n - 1))
  }

  lemma {:induction false} SlicesRun(s: Cfs, n: nat)
    requires Fairly(s)
    ensures Run(s, Slices(s, n)) == Some(After(s, n))
    decreases n
  {
    if n > 0 {
      var rest := Slices(Round(s), n - 1);
      OneSlice(s, rest);
      hide Run, Round, Clock;
      SlicesRun(Round(s), n - 1);
    }
  }

  lemma OneSlice(s: Cfs, es: seq<Event>)
    requires Fairly(s)
    ensures Run(s, Clock(if s.current.Some? then s.ticks else 0) + ([Resched] + es)) == Run(Round(s), es)
  {
    hide Run, Schedule, Clock, Sorted, NoDup;
    if s.current.Some? {
      RunTicks(s, s.ticks, [Resched] + es);
    } else {
      ClockNone([Resched] + es);
    }
    RunFirst(Spent(s), Resched, es);
  }

  lemma ClockNone(es: seq<Event>)
    ensures Clock(0) + es == es
  {
  }

  // Two tasks of the greatest weight.

  const HEAVY: nat := 88761           // the weight of nice -20

  /** `u` runs with a full slice, `v` is due as early, and `c` of weight 1024 is due later. */
  ghost predicate Starving(s: Cfs, u: Task, v: Task, c: Task) {
    && Fairly(s) && s.queue == [v, c] && s.current == Some(u) && s.slice == 49 && s.ticks == 4
    && u != v && c != u && c != v
    && s.wt[u] == s.wt[v] == HEAVY && s.wt[c] == NICE_0_WEIGHT
    && s.vr[u] == s.vr[v] == s.min < s.vr[c]
  }

  lemma ThreeWeights(x: Task, y: Task, z: Task, wt: map<Task, nat>)
    requires x in wt && y in wt && z in wt
    ensures TotalWeight([x, y, z], wt) == wt[x] + wt[y] + wt[z]
  {
    assert [x, y, z][1..] == [y, z] && [y, z][1..] == [z] && [z][1..] == [];
    assert TotalWeight([z], wt) == wt[z];
    assert TotalWeight([y, z], wt) == wt[y] + wt[z];
  }

  lemma Numbers()
    ensures Slice(HEAVY, 2 * HEAVY + NICE_0_WEIGHT) == 49 && Ticks(49) == 4 && Ticks(100) == 10
    ensures Delta(4 * JIFFY, HEAVY) == 0 && Delta(JIFFY, NICE_0_WEIGHT) == 10
  {
  }

  /** A heavy task that is picked with another one and a light one behind it gets 49 milliseconds. */
  lemma PickHeavy(s: Cfs, x: Task, y: Task, c: Task)
    requires Shaped(s) && s.queue == [x, y, c] && s.wt[x] == s.wt[y] == HEAVY && s.wt[c] == NICE_0_WEIGHT
    ensures Pick(s) == s.(min := s.vr[x], queue := [y, c], current := Some(x), slice := 49, ticks := 4)
  {
    hide Slice, Ticks, Delta, TotalWeight;
    Numbers();
    ThreeWeights(x, y, c, s.wt);
    assert [x, y, c][1..] == [y, c];
  }

  /** However many slices go by, the third task is not picked and no clock moves. */
  lemma HeavyStarve(s: Cfs, u: Task, v: Task, c: Task, n: nat)
    requires Starving(s, u, v, c)
    ensures Run(s, Slices(s, n)) == Some(After(s, n))
    ensures var k := After(s, n); c in k.queue && forall t | t in {u, v, c} :: t in k.vr && k.vr[t] == s.vr[t]
  {
    SlicesRun(s, n);
    HeavyStuck(s, u, v, c);
    hide Fairly, Stuck, Total, Paid, Slices, Run, After;
    Starves(s, u, c, n);
    Starves(s, v, c, n);
    assert n == 0 ==> After(s, n) == s by { AfterNone(s); }
    assert n > 0 ==> After(s, n).vr[u] == Paid(s)[u] && After(s, n).vr[v] == Paid(s)[v];
  }

  lemma HeavyStuck(s: Cfs, u: Task, v: Task, c: Task)
    requires Starving(s, u, v, c)
    ensures u in Active(s) && v in Active(s) && Stuck(HEAVY, Total(s))
    ensures u in Paid(s) && v in Paid(s) && Paid(s)[u] == s.vr[u] && Paid(s)[v] == s.vr[v]
  {
    hide Slice, Ticks, Delta, TotalWeight;
    Numbers();
    ThreeWeights(u, v, c, s.wt);
    assert Active(s) == [u, v, c];
    assert Total(s) == 2 * HEAVY + NICE_0_WEIGHT;
    PaidSettled(s, u);
    PaidSettled(s, v);
  }

  ghost function Idle(): Cfs {
    Cfs([], map[], map[], 0, None, 0, 0)
  }

  /** Three tasks are enough to get there: the light one runs for a tick and then waits. */
  lemma StarvingReached(a: Task, b: Task, c: Task)
    requires a != b && c != a && c != b
    ensures var es := [Create(c, NICE_0_WEIGHT), Resched, Create(a, HEAVY), Create(b, HEAVY), Tick, Resched];
            Run(Idle(), es).Some? && Starving(Run(Idle(), es).value, a, b, c)
  {
    hide Sorted, NoDup, Run, Schedule, Insert;
    var s1 := AloneRuns(c);
    var s2 := Spawn(s1, a, HEAVY);
    SpawnFairly(s1, a, HEAVY);
    var s3 := Spawn(s2, b, HEAVY);
    SpawnFairly(s2, b, HEAVY);
    TwoJoin(s1, a, b, c);
    var s4 := s3.(ticks := 9);
    StepFairly(s3, Tick);
    LightLeaves(s4, a, b, c);
    hide Spawn, Enqueue;
    var r1: seq<Event> := [Create(a, HEAVY), Create(b, HEAVY), Tick, Resched];
    var r2: seq<Event> := [Create(b, HEAVY), Tick, Resched];
    var r3: seq<Event> := [Tick, Resched];
    assert [Create(c, NICE_0_WEIGHT), Resched, Create(a, HEAVY), Create(b, HEAVY), Tick, Resched]
        == [Create(c, NICE_0_WEIGHT)] + ([Resched] + r1);
    FirstTwo(c, s1, r1);
    assert r1 == [Create(a, HEAVY)] + r2 && r2 == [Create(b, HEAVY)] + r3 && r3 == [Tick] + [Resched];
    RunFirst(s1, Create(a, HEAVY), r2);
    RunFirst(s2, Create(b, HEAVY), r3);
    RunFirst(s3, Tick, [Resched]);
    LastOne(s4);
  }

  lemma LastOne(s: Cfs)
    requires Fairly(s)
    ensures Run(s, [Resched]) == Some(Schedule(s, true))
  {
    hide Schedule;
    assert [Resched][1..] == [];
    assert Run(Schedule(s, true), []) == Some(Schedule(s, true));
  }

  lemma AloneRuns(c: Task) returns (s: Cfs)
    ensures s == Cfs([], map[c := 0], map[c := NICE_0_WEIGHT], 0, Some(c), 100, 10) && Fairly(s)
  {
    s := Cfs([], map[c := 0], map[c := NICE_0_WEIGHT], 0, Some(c), 100, 10);
    assert Ticks(100) == 10;
  }

  lemma FirstTwo(c: Task, s: Cfs, es: seq<Event>)
    requires s == Cfs([], map[c := 0], map[c := NICE_0_WEIGHT], 0, Some(c), 100, 10)
    ensures Run(Idle(), [Create(c, NICE_0_WEIGHT)] + ([Resched] + es)) == Run(s, es)
  {
    var i := Idle();
    assert Fairly(i);
    SpawnFairly(i, c, NICE_0_WEIGHT);
    var k := Spawn(i, c, NICE_0_WEIGHT);
    assert k == Cfs([c], map[c := 0], map[c := NICE_0_WEIGHT], 0, None, 0, 0);
    assert TotalWeight([c], k.wt) == NICE_0_WEIGHT by { assert [c][1..] == []; }
    assert Slice(NICE_0_WEIGHT, NICE_0_WEIGHT) == 100 && Ticks(100) == 10;
    assert Schedule(k, true) == s;
    hide Run, Spawn, Schedule;
    RunFirst(i, Create(c, NICE_0_WEIGHT), [Resched] + es);
    RunFirst(k, Resched, es);
  }

  lemma TwoJoin(s: Cfs, a: Task, b: Task, c: Task)
    requires a != b && c != a && c != b && s == Cfs([], map[c := 0], map[c := NICE_0_WEIGHT], 0, Some(c), 100, 10)
    requires Shaped(s) && Shaped(Spawn(s, a, HEAVY))
    ensures a in Spawn(s, a, HEAVY).vr && b !in Spawn(s, a, HEAVY).vr
    ensures Spawn(Spawn(s, a, HEAVY), b, HEAVY)
         == s.(queue := [a, b], vr := map[c := 0, a := 0, b := 0],
               wt := map[c := NICE_0_WEIGHT, a := HEAVY, b := HEAVY])
  {
    var s2 := Spawn(s, a, HEAVY);
    assert s2 == s.(queue := [a], vr := map[c := 0, a := 0], wt := map[c := NICE_0_WEIGHT, a := HEAVY]);
    var vr := map[c := 0, a := 0, b := 0];
    assert [a][1..] == [];
    assert Insert([], vr, b) == [b];
    assert Insert([a], vr, b) == [a, b];
    assert s2.vr[b := 0][b := Max(0, 0)] == vr;
  }

  lemma LightLeaves(s: Cfs, a: Task, b: Task, c: Task)
    requires a != b && c != a && c != b && Fairly(s)
    requires s == Cfs([a, b], map[c := 0, a := 0, b := 0], map[c := NICE_0_WEIGHT, a := HEAVY, b := HEAVY],
                      0, Some(c), 100, 9)
    ensures Starving(Schedule(s, true), a, b, c)
  {
    hide Slice, Delta, Pick, Sorted, NoDup;
    ScheduleFairly(s, true);
    Numbers();
    LightCharge(s, a, b, c);
    hide Charge, Enqueue, Insert;
    PickHeavy(Enqueue(Charge(s), c), a, b, c);
  }

  lemma LightCharge(s: Cfs, a: Task, b: Task, c: Task)
    requires a != b && c != a && c != b && Fairly(s)
    requires s == Cfs([a, b], map[c := 0, a := 0, b := 0], map[c := NICE_0_WEIGHT, a := HEAVY, b := HEAVY],
                      0, Some(c), 100, 9)
    ensures Shaped(Charge(s)) && Enqueue(Charge(s), c) == s.(vr := s.vr[c := 10], queue := [a, b, c])
    ensures Shaped(Enqueue(Charge(s), c))
  {
    hide Slice, Delta, Sorted, NoDup;
    Numbers();
    var vr := s.vr[c := 10];
    assert Charge(s) == s.(vr := vr);
    assert vr[c := Max(10, 0)] == vr;
    LastInserted(a, b, c, vr);
  }

  lemma LastInserted(a: Task, b: Task, c: Task, vr: map<Task, nat>)
    requires a in vr && b in vr && c in vr && vr[a] <= vr[c] && vr[b] <= vr[c]
    ensures Insert([a, b], vr, c) == [a, b, c]
  {
    assert [a, b][1..] == [b] && [b][1..] == [];
    assert Insert([], vr, c) == [c];
    assert Insert([b], vr, c) == [b, c];
  }
}
