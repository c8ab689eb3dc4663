/** What the fair scheduler's arithmetic amounts to: time, weight and virtual time. */
module CfsAccounting {
  import opened Prelude
  import opened RbNodes
  import opened CfsModel

  lemma Quotient(x: nat, w: nat)
    requires w > 0
    ensures w * (x / w) <= x < w * (x / w + 1)
  {
    assert x == w * (x / w) + x % w;
    assert w * (x / w + 1) == w * (x / w) + w;
  }

  lemma Grows(w: nat, a: nat, b: nat)
    ensures a <= b ==> w * a <= w * b
  {
    if a <= b {
      assert w * b == w * a + w * (b - a);
    }
  }

  lemma QuotientUnique(x: nat, w: nat, q: nat)
    requires w > 0 && w * q <= x < w * (q + 1)
    ensures x / w == q
  {
    Quotient(x, w);
    Grows(w, x / w + 1, q);
    Grows(w, q + 1, x / w);
  }

  // One call.

  /** A slice in ticks is the slice in milliseconds without its last digit, and at least one. */
  lemma TicksExact(slice: nat)
    ensures if slice < 10 then Ticks(slice) == 1 else 10 * Ticks(slice) <= slice < 10 * Ticks(slice) + 10
  {
  }

  /** A task's share of 100 milliseconds by weight, and 10 milliseconds where that is less. */
  lemma SliceExact(weight: nat, total: nat)
    ensures var ms := Slice(weight, total);
            if total > 0 && weight * 100 >= 10 * total then total * ms <= weight * 100 < total * (ms + 1) else ms == 10
  {
    if total > 0 {
      Quotient(weight * 100, total);
      Grows(total, weight * 100 / total + 1, 10);
      Grows(total, 10, weight * 100 / total);
    }
  }

  /** Virtual time `x` is what a task of weight `w` pays for `ms` milliseconds. */
  predicate Pays(w: int, x: int, ms: int) {
    0 <= ms && 0 <= x && w * x <= 1024 * ms < w * (x + 1)
  }

  lemma Paying(w: nat, ms: nat)
    requires w > 0
    ensures Pays(w, ms * 1024 / w, ms) && Pays(w, 0, 0)
  {
    Quotient(ms * 1024, w);
  }

  /** How long the running task has run since it was picked, in milliseconds. */
  function Pending(s: Cfs, t: Task): int {
    if s.current == Some(t) then 10 * (Ticks(s.slice) - s.ticks) else 0
  }

  /** By how much schedule moves the virtual time of a task that it charges. */
  ghost function Charged(s: Cfs, t: Task): int
    requires Fairly(s) && t in s.vr
  {
    Charge(s).vr[t] - s.vr[t]
  }

  /** The running task pays 1024 for each millisecond, divided by its weight; nobody else pays. */
  lemma ChargeExact(s: Cfs, t: Task)
    requires Fairly(s) && t in s.vr
    ensures Pays(s.wt[t], Charged(s, t), Pending(s, t))
    ensures s.current != Some(t) ==> Charged(s, t) == 0
    ensures Charge(s) == s.(vr := Charge(s).vr) && Charge(s).vr.Keys == s.vr.Keys
  {
    if s.current == Some(t) {
      Quotient((Ticks(s.slice) - s.ticks) * JIFFY * NICE_0_WEIGHT, s.wt[t]);
    }
  }

  /** A task that wakes up gets twice two milliseconds' worth off, but nothing below the minimum. */
  lemma WakeExact(s: Cfs, t: Task, b: nat)
    requires Shaped(s) && t in s.vr && s.wt[t] * b <= 2048 < s.wt[t] * (b + 1)
    ensures var v := s.vr[t] - 2 * b; Wake(s, t).vr == s.vr[t := if v > s.min then v else s.min]
    ensures Wake(s, t).queue == Insert(s.queue, Wake(s, t).vr, t)
    ensures Wake(s, t) == s.(vr := Wake(s, t).vr, queue := Wake(s, t).queue)
  {
    QuotientUnique(2048, s.wt[t], b);
    assert Bonus(s.wt[t]) == b;
  }

  /** A new task starts at the minimum, with its weight. */
  lemma SpawnExact(s: Cfs, t: Task, weight: nat)
    requires Shaped(s) && t !in s.vr && weight >= MIN_WEIGHT
    ensures Spawn(s, t, weight).vr == s.vr[t := s.min] && Spawn(s, t, weight).wt == s.wt[t := weight]
    ensures Spawn(s, t, weight).queue == Insert(s.queue, s.vr[t := s.min], t)
    ensures Spawn(s, t, weight) ==
            s.(vr := Spawn(s, t, weight).vr, wt := Spawn(s, t, weight).wt, queue := Spawn(s, t, weight).queue)
  {
    assert s.vr[t := s.min][t := s.min] == s.vr[t := s.min];
  }

  /** The tasks that are ready, or running. */
  ghost function Alive(s: Cfs): set<Task> {
    (set t | t in s.queue) + if s.current.Some? then {s.current.value} else {}
  }

  /** `t` runs next, for its share of 100 milliseconds among all that are ready, itself included. */
  ghost predicate RunsNext(n: Cfs, t: Task)
    requires Shaped(n)
  {
    && n.current == Some(t) && t in n.vr && t !in n.queue && n.min == n.vr[t]
    && (forall x | x in n.queue :: n.vr[t] <= n.vr[x])
    && n.ticks == Ticks(n.slice)
    && var w, total := n.wt[t], n.wt[t] + TotalWeight(n.queue, n.wt);
       if w * 100 >= 10 * total then total * n.slice <= w * 100 < total * (n.slice + 1) else n.slice == 10
  }

  lemma PickExact(s: Cfs)
    requires Shaped(s) && Sorted(s.queue, s.vr) && NoDup(s.queue)
    ensures Pick(s).vr == s.vr && Pick(s).wt == s.wt
    ensures if s.queue == [] then Alive(Pick(s)) == {} && Pick(s).min == s.min
            else Alive(Pick(s)) == (set t | t in s.queue) && Shaped(Pick(s)) && RunsNext(Pick(s), s.queue[0])
  {
    if s.queue != [] {
      var t := s.queue[0];
      SliceExact(s.wt[t], TotalWeight(s.queue, s.wt));
      assert s.queue == [t] + s.queue[1..];
      hide Slice, Ticks;
    }
  }

  /** The state before schedule picks: the running task has paid and, if it goes on, is ready. */
  ghost function Readied(s: Cfs, runnable: bool): Cfs
    requires Fairly(s)
  {
    var c := Charge(s);
    if runnable && s.current.Some? then Enqueue(c, s.current.value) else c
  }

  ghost function Going(s: Cfs, runnable: bool): set<Task> {
    Alive(s) - if !runnable && s.current.Some? then {s.current.value} else {}
  }

  lemma ReadiedExact(s: Cfs, runnable: bool)
    requires Fairly(s)
    ensures var m := Readied(s, runnable);
            && Shaped(m) && Sorted(m.queue, m.vr) && NoDup(m.queue)
            && m.vr == Charge(s).vr && m.wt == s.wt && m.min == s.min
            && (set t | t in m.queue) == Going(s, runnable)
  {
    hide Delta, Ticks;
    if s.current.Some? {
      var c, t := Charge(s), s.current.value;
      ChargeFairly(s);
      ChargeExact(s, t);
      if runnable {
        EnqueueFairly(c, t);
        assert c.vr[t := c.vr[t]] == c.vr;
        hide Insert;
      }
    }
  }

  /**
   * schedule after the charge: the running task, if it goes on, is ready again at its new virtual time, and of
   * all that are ready one that is due first runs next.
   */
  lemma ScheduleExact(s: Cfs, runnable: bool)
    requires Fairly(s)
    ensures var n := Schedule(s, runnable);
            && Shaped(n) && n.vr == Charge(s).vr && n.wt == s.wt && Alive(n) == Going(s, runnable)
            && (n.current.None? <==> Alive(n) == {})
            && (n.current.None? ==> n.min == s.min)
            && (n.current.Some? ==> RunsNext(n, n.current.value))
  {
    var m := Readied(s, runnable);
    assert Schedule(s, runnable) == Pick(m);
    ReadiedExact(s, runnable);
    PickExact(m);
    hide Readied, Schedule, Going, Enqueue, Charge, Fairly, Sorted, NoDup, RunsNext;
    assert m.queue != [] ==> m.queue[0] in (set t | t in m.queue);
  }

  // Runs.

  predicate Schedules(e: Event) {
    e.Resched? || e.Block?
  }

  /** The clock ticks while `t` runs. */
  ghost function TicksOf(s: Cfs, es: seq<Event>, t: Task): nat
    decreases |es|
  {
    if es == [] || !Fairly(s) || !Legal(s, es[0]) then 0
    else One(es[0].Tick? && s.current == Some(t)) + TicksOf(Step(s, es[0]), es[1..], t)
  }

  /** What schedule puts on the virtual time of `t`. */
  ghost function Paid(s: Cfs, es: seq<Event>, t: Task): int
    decreases |es|
  {
    if es == [] || !Fairly(s) || !Legal(s, es[0]) || t !in s.vr then 0
    else (if Schedules(es[0]) then Charged(s, t) else 0) + Paid(Step(s, es[0]), es[1..], t)
  }

  /** How often it does. */
  ghost function Bills(s: Cfs, es: seq<Event>, t: Task): nat
    decreases |es|
  {
    if es == [] || !Fairly(s) || !Legal(s, es[0]) then 0
    else One(Schedules(es[0]) && s.current == Some(t)) + Bills(Step(s, es[0]), es[1..], t)
  }

  /** `t` has weight `w` throughout. */
  ghost predicate Weighs(s: Cfs, es: seq<Event>, t: Task, w: nat)
    decreases |es|
  {
    && t in s.wt && s.wt[t] == w
    && (es != [] && Fairly(s) && Legal(s, es[0]) ==> Weighs(Step(s, es[0]), es[1..], t, w))
  }

  /** A tick makes the running task's time grow, and schedule starts it from nothing. */
  lemma StepPending(s: Cfs, e: Event, t: Task)
    requires Fairly(s) && Legal(s, e)
    ensures Pending(Step(s, e), t) ==
            if Schedules(e) then 0 else Pending(s, t) + 10 * One(e.Tick? && s.current == Some(t))
  {
    hide Insert, TotalWeight, Slice, Ticks, Sorted, NoDup, Delta;
  }

  /** `ran` milliseconds and `paid` virtual time go together for weight `w`, with `bills` roundings. */
  predicate InProportion(w: nat, paid: int, ran: int, bills: nat) {
    0 <= paid && w * paid <= 1024 * ran <= w * paid + (w - 1) * bills
  }

  lemma Adds(w: nat, x: int, y: int, a: nat, paid: int, ran: int, bills: nat)
    requires InProportion(w, x, y, a) && InProportion(w, paid, ran, bills)
    ensures InProportion(w, x + paid, y + ran, a + bills)
  {
    Sum(w, x, paid);
    Sum(w - 1, a, bills);
  }

  lemma Sum(w: int, a: int, b: int)
    ensures w * (a + b) == w * a + w * b
  {
  }

  ghost function PaidNow(s: Cfs, e: Event, t: Task): int
    requires Fairly(s) && t in s.vr
  {
    if Schedules(e) then Charged(s, t) else 0
  }

  lemma StepInProportion(s: Cfs, e: Event, t: Task)
    requires Fairly(s) && Legal(s, e) && t in s.vr
    ensures InProportion(s.wt[t], PaidNow(s, e, t),
                         10 * One(e.Tick? && s.current == Some(t)) + Pending(s, t) - Pending(Step(s, e), t),
                         One(Schedules(e) && s.current == Some(t)))
  {
    StepPending(s, e, t);
    ChargeExact(s, t);
    Sum(s.wt[t], Charged(s, t), 1);
    hide Step, Charged;
  }

  lemma {:induction false} PaidInProportion(s: Cfs, es: seq<Event>, t: Task, w: nat)
    requires Fairly(s) && Run(s, es).Some? && t in s.vr && Weighs(s, es, t, w)
    ensures InProportion(w, Paid(s, es, t), 10 * TicksOf(s, es, t) + Pending(s, t) - Pending(Run(s, es).value, t),
                         Bills(s, es, t))
    decreases |es|
  {
    hide Fairly, Step, Legal, Pending, Charged, InProportion, Sorted, NoDup;
    if es == [] {
      Nothing(w);
    } else {
      var e, k := es[0], Step(s, es[0]);
      StepFairly(s, e);
      StepInProportion(s, e, t);
      KeepsTask(s, e, t);
      PaidInProportion(k, es[1..], t, w);
      Adds(w, PaidNow(s, e, t), 10 * One(e.Tick? && s.current == Some(t)) + Pending(s, t) - Pending(k, t),
           One(Schedules(e) && s.current == Some(t)), Paid(k, es[1..], t),
           10 * TicksOf(k, es[1..], t) + Pending(k, t) - Pending(Run(s, es).value, t), Bills(k, es[1..], t));
    }
  }

  lemma Nothing(w: nat)
    ensures InProportion(w, 0, 0, 0)
  {
  }

  lemma KeepsTask(s: Cfs, e: Event, t: Task)
    requires Fairly(s) && Legal(s, e) && t in s.vr
    ensures t in Step(s, e).vr
  {
    hide Insert, TotalWeight, Slice, Ticks, Sorted, NoDup, Delta;
  }

  predicate Wakes(e: Event, t: Task) {
    e.Wakeup? && e.t == t
  }

  /** Between wake-ups nothing but schedule moves a task's virtual time. */
  lemma StepVirtual(s: Cfs, e: Event, t: Task)
    requires Fairly(s) && Legal(s, e) && t in s.vr && !Wakes(e, t)
    ensures t in Step(s, e).vr && Step(s, e).vr[t] == s.vr[t] + PaidNow(s, e, t)
  {
    ChargeExact(s, t);
    hide Insert, TotalWeight, Slice, Ticks, Sorted, NoDup, Delta;
  }

  lemma {:induction false} VirtualTime(s: Cfs, es: seq<Event>, t: Task)
    requires Fairly(s) && Run(s, es).Some? && t in s.vr && forall e | e in es :: !Wakes(e, t)
    ensures t in Run(s, es).value.vr && Run(s, es).value.vr[t] == s.vr[t] + Paid(s, es, t)
    decreases |es|
  {
    hide Fairly, Step, Legal, Charged, Sorted, NoDup;
    if es != [] {
      assert es[0] in es;
      StepFairly(s, es[0]);
      StepVirtual(s, es[0], t);
      VirtualTime(Step(s, es[0]), es[1..], t);
    }
  }

  /**
   * What the scheduler is for: over every run, the virtual time put on a task,
   * times its weight, is 1024 times the milliseconds it ran, up to less than its
   * weight for each time it was charged; and as long as it is not woken up that
   * is all that happens to its virtual time.
   */
  lemma Proportional(s: Cfs, es: seq<Event>, t: Task, w: nat)
    requires Fairly(s) && Run(s, es).Some? && t in s.vr && Weighs(s, es, t, w)
    ensures var ran := 10 * TicksOf(s, es, t) + Pending(s, t) - Pending(Run(s, es).value, t);
            w * Paid(s, es, t) <= 1024 * ran <= w * Paid(s, es, t) + (w - 1) * Bills(s, es, t)
    ensures (forall e | e in es :: !Wakes(e, t)) ==>
              t in Run(s, es).value.vr && Run(s, es).value.vr[t] == s.vr[t] + Paid(s, es, t)
  {
    hide Run, Paid, Bills, TicksOf, Pending, Fairly, Weighs;
    PaidInProportion(s, es, t, w);
    if forall e | e in es :: !Wakes(e, t) {
      VirtualTime(s, es, t);
    }
  }

  // Weights.

  /** One entry of the table against the next. */
  predicate OneStep(w: seq<nat>, i: int) {
    0 <= i < |w| - 1 && 6 * w[i + 1] <= 5 * w[i] && 5 * w[i] <= 7 * w[i + 1]
  }

  lemma HeavySteps(w: seq<nat>, i: int)
    requires w == PrioToWeight() && 0 <= i < 20
    ensures OneStep(w, i)
  {
    assert forall k | 0 <= k < 20 :: 6 * w[k + 1] <= 5 * w[k] && 5 * w[k] <= 7 * w[k + 1];
  }

  lemma LightSteps(w: seq<nat>, i: int)
    requires w == PrioToWeight() && 20 <= i < 39
    ensures OneStep(w, i)
  {
    assert forall k | 20 <= k < 39 :: 6 * w[k + 1] <= 5 * w[k] && 5 * w[k] <= 7 * w[k + 1];
  }

  /** Nice 0 weighs 1024, and one step less of nice weighs between 20 and 40 per cent more. */
  lemma NiceSteps(nice: int)
    requires -20 <= nice < 19
    ensures NiceToWeight(0) == 1024
    ensures 6 * NiceToWeight(nice + 1) <= 5 * NiceToWeight(nice)
    ensures 5 * NiceToWeight(nice) <= 7 * NiceToWeight(nice + 1)
    ensures forall n: int | n < -20 :: NiceToWeight(n) == NiceToWeight(-20)
    ensures forall n: int | n > 19 :: NiceToWeight(n) == NiceToWeight(19)
  {
    var w := PrioToWeight();
    assert w[20] == 1024;
    if nice < 0 {
      HeavySteps(w, nice + 20);
    } else {
      LightSteps(w, nice + 20);
    }
    assert w[nice + 20] == NiceToWeight(nice) && w[nice + 21] == NiceToWeight(nice + 1);
    hide PrioToWeight;
  }
}
