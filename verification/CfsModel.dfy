/**
 The fair scheduler (src/kernel/task/sched.c) as a machine over plain values:
 the ready queue is a list of tasks sorted by virtual run time.  The module
 CfsQueue shows that the red-black tree implements that list.
 */
module CfsModel {
  import opened Prelude
  import opened RbNodes

  const JIFFY: nat := 10              // ms per clock tick
  const SCHED_LATENCY_MS: nat := 100
  const MIN_TIMESLICE_MS: nat := 10
  const SCHED_WAKEUP_GRAN_MS: nat := 2
  const NICE_0_WEIGHT: nat := 1024
  const MIN_WEIGHT: nat := 15         // the weight of nice 19
  const MAX_LAG: nat := 6826          // SCHED_LATENCY_MS * NICE_0_WEIGHT / MIN_WEIGHT

  function PrioToWeight(): (r: seq<nat>)
    ensures |r| == 40
  {
    [88761, 71755, 56864, 45169, 36357, 29110, 23358, 18788, 15122, 12173,
     9809, 7915, 6387, 5169, 4194, 3355, 2684, 2157, 1737, 1399,
     1024, 820, 655, 524, 420, 335, 268, 215, 172, 137,
     110, 87, 70, 56, 45, 36, 29, 23, 18, 15]
  }

  /** sched_nice_to_weight */
  function NiceToWeight(nice: int): nat {
    var n := if nice < -20 then -20 else if nice > 19 then 19 else nice;
    PrioToWeight()[n + 20]
  }

  /** No weight is below MIN_WEIGHT, and a nicer task never weighs more. */
  lemma NiceToWeightAntitone(a: int, b: int)
    requires a <= b
    ensures NiceToWeight(a) >= NiceToWeight(b) >= MIN_WEIGHT
  {
    var w := PrioToWeight();
    assert forall i | 0 <= i < 39 :: w[i] > w[i + 1];
    Descending(w, if a < -20 then 0 else if a > 19 then 39 else a + 20,
               if b < -20 then 0 else if b > 19 then 39 else b + 20);
  }

  lemma {:induction false} Descending(w: seq<nat>, i: nat, j: nat)
    requires i <= j < |w| && forall k | 0 <= k < |w| - 1 :: w[k] > w[k + 1]
    ensures w[i] >= w[j] >= w[|w| - 1]
    decreases |w| - i
  {
    if i < j {
      Descending(w, i + 1, j);
    } else if j < |w| - 1 {
      Descending(w, j + 1, j + 1);
    }
  }

  // ---- the state ------------------------------------------------------------------

  datatype Cfs = Cfs(
    queue: seq<Task>,            // the ready tasks in tree order
    vr: map<Task, nat>,          // vruntime of every task
    wt: map<Task, nat>,          // weight of every task
    min: nat,                    // cfs_min_vruntime
    current: Option<Task>,       // the running task; None is idle
    slice: nat,                  // its sched_slice; 0 for idle
    ticks: int)                  // its remaining ticks; 0 for idle

  ghost function TotalWeight(q: seq<Task>, wt: map<Task, nat>): nat
    requires forall t | t in q :: t in wt
  {
    if q == [] then 0 else wt[q[0]] + TotalWeight(q[1..], wt)
  }

  /** Before every task that is due later, behind every task due as early. */
  ghost function Insert(q: seq<Task>, vr: map<Task, nat>, t: Task): (r: seq<Task>)
    requires t in vr && forall x | x in q :: x in vr
    ensures |r| == |q| + 1 && t in r && (forall x | x in q :: x in r) && (forall x | x in r :: x == t || x in q)
  {
    if q == [] || vr[t] < vr[q[0]] then [t] + q else [q[0]] + Insert(q[1..], vr, t)
  }

  ghost predicate Sorted(q: seq<Task>, vr: map<Task, nat>)
    requires forall x | x in q :: x in vr
  {
    forall i, j | 0 <= i < j < |q| :: vr[q[i]] <= vr[q[j]]
  }

  ghost predicate Shaped(s: Cfs) {
    && s.vr.Keys == s.wt.Keys
    && (forall t | t in s.queue :: t in s.vr)
    && (s.current.Some? ==> s.current.value in s.vr)
    && (forall t | t in s.wt :: s.wt[t] >= MIN_WEIGHT)
  }

  // ---- the operations ---------------------------------------------------------------

  /** __sched_enqueue_rbt: a late-comer starts no earlier than the minimum. */
  ghost function Enqueue(s: Cfs, t: Task): Cfs
    requires Shaped(s) && t in s.vr
  {
    var vr := s.vr[t := Max(s.vr[t], s.min)];
    s.(vr := vr, queue := Insert(s.queue, vr, t))
  }

  /** set_timeslice */
  function Slice(weight: nat, total: nat): nat {
    var ms := if total > 0 then weight * SCHED_LATENCY_MS / total else MIN_TIMESLICE_MS;
    Max(ms, MIN_TIMESLICE_MS)
  }

  function Ticks(slice: nat): nat { Max(slice / JIFFY, 1) }

  /** How far execution for ms moves the virtual clock of a task. */
  function Delta(ms: nat, weight: nat): nat
    requires weight > 0
  {
    ms * NICE_0_WEIGHT / weight
  }

  /** cfs_pick_next, cfs_dequeue and set_timeslice, as schedule combines them. */
  ghost function Pick(s: Cfs): Cfs
    requires Shaped(s)
  {
    if s.queue == [] then s.(current := None, slice := 0, ticks := 0)
    else
      var t := s.queue[0];
      var slice := Slice(s.wt[t], TotalWeight(s.queue, s.wt));
      s.(min := s.vr[t], queue := s.queue[1..], current := Some(t), slice := slice, ticks := Ticks(slice))
  }

  /** The first step of schedule: the running task pays for its time. */
  ghost function Charge(s: Cfs): Cfs
    requires Shaped(s) && (s.current.Some? ==> s.ticks <= Ticks(s.slice))
  {
    if s.current.None? then s
    else
      var t := s.current.value;
      s.(vr := s.vr[t := s.vr[t] + Delta((Ticks(s.slice) - s.ticks) * JIFFY, s.wt[t])])
  }

  /** schedule; runnable says whether the running task is still RUNNING. */
  ghost function Schedule(s: Cfs, runnable: bool): Cfs
    requires Shaped(s) && (s.current.Some? ==> s.ticks <= Ticks(s.slice))
  {
    var s1 := Charge(s);
    Pick(if runnable && s.current.Some? then Enqueue(s1, s.current.value) else s1)
  }

  function Bonus(weight: nat): nat
    requires weight > 0
  {
    SCHED_WAKEUP_GRAN_MS * NICE_0_WEIGHT / weight
  }

  function LessBonus(v: nat, bonus: nat): nat { if v > bonus then v - bonus else 0 }

  /** task_unblock and sched_wakeup_task: each of them takes the bonus off. */
  ghost function Wake(s: Cfs, t: Task): Cfs
    requires Shaped(s) && t in s.vr
  {
    var b := Bonus(s.wt[t]);
    Enqueue(s.(vr := s.vr[t := LessBonus(LessBonus(s.vr[t], b), b)]), t)
  }

  /** task_create and task_fork: a new task starts at the minimum. */
  ghost function Spawn(s: Cfs, t: Task, weight: nat): Cfs
    requires Shaped(s) && t !in s.vr && weight >= MIN_WEIGHT
  {
    Enqueue(s.(vr := s.vr[t := s.min], wt := s.wt[t := weight]), t)
  }

  // ---- the queue ----------------------------------------------------------------------

  /** There is only one place: a list split that way is what Insert gives. */
  lemma {:induction false} InsertUnique(pre: seq<Task>, post: seq<Task>, vr: map<Task, nat>, t: Task)
    requires t in vr && (forall x | x in pre :: x in vr) && (forall x | x in post :: x in vr)
    requires (forall x | x in pre :: vr[x] <= vr[t]) && (forall x | x in post :: vr[t] < vr[x])
    ensures Insert(pre + post, vr, t) == pre + [t] + post
    decreases |pre|
  {
    if pre == [] {
      assert pre + post == post;
    } else {
      assert (pre + post)[1..] == pre[1..] + post;
      InsertUnique(pre[1..], post, vr, t);
      assert [pre[0]] + (pre[1..] + [t] + post) == pre + [t] + post;
    }
  }

  /** Where Insert puts t: behind the k tasks that are due no later. */
  lemma InsertPlace(q: seq<Task>, vr: map<Task, nat>, t: Task) returns (k: nat)
    requires t in vr && (forall x | x in q :: x in vr) && Sorted(q, vr)
    ensures k <= |q| && Insert(q, vr, t) == q[..k] + [t] + q[k..]
    ensures forall i | 0 <= i < k :: vr[q[i]] <= vr[t]
    ensures forall i | k <= i < |q| :: vr[t] < vr[q[i]]
  {
    hide Insert;
    k := 0;
    while k < |q| && vr[q[k]] <= vr[t]
      invariant 0 <= k <= |q| && forall i | 0 <= i < k :: vr[q[i]] <= vr[t]
    {
      k := k + 1;
    }
    assert forall i | k <= i < |q| :: vr[t] < vr[q[i]];
    assert q == q[..k] + q[k..];
    InsertUnique(q[..k], q[k..], vr, t);
  }

  lemma InsertSorted(q: seq<Task>, vr: map<Task, nat>, t: Task)
    requires t in vr && (forall x | x in q :: x in vr) && Sorted(q, vr)
    ensures Sorted(Insert(q, vr, t), vr)
  {
    hide Insert;
    var k := InsertPlace(q, vr, t);
    var r := Insert(q, vr, t);
    forall i, j | 0 <= i < j < |r|
      ensures vr[r[i]] <= vr[r[j]]
    {
      assert r[i] == if i < k then q[i] else if i == k then t else q[i - 1];
      assert r[j] == if j < k then q[j] else if j == k then t else q[j - 1];
    }
  }

  lemma {:induction false} WeightSplit(a: seq<Task>, b: seq<Task>, wt: map<Task, nat>)
    requires (forall t | t in a :: t in wt) && forall t | t in b :: t in wt
    ensures TotalWeight(a + b, wt) == TotalWeight(a, wt) + TotalWeight(b, wt)
  {
    if a == [] {
      assert a + b == b;
    } else {
      assert (a + b)[1..] == a[1..] + b;
      WeightSplit(a[1..], b, wt);
    }
  }

  // ---- bounded lag ------------------------------------------------------------------

  lemma QuotientBound(x: nat, w: nat, m: nat)
    requires w > 0 && x < (m + 1) * w
    ensures x / w <= m
  {
    var q := x / w;
    assert q * w <= x;
    assert q * w < (m + 1) * w;
  }

  lemma DeltaBound(ms: nat, w: nat)
    requires ms <= SCHED_LATENCY_MS && w >= MIN_WEIGHT
    ensures Delta(ms, w) <= MAX_LAG
  {
    assert (MAX_LAG + 1) * MIN_WEIGHT <= (MAX_LAG + 1) * w;
    QuotientBound(ms * NICE_0_WEIGHT, w, MAX_LAG);
  }

  lemma SliceBounds(w: nat, total: nat)
    requires w <= total
    ensures MIN_TIMESLICE_MS <= Slice(w, total) <= SCHED_LATENCY_MS
  {
    if total > 0 {
      QuotientBound(w * SCHED_LATENCY_MS, total, SCHED_LATENCY_MS);
    }
  }

  /** Every ready task is at most MAX_LAG ahead of the minimum and never behind
      it; blocked tasks are not further ahead either. */
  ghost predicate Fairly(s: Cfs) {
    && Shaped(s) && Sorted(s.queue, s.vr) && NoDup(s.queue)
    && (forall t | t in s.queue :: s.min <= s.vr[t])
    && (forall t | t in s.vr :: s.vr[t] <= s.min + MAX_LAG)
    && (s.current.Some? ==>
          && s.current.value !in s.queue && s.vr[s.current.value] == s.min
          && MIN_TIMESLICE_MS <= s.slice <= SCHED_LATENCY_MS && 0 <= s.ticks <= Ticks(s.slice))
  }

  lemma EnqueueFairly(s: Cfs, t: Task)
    requires Shaped(s) && Sorted(s.queue, s.vr) && NoDup(s.queue) && t in s.vr && t !in s.queue
    requires (forall x | x in s.queue :: s.min <= s.vr[x]) && (forall x | x in s.vr :: s.vr[x] <= s.min + MAX_LAG)
    requires s.current.Some? && s.current.value != t ==> s.current.value !in s.queue
    ensures var n := Enqueue(s, t);
            && Shaped(n) && Sorted(n.queue, n.vr) && NoDup(n.queue)
            && (forall x | x in n.queue :: n.min <= n.vr[x]) && (forall x | x in n.vr :: n.vr[x] <= n.min + MAX_LAG)
            && (s.current.Some? && s.current.value != t ==> s.current.value !in n.queue)
  {
    var n := Enqueue(s, t);
    assert Sorted(s.queue, n.vr);
    InsertSorted(s.queue, n.vr, t);
    var k := InsertPlace(s.queue, n.vr, t);
    hide Insert, Sorted;
    InsertMembers(s.queue, k, t);
  }

  lemma InsertMembers(q: seq<Task>, k: nat, t: Task)
    requires k <= |q| && NoDup(q) && t !in q
    ensures NoDup(q[..k] + [t] + q[k..])
    ensures forall x :: x in q[..k] + [t] + q[k..] <==> x == t || x in q
  {
    var r := q[..k] + [t] + q[k..];
    assert forall i | 0 <= i < |r| :: r[i] == if i < k then q[i] else if i == k then t else q[i - 1];
    assert q == q[..k] + q[k..];
  }

  lemma PickFairly(s: Cfs)
    requires Shaped(s) && Sorted(s.queue, s.vr) && NoDup(s.queue)
    requires (forall x | x in s.queue :: s.min <= s.vr[x]) && (forall x | x in s.vr :: s.vr[x] <= s.min + MAX_LAG)
    ensures Fairly(Pick(s)) && Pick(s).min >= s.min
  {
    if s.queue != [] {
      var t := s.queue[0];
      SliceBounds(s.wt[t], TotalWeight(s.queue, s.wt));
    }
  }

  lemma ChargeFairly(s: Cfs)
    requires Fairly(s) && s.current.Some?
    ensures var n := Charge(s);
            && Shaped(n) && Sorted(n.queue, n.vr)
            && (forall x | x in n.queue :: n.min <= n.vr[x]) && (forall x | x in n.vr :: n.vr[x] <= n.min + MAX_LAG)
  {
    var t := s.current.value;
    DeltaBound((Ticks(s.slice) - s.ticks) * JIFFY, s.wt[t]);
  }

  lemma ScheduleFairly(s: Cfs, runnable: bool)
    requires Fairly(s)
    ensures Fairly(Schedule(s, runnable)) && Schedule(s, runnable).min >= s.min
  {
    if s.current.Some? {
      ChargeFairly(s);
      var n := Charge(s);
      if runnable {
        EnqueueFairly(n, s.current.value);
        PickFairly(Enqueue(n, s.current.value));
      } else {
        PickFairly(n);
      }
    } else {
      PickFairly(s);
    }
  }

  lemma WakeFairly(s: Cfs, t: Task)
    requires Fairly(s) && t in s.vr && t !in s.queue && s.current != Some(t)
    ensures Fairly(Wake(s, t)) && Wake(s, t).min == s.min
  {
    var b := Bonus(s.wt[t]);
    EnqueueFairly(s.(vr := s.vr[t := LessBonus(LessBonus(s.vr[t], b), b)]), t);
  }

  lemma SpawnFairly(s: Cfs, t: Task, w: nat)
    requires Fairly(s) && t !in s.vr && w >= MIN_WEIGHT
    ensures Fairly(Spawn(s, t, w)) && Spawn(s, t, w).min == s.min
  {
    EnqueueFairly(s.(vr := s.vr[t := s.min], wt := s.wt[t := w]), t);
  }

  // ---- runs ---------------------------------------------------------------------------

  datatype Event =
    | Tick                           // clock_handler takes a tick off
    | Resched                        // schedule with the task still running
    | Block                          // schedule after task_block or task_exit
    | Wakeup(t: Task)
    | Create(t: Task, weight: nat)
    | Renice(weight: nat)            // task_prepare_user_mode sets the running task's weight

  ghost predicate Legal(s: Cfs, e: Event) {
    match e
    case Tick => s.current.Some? && s.ticks > 0
    case Resched => true
    case Block => s.current.Some?
    case Wakeup(t) => t in s.vr && t !in s.queue && s.current != Some(t)
    case Create(t, w) => t !in s.vr && w >= MIN_WEIGHT
    case Renice(w) => s.current.Some? && w >= MIN_WEIGHT
  }

  ghost function Step(s: Cfs, e: Event): Cfs
    requires Fairly(s) && Legal(s, e)
  {
    match e
    case Tick => s.(ticks := s.ticks - 1)
    case Resched => Schedule(s, true)
    case Block => Schedule(s, false)
    case Wakeup(t) => Wake(s, t)
    case Create(t, w) => Spawn(s, t, w)
    case Renice(w) => s.(wt := s.wt[s.current.value := w])
  }

  ghost function Run(s: Cfs, es: seq<Event>): Option<Cfs>
    decreases |es|
  {
    if es == [] then Some(s)
    else if Fairly(s) && Legal(s, es[0]) then Run(Step(s, es[0]), es[1..])
    else None
  }

  lemma StepFairly(s: Cfs, e: Event)
    requires Fairly(s) && Legal(s, e)
    ensures Fairly(Step(s, e)) && Step(s, e).min >= s.min
  {
    match e
    case Tick =>
    case Resched => ScheduleFairly(s, true);
    case Block => ScheduleFairly(s, false);
    case Wakeup(t) => WakeFairly(s, t);
    case Create(t, w) => SpawnFairly(s, t, w);
    case Renice(w) =>
  }

  /** Over every run the minimum never goes back, the queue stays sorted, and
      every ready task stays within MAX_LAG of the minimum. */
  lemma {:induction false} RunFairly(s: Cfs, es: seq<Event>)
    requires Fairly(s) && Run(s, es).Some?
    ensures Fairly(Run(s, es).value) && Run(s, es).value.min >= s.min
    decreases |es|
  {
    if es != [] {
      StepFairly(s, es[0]);
      RunFairly(Step(s, es[0]), es[1..]);
    }
  }
}
