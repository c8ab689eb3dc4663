/**
 The re-entrant mutex over a binary semaphore (src/kernel/sync/mutex.c and
 semaphore.c), with any number of tasks.  Interrupts are off in these functions,
 so what a task does between two blocking calls is one step; the steps of
 different tasks interleave in any order.
 */
module MutexProtocol {
  import opened Prelude

  type Tid = nat

  /** waiters is sem.waiters from head to tail.  A woken task has left the list
      and will look at value again.  depth counts the locks a task has taken and
      not given back; it is what the callers did, not a field of the mutex. */
  datatype State = State(
    value: nat,
    waiters: seq<Tid>,
    holder: Option<Tid>,
    repeat: nat,
    woken: set<Tid>,
    depth: map<Tid, nat>)

  function Depth(s: State, t: Tid): nat { if t in s.depth then s.depth[t] else 0 }

  const INIT: State := State(1, [], None, 0, {}, map[])

  datatype Event =
    | Lock(t: Tid)      // mutex_lock up to its return or to the first task_block
    | Retry(t: Tid)     // a woken task goes round the loop of sem_wait
    | Unlock(t: Tid)    // mutex_unlock

  predicate Legal(s: State, e: Event) {
    match e
    case Lock(t) => t !in s.waiters && t !in s.woken
    case Retry(t) => t in s.woken
    case Unlock(t) => t !in s.waiters && t !in s.woken && Depth(s, t) > 0
  }

  /** sem_wait found value 1; the holder is set. */
  function Acquire(s: State, t: Tid): State {
    s.(value := 0, holder := Some(t), repeat := 1, depth := s.depth[t := Depth(s, t) + 1])
  }

  /** task_block pushes the task at the head of the list. */
  function Wait(s: State, t: Tid): State { s.(waiters := [t] + s.waiters) }

  /** sem_post: the task at the tail of the list is woken. */
  function Post(s: State): State {
    var n := |s.waiters|;
    if n > 0 then s.(value := 1, waiters := s.waiters[..n - 1], woken := s.woken + {s.waiters[n - 1]})
    else s.(value := 1)
  }

  function Step(s: State, e: Event): State {
    match e
    case Lock(t) =>
      if s.holder == Some(t) then s.(repeat := s.repeat + 1, depth := s.depth[t := Depth(s, t) + 1])
      else if s.value == 0 then Wait(s, t)
      else Acquire(s, t)
    case Retry(t) =>
      var s1 := s.(woken := s.woken - {t});
      if s.value == 0 then Wait(s1, t) else Acquire(s1, t)
    case Unlock(t) =>
      var s1 := s.(depth := s.depth[t := if Depth(s, t) > 0 then Depth(s, t) - 1 else 0]);
      if s.repeat > 1 then s1.(repeat := s.repeat - 1)
      else Post(s1.(holder := None, repeat := 0))
  }

  // ---- what every interleaving keeps ---------------------------------------------------

  ghost predicate Inv(s: State) {
    // the semaphore is taken exactly while somebody holds the mutex
    && (if s.holder.Some? then s.value == 0 else s.value == 1)
    // repeat is the holder's nesting, and nobody else is inside
    && (s.holder.Some? ==> s.repeat == Depth(s, s.holder.value) >= 1)
    && (s.holder.None? ==> s.repeat == 0)
    && (forall t | t in s.depth && s.depth[t] > 0 :: s.holder == Some(t))
    // a task is in at most one place
    && NoDup(s.waiters)
    && (forall t | t in s.waiters :: t !in s.woken && Depth(s, t) == 0)
    && (forall t | t in s.woken :: Depth(s, t) == 0)
    // no wake-up is lost
    && (s.value == 1 && s.waiters != [] ==> s.woken != {})
  }

  lemma StepInv(s: State, e: Event)
    requires Inv(s) && Legal(s, e)
    ensures Inv(Step(s, e))
  {
  }

  function Run(s: State, es: seq<Event>): Option<State>
    decreases |es|
  {
    if es == [] then Some(s)
    else if Legal(s, es[0]) then Run(Step(s, es[0]), es[1..])
    else None
  }

  lemma {:induction false} RunInv(s: State, es: seq<Event>)
    requires Inv(s) && Run(s, es).Some?
    ensures Inv(Run(s, es).value)
    decreases |es|
  {
    if es != [] {
      StepInv(s, es[0]);
      RunInv(Step(s, es[0]), es[1..]);
    }
  }

  /** In every state of every interleaving at most one task is between its lock
      and its unlock, and the mutex names it. */
  lemma MutualExclusion(es: seq<Event>, a: Tid, b: Tid)
    requires Run(INIT, es).Some?
    requires Depth(Run(INIT, es).value, a) > 0 && Depth(Run(INIT, es).value, b) > 0
    ensures a == b && Run(INIT, es).value.holder == Some(a)
    ensures Run(INIT, es).value.repeat == Depth(Run(INIT, es).value, a)
  {
    RunInv(INIT, es);
  }

  /** Whenever the mutex is free and somebody waits, some woken task is about to
      look again, and if it looks now it gets the mutex. */
  lemma NoLostWakeup(es: seq<Event>) returns (t: Tid)
    requires Run(INIT, es).Some?
    requires Run(INIT, es).value.value == 1 && Run(INIT, es).value.waiters != []
    ensures var s := Run(INIT, es).value;
            Legal(s, Retry(t)) && Step(s, Retry(t)).holder == Some(t) && Depth(Step(s, Retry(t)), t) == 1
  {
    RunInv(INIT, es);
    var s := Run(INIT, es).value;
    t :| t in s.woken;
  }

  lemma UnlockUndoesLock(s: State, t: Tid)
    requires Inv(s) && Legal(s, Lock(t)) && t !in Step(s, Lock(t)).waiters
    ensures var k := Step(s, Lock(t));
            && Legal(k, Unlock(t)) && k.repeat == Depth(s, t) + 1
            && Step(k, Unlock(t)).holder == s.holder && Step(k, Unlock(t)).repeat == s.repeat
            && Depth(Step(k, Unlock(t)), t) == Depth(s, t)
  {
  }

  /** Waiters are woken first come, first served: the one sem_post wakes has been
      in the list longest, and the others keep their order. */
  lemma WokenInOrder(s: State, t: Tid)
    requires Inv(s) && Legal(s, Unlock(t)) && s.repeat == 1 && s.waiters != []
    ensures var k := Step(s, Unlock(t));
            && s.waiters == k.waiters + [s.waiters[|s.waiters| - 1]]
            && k.woken == s.woken + {s.waiters[|s.waiters| - 1]} && k.value == 1
  {
  }

  // ---- whole runs ----------------------------------------------------------------------

  /** The task whose mutex_lock returns with this step. */
  function Returns(s: State, e: Event): Option<Tid> {
    match e
    case Lock(t) => if s.holder == Some(t) || s.value != 0 then Some(t) else None
    case Retry(t) => if s.value != 0 then Some(t) else None
    case Unlock(_) => None
  }

  /** How often mutex_lock returned to `t` in a run. */
  function Entered(s: State, es: seq<Event>, t: Tid): nat
    decreases |es|
  {
    if es == [] then 0
    else (if Returns(s, es[0]) == Some(t) then 1 else 0) + Entered(Step(s, es[0]), es[1..], t)
  }

  function Left(es: seq<Event>, t: Tid): nat {
    if es == [] then 0 else (if es[0] == Unlock(t) then 1 else 0) + Left(es[1..], t)
  }

  lemma {:induction false} DepthBalance(s: State, es: seq<Event>, t: Tid)
    requires Run(s, es).Some?
    ensures Depth(s, t) + Entered(s, es, t) == Depth(Run(s, es).value, t) + Left(es, t)
    decreases |es|
  {
    if es != [] {
      DepthBalance(Step(s, es[0]), es[1..], t);
    }
  }

  /** The mutex counts how often its holder has come in and not gone out; everybody else has left. */
  lemma Balance(es: seq<Event>, t: Tid)
    requires Run(INIT, es).Some?
    ensures var s := Run(INIT, es).value;
            Entered(INIT, es, t) - Left(es, t) == if s.holder == Some(t) then s.repeat else 0
  {
    RunInv(INIT, es);
    DepthBalance(INIT, es, t);
  }

  // In what order tasks get the mutex.

  /** The task that asks for the mutex without having it. */
  function Asks(s: State, e: Event): seq<Tid> {
    if e.Lock? && s.holder != Some(e.t) then [e.t] else []
  }

  /** The task that gets it. */
  function Gets(s: State, e: Event): seq<Tid> {
    if !e.Unlock? && s.holder != Some(e.t) && s.value != 0 then [e.t] else []
  }

  function Asked(s: State, es: seq<Event>): seq<Tid>
    decreases |es|
  {
    if es == [] then [] else Asks(s, es[0]) + Asked(Step(s, es[0]), es[1..])
  }

  function Got(s: State, es: seq<Event>): seq<Tid>
    decreases |es|
  {
    if es == [] then [] else Gets(s, es[0]) + Got(Step(s, es[0]), es[1..])
  }

  /** A task takes the free mutex while a woken one is still on its way to it. */
  predicate Barges(s: State, e: Event) {
    e.Lock? && s.holder != Some(e.t) && s.value != 0 && s.woken != {}
  }

  predicate NobodyBarges(s: State, es: seq<Event>)
    decreases |es|
  {
    es == [] || (!Barges(s, es[0]) && NobodyBarges(Step(s, es[0]), es[1..]))
  }

  function Reversed(q: seq<Tid>): seq<Tid> {
    if q == [] then [] else Reversed(q[1..]) + [q[0]]
  }

  lemma {:induction false} ReversedLast(q: seq<Tid>)
    requires q != []
    ensures Reversed(q) == [q[|q| - 1]] + Reversed(q[..|q| - 1])
    decreases |q|
  {
    var n := |q| - 1;
    if n > 0 {
      ReversedLast(q[1..]);
      assert q[1..][..n - 1] == q[..n][1..];
    } else {
      assert q[1..] == [] && q[..n] == [];
    }
  }

  /** `asked` is `got` and then those who still wait, the woken one first. */
  predicate Lined(s: State, asked: seq<Tid>, got: seq<Tid>) {
    if s.woken == {} then asked == got + Reversed(s.waiters)
    else |got| < |asked| && s.woken == {asked[|got|]} && s.value == 1
         && asked == got + [asked[|got|]] + Reversed(s.waiters)
  }

  lemma LinedWaits(s: State, t: Tid)
    ensures Reversed(Wait(s, t).waiters) == Reversed(s.waiters) + [t]
  {
    assert ([t] + s.waiters)[1..] == s.waiters;
  }

  lemma LinedStep(s: State, e: Event, asked: seq<Tid>, got: seq<Tid>)
    requires Inv(s) && Legal(s, e) && Lined(s, asked, got) && !Barges(s, e)
    ensures Lined(Step(s, e), asked + Asks(s, e), got + Gets(s, e))
  {
    hide Reversed;
    match e
    case Lock(t) =>
      LinedWaits(s, t);
      assert s.waiters == [] ==> Reversed(s.waiters) == [] by { ReversedNone(); }
    case Retry(t) =>
      assert asked + [] == asked;
    case Unlock(t) =>
      assert asked + [] == asked && got + [] == got;
      if s.repeat <= 1 && s.waiters != [] {
        ReversedLast(s.waiters);
      }
  }

  lemma ReversedNone()
    ensures Reversed([]) == []
  {
  }

  predicate Differ(a: seq<Tid>, b: seq<Tid>) {
    exists i | 0 <= i < |a| && i < |b| :: a[i] != b[i]
  }

  lemma {:induction false} StillDiffer(s: State, es: seq<Event>, asked: seq<Tid>, got: seq<Tid>)
    requires Differ(got, asked)
    ensures !(got + Got(s, es) <= asked + Asked(s, es))
  {
    var i :| 0 <= i < |got| && i < |asked| && got[i] != asked[i];
    assert (got + Got(s, es))[i] != (asked + Asked(s, es))[i];
  }

  lemma {:induction false} LinedRun(s: State, es: seq<Event>, asked: seq<Tid>, got: seq<Tid>)
    requires Inv(s) && Run(s, es).Some? && Lined(s, asked, got)
    ensures got + Got(s, es) <= asked + Asked(s, es) <==> NobodyBarges(s, es)
    decreases |es|
  {
    hide Inv, Lined;
    if es == [] {
      LinedPrefix(s, asked, got);
      assert got + [] == got && asked + [] == asked;
    } else {
      var e, k, rest := es[0], Step(s, es[0]), es[1..];
      var asked1, got1 := asked + Asks(s, e), got + Gets(s, e);
      assert got + Got(s, es) == got1 + Got(k, rest) && asked + Asked(s, es) == asked1 + Asked(k, rest);
      if Barges(s, e) {
        BargingShows(s, e, asked, got);
        StillDiffer(k, rest, asked1, got1);
      } else {
        StepInv(s, e);
        LinedStep(s, e, asked, got);
        LinedRun(k, rest, asked1, got1);
      }
    }
  }

  lemma LinedPrefix(s: State, asked: seq<Tid>, got: seq<Tid>)
    requires Lined(s, asked, got)
    ensures got <= asked
  {
  }

  lemma BargingShows(s: State, e: Event, asked: seq<Tid>, got: seq<Tid>)
    requires Legal(s, e) && Lined(s, asked, got) && Barges(s, e)
    ensures Differ(got + Gets(s, e), asked + Asks(s, e))
  {
    assert (got + Gets(s, e))[|got|] != (asked + Asks(s, e))[|got|];
  }

  /** Tasks get the mutex in the order they asked for it exactly in the runs in which nobody barges. */
  lemma FirstComeExactly(es: seq<Event>)
    requires Run(INIT, es).Some?
    ensures Got(INIT, es) <= Asked(INIT, es) <==> NobodyBarges(INIT, es)
  {
    LinedRun(INIT, es, [], []);
    assert [] + Got(INIT, es) == Got(INIT, es) && [] + Asked(INIT, es) == Asked(INIT, es);
  }

  /** A task that locks again right after its unlock overtakes the one it woke. */
  lemma OvertakingRun(a: Tid, b: Tid)
    requires a != b
    ensures var es := [Lock(a), Lock(b), Unlock(a), Lock(a)];
            Run(INIT, es).Some? && Asked(INIT, es) == [a, b, a] && Got(INIT, es) == [a, a]
  {
    var s1 := Step(INIT, Lock(a));
    var s2 := Step(s1, Lock(b));
    var s3 := Step(s2, Unlock(a));
    assert [Lock(a), Lock(b), Unlock(a), Lock(a)][1..] == [Lock(b), Unlock(a), Lock(a)];
    assert [Lock(b), Unlock(a), Lock(a)][1..] == [Unlock(a), Lock(a)] && [Unlock(a), Lock(a)][1..] == [Lock(a)];
    assert s2.waiters == [b] && s3.woken == {b} && s3.value == 1;
    var s4 := Step(s3, Lock(a));
    assert [Lock(a)][1..] == [];
    assert Run(s4, []).Some? && Asked(s4, []) == [] && Got(s4, []) == [];
    assert Run(s3, [Lock(a)]).Some? && Asked(s3, [Lock(a)]) == [a] && Got(s3, [Lock(a)]) == [a];
    assert Run(s2, [Unlock(a), Lock(a)]).Some? && Asked(s2, [Unlock(a), Lock(a)]) == [a];
    assert Got(s2, [Unlock(a), Lock(a)]) == [a];
    assert Asked(s1, [Lock(b), Unlock(a), Lock(a)]) == [b, a] && Got(s1, [Lock(b), Unlock(a), Lock(a)]) == [a];
  }

  // ---- the code ---------------------------------------------------------------------

  class Mutex {
    var value: nat
    var waiters: seq<Tid>
    var holder: Option<Tid>
    var repeat: nat
    ghost var woken: set<Tid>
    ghost var depth: map<Tid, nat>

    ghost function S(): State
      reads this
    {
      State(value, waiters, holder, repeat, woken, depth)
    }

    /** mutex_init and sem_init */
    constructor ()
      ensures S() == INIT && Inv(S())
    {
      holder, repeat, value, waiters := None, 0, 1, [];
      woken, depth := {}, map[];
    }

    /** One look of sem_wait at value, and the end of mutex_lock if it succeeds. */
    method TryAcquire(current: Tid) returns (got: bool)
      requires if holder.Some? then value == 0 else value == 1 && repeat == 0
      modifies this
      ensures got <==> old(value) != 0
      ensures S() == if got then Acquire(old(S()), current) else Wait(old(S()), current)
    {
      if value == 0 {
        waiters := [current] + waiters;
        return false;
      }
      assert value == 1;
      value := value - 1;
      assert repeat == 0 && holder == None;
      holder, repeat := Some(current), 1;
      depth := depth[current := Depth(old(S()), current) + 1];
      return true;
    }

    /** mutex_lock, until it returns or blocks. */
    method Lock(current: Tid) returns (got: bool)
      requires Inv(S()) && Legal(S(), Event.Lock(current))
      modifies this
      ensures Inv(S()) && S() == Step(old(S()), Event.Lock(current))
      ensures got <==> holder == Some(current)
    {
      StepInv(S(), Event.Lock(current));
      if holder != Some(current) {
        got := TryAcquire(current);
      } else {
        repeat := repeat + 1;
        depth := depth[current := Depth(old(S()), current) + 1];
        got := true;
      }
    }

    /** A woken task's next round in sem_wait. */
    method Resume(current: Tid) returns (got: bool)
      requires Inv(S()) && Legal(S(), Retry(current))
      modifies this
      ensures Inv(S()) && S() == Step(old(S()), Retry(current))
      ensures got <==> holder == Some(current)
    {
      StepInv(S(), Retry(current));
      woken := woken - {current};
      got := TryAcquire(current);
    }

    /** mutex_unlock and sem_post: returns the task that was woken, if any. */
    method Unlock(current: Tid) returns (next: Option<Tid>)
      requires Inv(S()) && Legal(S(), Event.Unlock(current))
      modifies this
      ensures Inv(S()) && S() == Step(old(S()), Event.Unlock(current))
      ensures next.Some? ==> next.value in woken && next.value in old(waiters)
    {
      StepInv(S(), Event.Unlock(current));
      assert holder == Some(current);
      next := None;
      depth := depth[current := Depth(S(), current) - 1];
      if repeat > 1 {
        repeat := repeat - 1;
      } else {
        assert repeat == 1;
        holder, repeat := None, 0;
        assert value == 0;
        value := value + 1;
        if waiters != [] {
          var task := waiters[|waiters| - 1];
          waiters := waiters[..|waiters| - 1];
          woken := woken + {task};
          next := Some(task);
        }
      }
    }
  }
}
