/** The states inside the nested loops of copy_pde and free_pde. */
module PageLoops {
  import opened Prelude
  import opened PageTables
  import opened PageTableProofs
  import opened PageFork

  // ---- copy_pde ---------------------------------------------------------------------

  /** Has copy_pde reached this use, when it is at table slot t of directory slot
      d?  At t == -1 the directory entry d itself is still to come. */
  predicate Reached(u: Use, d: int, t: int) {
    match u
    case Unused => false
    case TableOf(x) => x < d || (x == d && t >= 0)
    case DataOf(x, y) => x < d || (x == d && y < t)
  }

  ghost function SharedCounts(m: Mem, p: Pid, d: int, t: int): (r: seq<nat>)
    requires Shape(m)
    ensures |r| == |m.counts|
  {
    seq(|m.counts|, f requires 0 <= f < |m.counts| => m.counts[f] + One(Holds(m, p, f) && Reached(m.uses[f], d, t)))
  }

  function SharedDir(dir: seq<Entry>, d: int, t: int): seq<Entry> {
    seq(|dir|, x requires 0 <= x < |dir| =>
          if UserSlot(x) && Reached(TableOf(x), d, t) then ReadOnly(dir[x]) else dir[x])
  }

  function SharedTable(table: seq<Entry>, x: int, d: int, t: int): seq<Entry> {
    seq(|table|, y requires 0 <= y < |table| => if Reached(DataOf(x, y), d, t) then ReadOnly(table[y]) else table[y])
  }

  ghost function SharedTables(m: Mem, p: Pid, d: int, t: int): (r: seq<seq<Entry>>)
    requires Shape(m)
    ensures |r| == |m.tables|
  {
    seq(|m.tables|, f requires 0 <= f < |m.tables| =>
      if Holds(m, p, f) && m.uses[f].TableOf? then SharedTable(m.tables[f], m.uses[f].d, d, t) else m.tables[f])
  }

  /** The state in the middle of copy_pde. */
  ghost function Sharing(m: Mem, p: Pid, d: int, t: int): Mem
    requires Shape(m) && p in m.procs
  {
    m.(counts := SharedCounts(m, p, d, t),
       procs := m.procs[p := m.procs[p].(dir := SharedDir(m.procs[p].dir, d, t))],
       tables := SharedTables(m, p, d, t))
  }

  lemma SharingStart(m: Mem, p: Pid)
    requires Inv(m) && p in m.procs
    ensures Sharing(m, p, FIRST_SLOT, -1) == m
  {
    var n := Sharing(m, p, FIRST_SLOT, -1);
    hide Exact, Exclusive, Holders;
    assert n.counts == m.counts;
    forall f | 0 <= f < |m.tables| ensures n.tables[f] == m.tables[f] {
      if Holds(m, p, f) && m.uses[f].TableOf? {
        assert SharedTable(m.tables[f], m.uses[f].d, FIRST_SLOT, -1) == m.tables[f];
      }
    }
    assert n.tables == m.tables;
    assert SharedDir(m.procs[p].dir, FIRST_SLOT, -1) == m.procs[p].dir;
    assert n.procs == m.procs;
  }

  lemma SharingNextSlot(m: Mem, p: Pid, d: int)
    requires Inv(m) && p in m.procs && UserSlot(d)
    ensures Sharing(m, p, d, ENTRIES) == Sharing(m, p, d + 1, -1)
  {
    hide Exact, Exclusive, Holders;
    forall f | 0 <= f < |m.uses| ensures Reached(m.uses[f], d, ENTRIES) == Reached(m.uses[f], d + 1, -1) {
    }
    assert SharedCounts(m, p, d, ENTRIES) == SharedCounts(m, p, d + 1, -1);
    assert SharedDir(m.procs[p].dir, d, ENTRIES) == SharedDir(m.procs[p].dir, d + 1, -1);
    forall f | 0 <= f < |m.tables| && m.uses[f].TableOf?
      ensures SharedTable(m.tables[f], m.uses[f].d, d, ENTRIES) == SharedTable(m.tables[f], m.uses[f].d, d + 1, -1)
    {
    }
    assert SharedTables(m, p, d, ENTRIES) == SharedTables(m, p, d + 1, -1);
  }

  /** An absent directory entry is skipped. */
  lemma SharingSkipSlot(m: Mem, p: Pid, d: int)
    requires Inv(m) && p in m.procs && UserSlot(d) && !Dent(m, p, d).present
    ensures Sharing(m, p, d, -1) == Sharing(m, p, d + 1, -1)
  {
    hide Exact, Exclusive;
    forall f | 0 <= f < |m.uses| && Holds(m, p, f)
      ensures Reached(m.uses[f], d, -1) == Reached(m.uses[f], d + 1, -1)
    {
    }
    assert SharedCounts(m, p, d, -1) == SharedCounts(m, p, d + 1, -1);
    assert SharedDir(m.procs[p].dir, d, -1) == SharedDir(m.procs[p].dir, d + 1, -1);
    forall f | 0 <= f < |m.tables| && Holds(m, p, f) && m.uses[f].TableOf?
      ensures SharedTable(m.tables[f], m.uses[f].d, d, -1) == SharedTable(m.tables[f], m.uses[f].d, d + 1, -1)
    {
    }
    assert SharedTables(m, p, d, -1) == SharedTables(m, p, d + 1, -1);
  }

  /** Only frame i's use is newly reached, so only its count changes. */
  lemma SharedCountsStep(m: Mem, p: Pid, d: int, t: int, i: nat)
    requires Shape(m) && i < |m.counts| && Holds(m, p, i)
    requires !Reached(m.uses[i], d, t) && Reached(m.uses[i], d, t + 1)
    requires forall f | 0 <= f < |m.uses| && Holds(m, p, f) && f != i ::
               Reached(m.uses[f], d, t + 1) == Reached(m.uses[f], d, t)
    ensures SharedCounts(m, p, d, t)[i] == m.counts[i]
    ensures SharedCounts(m, p, d, t + 1) == SharedCounts(m, p, d, t)[i := m.counts[i] + 1]
  {
  }

  lemma SharedTablesSame(m: Mem, p: Pid, d: int, t: int)
    requires Shape(m)
    requires forall f | 0 <= f < |m.tables| && Holds(m, p, f) && m.uses[f].TableOf? ::
               SharedTable(m.tables[f], m.uses[f].d, d, t) == SharedTable(m.tables[f], m.uses[f].d, d, t + 1)
    ensures SharedTables(m, p, d, t + 1) == SharedTables(m, p, d, t)
  {
  }

  lemma SharingTableCounts(m: Mem, p: Pid, d: int)
    requires Inv(m) && p in m.procs && UserSlot(d) && Dent(m, p, d).present
    ensures var i := Dent(m, p, d).index;
            && i < |m.counts| && m.counts[i] > 0
            && SharedCounts(m, p, d, -1)[i] == m.counts[i]
            && SharedCounts(m, p, d, 0) == SharedCounts(m, p, d, -1)[i := m.counts[i] + 1]
  {
    hide Exclusive, SharedCounts;
    var i := Dent(m, p, d).index;
    assert p in Holders(m, i);
    SharedCountsStep(m, p, d, -1, i);
  }

  lemma SharingTableTables(m: Mem, p: Pid, d: int)
    requires Shape(m)
    ensures SharedTables(m, p, d, 0) == SharedTables(m, p, d, -1)
  {
    forall f | 0 <= f < |m.tables| && Holds(m, p, f) && m.uses[f].TableOf?
      ensures SharedTable(m.tables[f], m.uses[f].d, d, -1) == SharedTable(m.tables[f], m.uses[f].d, d, 0)
    {
    }
    SharedTablesSame(m, p, d, -1);
  }

  /** The directory entry loses its write bit and its table gains a reference. */
  lemma SharingTable(m: Mem, p: Pid, d: int)
    requires Inv(m) && p in m.procs && UserSlot(d) && Dent(m, p, d).present
    ensures var k := Sharing(m, p, d, -1); var i := Dent(m, p, d).index;
            && Dent(k, p, d) == Dent(m, p, d) && i < |k.counts| && k.counts[i] == m.counts[i] > 0
            && Sharing(m, p, d, 0)
                == SetDent(k.(counts := k.counts[i := k.counts[i] + 1]), p, d, Dent(m, p, d).(write := false))
  {
    hide Roles, Exact, Exclusive, SharedCounts, SharedTables;
    SharingTableCounts(m, p, d);
    SharingTableTables(m, p, d);
    assert SharedDir(m.procs[p].dir, d, 0) == SharedDir(m.procs[p].dir, d, -1)[d := Dent(m, p, d).(write := false)];
  }

  lemma SharedEntrySame(m: Mem, p: Pid, d: int, t: int, f: nat)
    requires Inv(m) && p in m.procs && UserPage(d, t) && Dent(m, p, d).present
    requires f < |m.tables| && Holds(m, p, f) && m.uses[f].TableOf?
    requires f == Dent(m, p, d).index ==> !m.tables[f][t].present
    ensures SharedTable(m.tables[f], m.uses[f].d, d, t) == SharedTable(m.tables[f], m.uses[f].d, d, t + 1)
  {
    hide Exact, Exclusive;
    if m.uses[f].d == d {
      assert f == Dent(m, p, d).index;
    }
  }

  /** An absent table entry is skipped. */
  lemma SharingSkipEntry(m: Mem, p: Pid, d: int, t: int)
    requires Inv(m) && p in m.procs && UserPage(d, t) && Dent(m, p, d).present
    requires Dent(m, p, d).index < |m.tables| && !m.tables[Dent(m, p, d).index][t].present
    ensures Sharing(m, p, d, t + 1) == Sharing(m, p, d, t)
    ensures Sharing(m, p, d, t).tables[Dent(m, p, d).index][t] == m.tables[Dent(m, p, d).index][t]
  {
    hide Exact, Exclusive;
    forall f | 0 <= f < |m.uses| && Holds(m, p, f) ensures Reached(m.uses[f], d, t) == Reached(m.uses[f], d, t + 1) {
    }
    assert SharedCounts(m, p, d, t + 1) == SharedCounts(m, p, d, t);
    assert SharedDir(m.procs[p].dir, d, t + 1) == SharedDir(m.procs[p].dir, d, t);
    hide Holders;
    forall f | 0 <= f < |m.tables| && Holds(m, p, f) && m.uses[f].TableOf?
      ensures SharedTable(m.tables[f], m.uses[f].d, d, t) == SharedTable(m.tables[f], m.uses[f].d, d, t + 1)
    {
      SharedEntrySame(m, p, d, t, f);
    }
    SharedTablesSame(m, p, d, t);
  }

  lemma SharingEntryCounts(m: Mem, p: Pid, d: int, t: int)
    requires Inv(m) && Maps(m, p, d, t)
    ensures var i := Walk(m, p, d, t);
            && i < |m.counts| && m.counts[i] > 0
            && SharedCounts(m, p, d, t)[i] == m.counts[i]
            && SharedCounts(m, p, d, t + 1) == SharedCounts(m, p, d, t)[i := m.counts[i] + 1]
  {
    hide Exclusive, SharedCounts;
    var i := Walk(m, p, d, t);
    assert p in Holders(m, i);
    SharedCountsStep(m, p, d, t, i);
  }

  lemma SharingEntryTables(m: Mem, p: Pid, d: int, t: int)
    requires Inv(m) && Maps(m, p, d, t)
    ensures var i := Dent(m, p, d).index; var e := m.tables[i][t]; var k := SharedTables(m, p, d, t);
            && k[i][t] == e && |k[i]| == ENTRIES
            && SharedTables(m, p, d, t + 1) == k[i := k[i][t := e.(write := false)]]
  {
    hide Exclusive;
    var i := Dent(m, p, d).index;
    assert p in Holders(m, i) && Holds(m, p, i);
    var k := SharedTables(m, p, d, t);
    var n := SharedTables(m, p, d, t + 1);
    assert n[i] == k[i][t := m.tables[i][t].(write := false)];
    hide Holders;
    forall f | 0 <= f < |m.tables| && f != i ensures n[f] == k[f] {
      if Holds(m, p, f) && m.uses[f].TableOf? {
        SharedEntrySame(m, p, d, t, f);
      }
    }
  }

  /** A table entry loses its write bit and its frame gains a reference. */
  lemma SharingEntry(m: Mem, p: Pid, d: int, t: int)
    requires Inv(m) && Maps(m, p, d, t)
    ensures var k := Sharing(m, p, d, t); var i := Dent(m, p, d).index; var e := m.tables[i][t];
            && k.tables[i][t] == e && |k.tables[i]| == ENTRIES
            && e.index < |k.counts| && k.counts[e.index] == m.counts[e.index] > 0
            && Sharing(m, p, d, t + 1)
               == SetTent(k.(counts := k.counts[e.index := k.counts[e.index] + 1]), i, t, e.(write := false))
  {
    hide Roles, Exact, Exclusive, SharedCounts, SharedTables;
    SharingEntryCounts(m, p, d, t);
    SharingEntryTables(m, p, d, t);
    assert SharedDir(m.procs[p].dir, d, t + 1) == SharedDir(m.procs[p].dir, d, t);
  }

  lemma SharingDent(m: Mem, p: Pid, d: int, t: int)
    requires Shape(m) && p in m.procs && UserSlot(d)
    ensures Dent(Sharing(m, p, d, t), p, d).index == Dent(m, p, d).index
    ensures Dent(Sharing(m, p, d, t), p, d).present == Dent(m, p, d).present
  {
  }

  /** After the last slot the child's directory is a copy of the parent's. */
  lemma SharingEnd(m: Mem, p: Pid, c: Pid)
    requires Inv(m) && p in m.procs && c !in m.procs
    ensures var k := Sharing(m, p, END_SLOT, -1);
            p in k.procs && k.(procs := k.procs[c := k.procs[p]]) == ForkSpace(m, p, c)
  {
    hide Exact, Exclusive;
    var k := Sharing(m, p, END_SLOT, -1);
    var n := ForkSpace(m, p, c);
    assert forall f | 0 <= f < |m.uses| && Holds(m, p, f) :: m.uses[f] != Unused;
    hide Holders;
    assert k.counts == n.counts;
    forall f | 0 <= f < |m.tables| ensures k.tables[f] == n.tables[f] {
      if Holds(m, p, f) && m.uses[f].TableOf? {
        assert SharedTable(m.tables[f], m.uses[f].d, END_SLOT, -1) == ReadOnlyTable(m.tables[f]);
      }
    }
    assert k.tables == n.tables;
    assert SharedDir(m.procs[p].dir, END_SLOT, -1) == ReadOnlyDir(m.procs[p].dir);
  }

  // ---- free_pde ---------------------------------------------------------------------

  /** Has free_pde given this use back, when it is at table slot t of directory
      slot d?  The table itself goes after its entries. */
  predicate Passed(u: Use, d: int, t: int) {
    match u
    case Unused => false
    case TableOf(x) => x < d
    case DataOf(x, y) => x < d || (x == d && y < t)
  }

  ghost predicate Countable(m: Mem, p: Pid)
    requires Shape(m)
  {
    forall f | 0 <= f < |m.counts| && Holds(m, p, f) :: m.counts[f] > 0
  }

  ghost function FreedCounts(m: Mem, p: Pid, d: int, t: int): (r: seq<nat>)
    requires Shape(m) && Countable(m, p)
    ensures |r| == |m.counts|
  {
    seq(|m.counts|, f requires 0 <= f < |m.counts| => m.counts[f] - One(Holds(m, p, f) && Passed(m.uses[f], d, t)))
  }

  ghost function FreedUses(m: Mem, counts: seq<nat>): (r: seq<Use>)
    requires |counts| == |m.uses|
    ensures |r| == |m.uses|
  {
    seq(|m.uses|, f requires 0 <= f < |m.uses| => if KERNEL_FRAMES <= f && counts[f] == 0 then Unused else m.uses[f])
  }

  /** The state in the middle of free_pde. */
  ghost function Freeing(m: Mem, p: Pid, d: int, t: int): Mem
    requires Shape(m) && Countable(m, p)
  {
    var counts := FreedCounts(m, p, d, t);
    m.(counts := counts, uses := FreedUses(m, counts), free := m.free + Zeros(counts) - Zeros(m.counts))
  }

  lemma FreeingStart(m: Mem, p: Pid)
    requires Inv(m) && Countable(m, p)
    ensures Freeing(m, p, FIRST_SLOT, 0) == m
  {
    hide Exclusive, Holders;
    assert FreedCounts(m, p, FIRST_SLOT, 0) == m.counts;
    assert FreedUses(m, m.counts) == m.uses;
  }

  /** One put_page: only frame i is newly passed. */
  lemma FreeingPut(m: Mem, p: Pid, i: nat, d: int, t: int, d2: int, t2: int)
    requires Inv(m) && Countable(m, p) && i < |m.counts| && Holds(m, p, i)
    requires !Passed(m.uses[i], d, t) && Passed(m.uses[i], d2, t2)
    requires forall f | 0 <= f < |m.uses| && Holds(m, p, f) && f != i ::
               Passed(m.uses[f], d2, t2) == Passed(m.uses[f], d, t)
    ensures var k := Freeing(m, p, d, t);
            k.counts[i] == m.counts[i] > 0 && Freeing(m, p, d2, t2) == PutPage(k, i)
  {
    hide Roles, Exact, Exclusive, Holders;
    var c := FreedCounts(m, p, d, t);
    assert c[i] == m.counts[i];
    assert FreedCounts(m, p, d2, t2) == c[i := m.counts[i] - 1];
    ZerosUpdate(c, i, c[i] - 1);
    if c[i] == 1 {
      assert FreedUses(m, c[i := 0]) == FreedUses(m, c)[i := Unused];
    } else {
      assert FreedUses(m, c[i := c[i] - 1]) == FreedUses(m, c);
    }
  }

  /** Nothing is newly passed. */
  lemma FreeingSkip(m: Mem, p: Pid, d: int, t: int, d2: int, t2: int)
    requires Shape(m) && Countable(m, p)
    requires forall f | 0 <= f < |m.uses| && Holds(m, p, f) ::
               Passed(m.uses[f], d2, t2) == Passed(m.uses[f], d, t)
    ensures Freeing(m, p, d2, t2) == Freeing(m, p, d, t)
  {
    assert FreedCounts(m, p, d2, t2) == FreedCounts(m, p, d, t);
  }

  lemma FreeingSkipSlot(m: Mem, p: Pid, d: int)
    requires Inv(m) && Countable(m, p) && p in m.procs && UserSlot(d) && !Dent(m, p, d).present
    ensures Freeing(m, p, d + 1, 0) == Freeing(m, p, d, 0)
  {
    hide Exact, Exclusive;
    FreeingSkip(m, p, d, 0, d + 1, 0);
  }

  lemma FreeingSkipEntry(m: Mem, p: Pid, d: int, t: int)
    requires Inv(m) && Countable(m, p) && p in m.procs && UserPage(d, t) && !Maps(m, p, d, t)
    ensures Freeing(m, p, d, t + 1) == Freeing(m, p, d, t)
  {
    hide Exact, Exclusive;
    FreeingSkip(m, p, d, t, d, t + 1);
  }

  lemma FreeingEntry(m: Mem, p: Pid, d: int, t: int)
    requires Inv(m) && Countable(m, p) && Maps(m, p, d, t)
    ensures var k := Freeing(m, p, d, t); var i := Walk(m, p, d, t);
            i < |k.counts| && k.counts[i] > 0 && Freeing(m, p, d, t + 1) == PutPage(k, i)
  {
    hide Exact, Exclusive;
    var i := Walk(m, p, d, t);
    assert p in Holders(m, i);
    FreeingPut(m, p, i, d, t, d, t + 1);
  }

  lemma FreeingTable(m: Mem, p: Pid, d: int)
    requires Inv(m) && Countable(m, p) && HasTable(m, p, d)
    ensures var k := Freeing(m, p, d, ENTRIES); var i := Dent(m, p, d).index;
            i < |k.counts| && k.counts[i] > 0 && Freeing(m, p, d + 1, 0) == PutPage(k, i)
  {
    hide Exact, Exclusive;
    var i := Dent(m, p, d).index;
    assert p in Holders(m, i);
    FreeingPut(m, p, i, d, ENTRIES, d + 1, 0);
  }

  lemma FreeingEnd(m: Mem, p: Pid)
    requires Inv(m) && Countable(m, p) && p in m.procs
    ensures Freeing(m, p, END_SLOT, 0).(procs := m.procs - {p}) == ExitSpace(m, p)
  {
    hide Exact, Exclusive;
    assert forall f | 0 <= f < |m.uses| && Holds(m, p, f) :: Passed(m.uses[f], END_SLOT, 0);
    hide Holders;
    assert FreedCounts(m, p, END_SLOT, 0) == Released(m, p);
    assert FreedUses(m, Released(m, p)) == ExitSpace(m, p).uses;
  }
}
