/** The operations of memory.c on one page; `None` is the panic for lack of a
    free frame. */
module PageOps {
  import opened Prelude
  import opened PageTables
  import opened PageTableProofs
  import opened PageUpdates

  /** get_page hands out user frames only, and panics exactly when there is none. */
  lemma GetPageFrame(m: Mem)
    requires Inv(m)
    ensures StartPage(|m.counts|) <= |m.counts|
    ensures GetPage(m).Some? ==> FreeFrame(m, GetPage(m).value)
    ensures GetPage(m).None? <==> Zeros(m.counts) == 0
    ensures GetPage(m).Some? ==> m.free > 0
  {
    ZerosPositive(m.counts);
    assert StartPage(|m.counts|) <= KERNEL_FRAMES;
  }

  lemma {:induction false} ZerosPositive(s: seq<nat>)
    ensures Zeros(s) > 0 <==> exists i | 0 <= i < |s| :: s[i] == 0
  {
    if s != [] {
      ZerosPositive(s[..|s| - 1]);
      if i :| 0 <= i < |s| && s[i] == 0 {
        assert i < |s| - 1 ==> s[..|s| - 1][i] == 0;
      }
    }
  }

  /** n is m with slot d's table private to p. */
  ghost predicate Privatized(m: Mem, n: Mem, p: Pid, d: int)
    requires Shape(m)
  {
    Inv(n) && TableStep(m, n, p, d) && n.pages == m.pages && HasTable(n, p, d) && Dent(n, p, d).write
  }

  lemma PrivatizedSees(m: Mem, n: Mem, p: Pid, d: int, t: int)
    requires Shape(m) && Privatized(m, n, p, d) && Maps(m, p, d, t)
    ensures Maps(n, p, d, t) && Tent(n, p, d, t) == Tent(m, p, d, t)
  {
  }

  /** get_entry_private (with create). */
  ghost function EntryPrivate(m: Mem, p: Pid, d: int): (r: Option<Mem>)
    requires Inv(m) && p in m.procs && UserSlot(d)
    ensures r.Some? ==> Privatized(m, r.value, p, d)
  {
    GetPageFrame(m);
    var e := Dent(m, p, d);
    if e.present && e.write then Some(m)
    else if e.present && m.counts[e.index] == 1 then
      OwnTableInv(m, p, d);
      Some(OwnTable(m, p, d))
    else if GetPage(m).None? then None
    else if e.present then
      assert p in Holders(m, e.index);
      SplitTableInv(m, p, d, GetPage(m).value);
      Some(SplitTable(m, p, d, GetPage(m).value))
    else
      AddTableInv(m, p, d, GetPage(m).value);
      Some(AddTable(m, p, d, GetPage(m).value))
  }

  /** link_page: an absent page gets a fresh frame. */
  ghost function LinkPage(m: Mem, p: Pid, d: int, t: int): (r: Option<Mem>)
    requires Inv(m) && p in m.procs && UserPage(d, t)
    ensures r.Some? ==> Inv(r.value) && Maps(r.value, p, d, t)
    ensures r.Some? && !Maps(m, p, d, t) ==> Dent(r.value, p, d).write && Tent(r.value, p, d, t).write
  {
    var r1 := EntryPrivate(m, p, d);
    if r1.None? then None
    else
      var n := r1.value;
      GetPageFrame(n);
      if Maps(n, p, d, t) then r1
      else if GetPage(n).None? then None
      else
        AddPageInv(n, p, d, t, GetPage(n).value);
        Some(AddPage(n, p, d, t, GetPage(n).value))
  }

  /** unlink_page once the table is private. */
  ghost function UnlinkPrivate(m: Mem, p: Pid, d: int, t: int): (n: Mem)
    requires Inv(m) && HasTable(m, p, d) && Dent(m, p, d).write && UserPage(d, t)
    ensures Inv(n)
  {
    if !Maps(m, p, d, t) then m
    else
      MappedIsHeld(m, p, d, t);
      DropPageInv(m, p, d, t);
      DropPage(m, p, d, t)
  }

  /** unlink_page: a present page is unmapped and its frame given back. */
  ghost function UnlinkPage(m: Mem, p: Pid, d: int, t: int): (r: Option<Mem>)
    requires Inv(m) && p in m.procs && UserPage(d, t)
    ensures r.Some? ==> Inv(r.value)
  {
    if !HasTable(m, p, d) then Some(m)
    else
      var r1 := EntryPrivate(m, p, d);
      if r1.None? then None else Some(UnlinkPrivate(r1.value, p, d, t))
  }

  /** copy_on_write once the table is private. */
  ghost function CowPrivate(m: Mem, p: Pid, d: int, t: int): (r: Option<Mem>)
    requires Inv(m) && Maps(m, p, d, t) && Dent(m, p, d).write && !Tent(m, p, d, t).readonly
    ensures r.Some? ==> Inv(r.value) && Maps(r.value, p, d, t)
    ensures r.Some? ==> Dent(r.value, p, d).write && Tent(r.value, p, d, t).write
  {
    GetPageFrame(m);
    MappedIsHeld(m, p, d, t);
    if Tent(m, p, d, t).write then Some(m)
    else if m.counts[Walk(m, p, d, t)] == 1 then
      FlagPageInv(m, p, d, t, true, false);
      Some(FlagPage(m, p, d, t, true, false))
    else if GetPage(m).None? then None
    else
      SplitPageInv(m, p, d, t, GetPage(m).value);
      Some(SplitPage(m, p, d, t, GetPage(m).value))
  }

  /** copy_on_write: afterwards the page can be written by p alone. */
  ghost function CopyOnWrite(m: Mem, p: Pid, d: int, t: int): (r: Option<Mem>)
    requires Inv(m) && Maps(m, p, d, t) && !Tent(m, p, d, t).readonly
    ensures r.Some? ==> Inv(r.value) && Maps(r.value, p, d, t)
    ensures r.Some? ==> Dent(r.value, p, d).write && Tent(r.value, p, d, t).write
  {
    var r1 := EntryPrivate(m, p, d);
    if r1.None? then None else CowPrivate(r1.value, p, d, t)
  }
}
