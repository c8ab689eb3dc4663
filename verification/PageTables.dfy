/**
 User address spaces with copy-on-write sharing (src/kernel/mm/memory.c).

 A process has a page directory; a directory entry names a frame holding a
 page table; a table entry names a frame holding data.  Fork shares the tables
 as well as the data, and sharing is undone lazily at both levels.  This module
 holds the state and every operation as a function on it; `None` is a kernel
 panic.  PageTableProofs proves the invariant, and CowRefinement relates the
 state to a machine whose fork copies every page at once.
 */
module PageTables {
  import opened Prelude

  const KERNEL_FRAMES: nat := 4096     // 16 MB, mapped one to one by mapping_init
  const LOW_FRAMES: nat := 256         // frames below MEMORY_BASE
  const MAX_FRAMES: nat := 0x100000    // a page entry holds a 20-bit frame index
  const FIRST_SLOT: nat := 4           // user directory slots are FIRST_SLOT..END_SLOT
  const END_SLOT: nat := 64            // USER_STACK_TOP >> 22
  const ENTRIES: nat := 1024
  const PAGE_SIZE: nat := 4096
  const STACK_BOTTOM_PAGE: nat := 63 * 1024   // USER_STACK_BOTTOM >> 12

  type Pid = nat
  type Page = seq<bv8>

  datatype Entry = Entry(present: bool, write: bool, readonly: bool, index: nat)
  datatype VPage = VPage(d: int, t: int)
  datatype Proc = Proc(dir: seq<Entry>, brk: int, vmap: set<VPage>)   // brk as a page number

  /** What a user frame serves as.  The kernel does not store this; it is
      determined by the directories and tables, and the operations carry it
      along so that it can be talked about. */
  datatype Use = Unused | TableOf(d: int) | DataOf(d: int, t: int)

  datatype Mem = Mem(
    counts: seq<nat>,          // memory_map
    free: int,                 // free_pages
    procs: map<Pid, Proc>,
    tables: seq<seq<Entry>>,   // frame contents read as page tables
    pages: seq<Page>,          // frame contents read as data
    uses: seq<Use>)

  predicate UserSlot(d: int) { FIRST_SLOT <= d < END_SLOT }
  predicate UserPage(d: int, t: int) { UserSlot(d) && 0 <= t < ENTRIES }

  function PageNumber(v: VPage): int { v.d * ENTRIES + v.t }

  ghost predicate Shape(m: Mem) {
    && KERNEL_FRAMES + LOW_FRAMES <= |m.counts| <= MAX_FRAMES
    && |m.tables| == |m.pages| == |m.uses| == |m.counts|
    && (forall p | p in m.procs :: |m.procs[p].dir| == ENTRIES)
    && (forall f | 0 <= f < |m.tables| :: |m.tables[f]| == ENTRIES)
    && (forall f | 0 <= f < |m.pages| :: |m.pages[f]| == PAGE_SIZE)
  }

  // ---- walking the two levels -------------------------------------------

  /** The directory entry of slot d. */
  function Dent(m: Mem, p: Pid, d: int): Entry
    requires p in m.procs && 0 <= d < |m.procs[p].dir|
  {
    m.procs[p].dir[d]
  }

  /** The table entry reached through a present directory entry. */
  ghost function Tent(m: Mem, p: Pid, d: int, t: int): Entry
    requires Shape(m) && p in m.procs && UserPage(d, t)
    requires Dent(m, p, d).index < |m.tables|
  {
    m.tables[Dent(m, p, d).index][t]
  }

  ghost predicate Maps(m: Mem, p: Pid, d: int, t: int)
    requires Shape(m)
  {
    && p in m.procs && UserPage(d, t)
    && Dent(m, p, d).present && Dent(m, p, d).index < |m.tables|
    && Tent(m, p, d, t).present
  }

  /** The frame a mapped page reaches. */
  ghost function Walk(m: Mem, p: Pid, d: int, t: int): nat
    requires Shape(m) && Maps(m, p, d, t)
  {
    Tent(m, p, d, t).index
  }

  // ---- reference counts ---------------------------------------------------

  /** The processes that hold frame f in its use. */
  ghost function Holders(m: Mem, f: nat): set<Pid>
    requires Shape(m) && f < |m.uses|
  {
    match m.uses[f]
    case Unused => {}
    case TableOf(d) =>
      set p | p in m.procs && UserSlot(d) && Dent(m, p, d).present && Dent(m, p, d).index == f
    case DataOf(d, t) =>
      set p | p in m.procs && Maps(m, p, d, t) && Walk(m, p, d, t) == f
  }

  function Zeros(s: seq<nat>): nat {
    if s == [] then 0 else Zeros(s[..|s| - 1]) + (if s[|s| - 1] == 0 then 1 else 0)
  }

  /** By how much free_pages exceeds the number of free frames: mapping_init
      marks the frames up to KERNEL_FRAMES without taking them off free_pages. */
  function Slack(total: nat): int {
    KERNEL_FRAMES - LOW_FRAMES - (total + PAGE_SIZE - 1) / PAGE_SIZE
  }

  // ---- the invariant --------------------------------------------------------

  /** Every frame has one use, and every reference agrees with it. */
  ghost predicate Roles(m: Mem)
    requires Shape(m)
  {
    && (forall p, d: int | p in m.procs && UserSlot(d) && Dent(m, p, d).present ::
          KERNEL_FRAMES <= Dent(m, p, d).index < |m.uses| && m.uses[Dent(m, p, d).index] == TableOf(d))
    && (forall p, d: int, t: int | Maps(m, p, d, t) ::
          KERNEL_FRAMES <= Walk(m, p, d, t) < |m.uses| && m.uses[Walk(m, p, d, t)] == DataOf(d, t))
    && (forall f | 0 <= f < |m.uses| && m.uses[f].TableOf? :: UserSlot(m.uses[f].d))
    && (forall f | 0 <= f < |m.uses| && m.uses[f].DataOf? :: UserPage(m.uses[f].d, m.uses[f].t))
  }

  /** memory_map counts the holders exactly; kernel frames stay at one. */
  ghost predicate Exact(m: Mem)
    requires Shape(m)
  {
    && (forall f | KERNEL_FRAMES <= f < |m.counts| :: m.counts[f] == |Holders(m, f)|)
    && (forall f | KERNEL_FRAMES <= f < |m.counts| :: m.uses[f] == Unused <==> m.counts[f] == 0)
    && (forall f | 0 <= f < KERNEL_FRAMES :: m.counts[f] == 1)
  }

  /** A writable directory entry names a table nobody else holds; a writable
      table entry names a data frame nobody else holds and is not read-only. */
  ghost predicate Exclusive(m: Mem)
    requires Shape(m)
  {
    && (forall p, d: int | p in m.procs && UserSlot(d) && Dent(m, p, d).present && Dent(m, p, d).write ::
          Dent(m, p, d).index < |m.counts| && m.counts[Dent(m, p, d).index] == 1)
    && (forall p, d: int, t: int | Maps(m, p, d, t) && Tent(m, p, d, t).write ::
          && Walk(m, p, d, t) < |m.counts| && m.counts[Walk(m, p, d, t)] == 1
          && !Tent(m, p, d, t).readonly)
  }

  ghost predicate FreeAgrees(m: Mem) {
    m.free == Zeros(m.counts) + Slack(|m.counts|)
  }

  ghost predicate Inv(m: Mem) {
    Shape(m) && Roles(m) && Exact(m) && Exclusive(m) && FreeAgrees(m)
  }

  // ---- frame allocation -------------------------------------------------

  /** The first free frame at or after i, as get_page scans for it. */
  function FirstFree(counts: seq<nat>, i: nat): (r: Option<nat>)
    requires i <= |counts|
    ensures r.Some? ==> i <= r.value < |counts| && counts[r.value] == 0
    ensures r.Some? ==> forall j | i <= j < r.value :: counts[j] != 0
    ensures r.None? ==> forall j | i <= j < |counts| :: counts[j] != 0
    decreases |counts| - i
  {
    if i == |counts| then None
    else if counts[i] == 0 then Some(i)
    else FirstFree(counts, i + 1)
  }

  /** start_page: the scan begins behind the memory map itself. */
  function StartPage(total: nat): nat { LOW_FRAMES + (total + PAGE_SIZE - 1) / PAGE_SIZE }

  function GetPage(m: Mem): (r: Option<nat>)
    requires StartPage(|m.counts|) <= |m.counts|
  {
    FirstFree(m.counts, StartPage(|m.counts|))
  }

  /** get_page's effect: frame f is taken for the given use. */
  function Take(m: Mem, f: nat, use: Use): Mem
    requires f < |m.counts| == |m.uses|
  {
    m.(counts := m.counts[f := 1], free := m.free - 1, uses := m.uses[f := use])
  }

  /** put_page: one reference less, and the frame is free at zero. */
  function PutPage(m: Mem, f: nat): Mem
    requires f < |m.counts| == |m.uses| && m.counts[f] > 0
  {
    if m.counts[f] == 1 then
      m.(counts := m.counts[f := 0], free := m.free + 1, uses := m.uses[f := Unused])
    else
      m.(counts := m.counts[f := m.counts[f] - 1])
  }

  function SetDent(m: Mem, p: Pid, d: int, e: Entry): Mem
    requires p in m.procs && 0 <= d < |m.procs[p].dir|
  {
    m.(procs := m.procs[p := m.procs[p].(dir := m.procs[p].dir[d := e])])
  }

  function SetTent(m: Mem, f: nat, t: int, e: Entry): Mem
    requires f < |m.tables| && 0 <= t < |m.tables[f]|
  {
    m.(tables := m.tables[f := m.tables[f][t := e]])
  }

  function BlankTable(): seq<Entry> { seq(ENTRIES, i => Entry(false, false, false, 0)) }

  /** entry_init */
  function FreshEntry(f: nat): Entry { Entry(true, true, false, f) }

  // ---- single updates -------------------------------------------------------

  ghost predicate FreeFrame(m: Mem, f: nat) {
    KERNEL_FRAMES <= f < |m.counts| && m.counts[f] == 0
  }

  ghost predicate HasTable(m: Mem, p: Pid, d: int)
    requires Shape(m)
  {
    p in m.procs && UserSlot(d) && Dent(m, p, d).present && Dent(m, p, d).index < |m.tables|
  }

  /** get_pte with create: frame f becomes the cleared table of slot d. */
  ghost function AddTable(m: Mem, p: Pid, d: int, f: nat): Mem
    requires Shape(m) && p in m.procs && UserSlot(d) && f < |m.counts|
  {
    SetDent(Take(m, f, TableOf(d)), p, d, FreshEntry(f)).(tables := m.tables[f := BlankTable()])
  }

  /** get_entry_private on a shared table: frame f becomes this process's copy. */
  ghost function SplitTable(m: Mem, p: Pid, d: int, f: nat): Mem
    requires Shape(m) && HasTable(m, p, d) && m.counts[Dent(m, p, d).index] > 1 && f < |m.counts|
  {
    var e := Dent(m, p, d);
    var m1 := Take(m.(counts := m.counts[e.index := m.counts[e.index] - 1]), f, TableOf(d));
    SetDent(m1.(tables := m.tables[f := m.tables[e.index]]), p, d, e.(index := f, write := true))
  }

  /** get_entry_private on a table nobody else holds. */
  ghost function OwnTable(m: Mem, p: Pid, d: int): Mem
    requires Shape(m) && HasTable(m, p, d)
  {
    SetDent(m, p, d, Dent(m, p, d).(write := true))
  }

  /** link_page on an absent page of a private table: frame f becomes its data. */
  ghost function AddPage(m: Mem, p: Pid, d: int, t: int, f: nat): Mem
    requires Shape(m) && HasTable(m, p, d) && UserPage(d, t) && f < |m.counts|
  {
    SetTent(Take(m, f, DataOf(d, t)), Dent(m, p, d).index, t, FreshEntry(f))
  }

  /** unlink_page on a present page of a private table. */
  ghost function DropPage(m: Mem, p: Pid, d: int, t: int): Mem
    requires Shape(m) && Maps(m, p, d, t) && Walk(m, p, d, t) < |m.counts| && m.counts[Walk(m, p, d, t)] > 0
  {
    var e := Tent(m, p, d, t);
    PutPage(SetTent(m, Dent(m, p, d).index, t, e.(present := false)), e.index)
  }

  /** copy_on_write on a frame others hold too: frame f becomes the copy. */
  ghost function SplitPage(m: Mem, p: Pid, d: int, t: int, f: nat): Mem
    requires Shape(m) && Maps(m, p, d, t) && Walk(m, p, d, t) < |m.counts| && m.counts[Walk(m, p, d, t)] > 1
    requires f < |m.counts|
  {
    var e := Tent(m, p, d, t);
    var m1 := Take(m.(counts := m.counts[e.index := m.counts[e.index] - 1]), f, DataOf(d, t));
    SetTent(m1.(pages := m.pages[f := m.pages[e.index]]), Dent(m, p, d).index, t,
            e.(index := f, write := true))
  }

  /** New write and read-only bits for a page: copy_on_write on a frame nobody
      else holds, and the protection sys_mmap gives. */
  ghost function FlagPage(m: Mem, p: Pid, d: int, t: int, write: bool, readonly: bool): Mem
    requires Shape(m) && Maps(m, p, d, t)
  {
    SetTent(m, Dent(m, p, d).index, t, Tent(m, p, d, t).(write := write, readonly := readonly))
  }

  // ---- fork and exit ----------------------------------------------------------

  function ReadOnly(e: Entry): Entry { if e.present then e.(write := false) else e }

  function ReadOnlyDir(dir: seq<Entry>): seq<Entry> {
    seq(|dir|, i requires 0 <= i < |dir| => if UserSlot(i) then ReadOnly(dir[i]) else dir[i])
  }

  function ReadOnlyTable(table: seq<Entry>): seq<Entry> {
    seq(|table|, i requires 0 <= i < |table| => ReadOnly(table[i]))
  }

  ghost predicate Holds(m: Mem, p: Pid, f: nat)
    requires Shape(m) && f < |m.counts|
  {
    KERNEL_FRAMES <= f && p in Holders(m, f)
  }

  /** copy_pde: parent p and child c share every table and every data frame,
      read-only at both levels, and each frame p holds gains one reference. */
  ghost function ForkSpace(m: Mem, p: Pid, c: Pid): Mem
    requires Shape(m) && p in m.procs && c !in m.procs
  {
    var proc := m.procs[p].(dir := ReadOnlyDir(m.procs[p].dir));
    m.(procs := m.procs[p := proc][c := proc],
       counts := seq(|m.counts|, f requires 0 <= f < |m.counts| => m.counts[f] + One(Holds(m, p, f))),
       tables := seq(|m.tables|, f requires 0 <= f < |m.tables| =>
                       if Holds(m, p, f) && m.uses[f].TableOf? then ReadOnlyTable(m.tables[f]) else m.tables[f]))
  }

  ghost function Released(m: Mem, p: Pid): seq<nat>
    requires Shape(m)
    requires forall f | 0 <= f < |m.counts| && Holds(m, p, f) :: m.counts[f] > 0
  {
    seq(|m.counts|, f requires 0 <= f < |m.counts| => m.counts[f] - One(Holds(m, p, f)))
  }

  /** free_pde: p's references are given back, and every frame that nobody else
      holds becomes free. */
  ghost function ExitSpace(m: Mem, p: Pid): Mem
    requires Shape(m) && p in m.procs
    requires forall f | 0 <= f < |m.counts| && Holds(m, p, f) :: m.counts[f] > 0
  {
    var counts := Released(m, p);
    m.(procs := m.procs - {p},
       counts := counts,
       free := m.free + Zeros(counts) - Zeros(m.counts),
       uses := seq(|m.uses|, f requires 0 <= f < |m.uses| =>
                     if KERNEL_FRAMES <= f && counts[f] == 0 then Unused else m.uses[f]))
  }
}
