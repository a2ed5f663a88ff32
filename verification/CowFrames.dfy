/** Where the user frames go: every step takes exactly the frames that its new tables and pages need, none
    comes back, and the table frames are as many as the tables the fault handler has built. */
module CowFrames {
  import opened Addresses
  import opened Options
  import opened CowModel
  import opened CowSafety
  import opened CowTransparency
  import opened CowLimits
  import opened CowCounts
  import opened Boot

  // ----- one table, one page -----

  /** Frames taken from s to t: so many for tables, so many for pages. */
  ghost predicate Takes(s: State, t: State, tables: nat, pages: nat) {
    && |t.desc| == |s.desc| && |FreeFrames(t.desc)| + tables + pages == |FreeFrames(s.desc)|
    && |t.tableFrames| == |s.tableFrames| + tables
  }

  lemma TakesTrans(s: State, t: State, u: State, a: nat, b: nat, c: nat, d: nat)
    requires Takes(s, t, a, b) && Takes(t, u, c, d)
    ensures Takes(s, u, a + c, b + d)
  {
  }

  lemma FreeFrameTaken(s: State)
    requires CanAllocate(s)
    ensures |FreeFrames(Allocate(s).desc)| == |FreeFrames(s.desc)| - 1
  {
    assert NextFrame(s) in FreeFrames(s.desc);
    AllocationCount(s);
  }

  /** A present table costs nothing, an absent one a frame. */
  lemma EnsureTableTakes(s: State, level: nat, page: nat)
    requires Core(s) && CanAllocate(s)
    ensures var t, d := EnsureTable(s, level, page), DirOf(s.cur, level, page);
            && t.dirs == s.dirs + {d} && Takes(s, t, if d in s.dirs then 0 else 1, 0)
            && (if d in s.dirs then t == s
                else t.high == s.high + {d} && t.tableFrames == s.tableFrames + {NextFrame(s)})
  {
    AllocationFacts(s);
    FreeFrameTaken(s);
    hide Core, FirstFree, DirIndex, FreeFrames;
  }

  lemma MapFreshTakes(s: State, page: nat, content: Page, writable: bool)
    requires CanAllocate(s)
    ensures Takes(s, MapFresh(s, page, content, writable), 0, 1)
  {
    FreeFrameTaken(s);
    hide FirstFree, FreeFrames;
  }

  /** The upper-level entries on the way to a page that are missing. */
  function Missing(s: State, page: nat): nat {
    Absent(s.dirs, DirOf(s.cur, 4, page)) + Absent(s.dirs, DirOf(s.cur, 3, page))
    + Absent(s.dirs, DirOf(s.cur, 2, page))
  }

  lemma LevelsDiffer(pid: nat, page: nat)
    ensures DirOf(pid, 4, page) != DirOf(pid, 3, page) && DirOf(pid, 4, page) != DirOf(pid, 2, page)
    ensures DirOf(pid, 3, page) != DirOf(pid, 2, page)
  {
    hide DirIndex;
  }

  lemma OneTable(s: State, level: nat, page: nat)
    requires Core(s) && CanAllocate(s)
    ensures var t, d := EnsureTable(s, level, page), DirOf(s.cur, level, page);
            && Core(t) && t.cur == s.cur && t.dirs == s.dirs + {d} && Takes(s, t, Absent(s.dirs, d), 0)
  {
    EnsureTableTakes(s, level, page);
    EnsureTableKeepsCore(s, level, page);
    hide Core, EnsureTable, DirOf, FreeFrames, CanAllocate, Takes;
  }

  function Absent(dirs: set<Dir>, d: Dir): nat {
    if d in dirs then 0 else 1
  }

  lemma EnsureTablesTakes(s: State, page: nat)
    requires Core(s) && RoomForTables(s, page)
    ensures var t := EnsureTables(s, page);
            && Takes(s, t, Missing(s, page), 0) && t.dirs == WithTables(s.dirs, s.cur, page)
            && |t.dirs| == |s.dirs| + Missing(s, page)
  {
    var t1 := EnsureTable(s, 4, page);
    var t2 := EnsureTable(t1, 3, page);
    var t3 := EnsureTable(t2, 2, page);
    hide Core, EnsureTable, FreeFrames, CanAllocate, Takes, DirOf;
    var d4, d3, d2 := DirOf(s.cur, 4, page), DirOf(s.cur, 3, page), DirOf(s.cur, 2, page);
    OneTable(s, 4, page);
    OneTable(t1, 3, page);
    OneTable(t2, 2, page);
    TakesTrans(s, t1, t2, Absent(s.dirs, d4), 0, Absent(t1.dirs, d3), 0);
    TakesTrans(s, t2, t3, Absent(s.dirs, d4) + Absent(t1.dirs, d3), 0, Absent(t2.dirs, d2), 0);
    LevelsDiffer(s.cur, page);
    ThreeMore(s.dirs, d4, d3, d2);
    assert t3.dirs == WithTables(s.dirs, s.cur, page);
  }

  lemma ThreeMore(dirs: set<Dir>, d: Dir, e: Dir, f: Dir)
    requires d != e && d != f && e != f
    ensures |dirs + {d, e, f}| == |dirs| + Absent(dirs, d) + Absent(dirs, e) + Absent(dirs, f)
    ensures Absent(dirs + {d}, e) == Absent(dirs, e) && Absent(dirs + {d} + {e}, f) == Absent(dirs, f)
  {
    OneMore(dirs, d);
    OneMore(dirs + {d}, e);
    OneMore(dirs + {d} + {e}, f);
    assert dirs + {d, e, f} == dirs + {d} + {e} + {f};
  }

  lemma OneMore(dirs: set<Dir>, d: Dir)
    ensures |dirs + {d}| == |dirs| + Absent(dirs, d)
  {
    if d in dirs {
      assert dirs + {d} == dirs;
    }
  }

  // ----- a fault -----

  predicate PageHas(s: State, page: nat) {
    Slot(s.cur, page) in s.pte
  }

  /** The page has another frame than before, or has one at last. */
  predicate NewFrame(s: State, t: State, page: nat) {
    Slot(s.cur, page) in t.pte
    && (Slot(s.cur, page) in s.pte ==> t.pte[Slot(s.cur, page)].frame != s.pte[Slot(s.cur, page)].frame)
  }

  function PagesTaken(s: State, t: State, page: nat): nat {
    if NewFrame(s, t, page) then 1 else 0
  }

  /** What an access to a page costs: a frame for each upper-level entry added, one for a new page. */
  ghost predicate ByNeed(s: State, t: State, page: nat) {
    |t.dirs| >= |s.dirs| && Takes(s, t, |t.dirs| - |s.dirs|, PagesTaken(s, t, page))
  }

  lemma DemandPageTakes(s: State, page: nat, writable: bool)
    requires Core(s) && RoomForTables(s, page) && !PageHas(s, page)
    ensures var t := DemandPage(s, page, writable);
            Takes(s, t, Missing(s, page), 1) && NewFrame(s, t, page) && |t.dirs| == |s.dirs| + Missing(s, page)
  {
    EnsureTablesTakes(s, page);
    EnsureTablesKeepsCore(s, page);
    MapFreshTakes(EnsureTables(s, page), page, ZERO_PAGE, writable);
    TakesTrans(s, EnsureTables(s, page), DemandPage(s, page, writable), Missing(s, page), 0, 0, 1);
    hide Core, EnsureTables, FirstFree, FreeFrames, Missing, Takes;
  }

  /** A copy takes one frame, a re-grant none. */
  lemma BreakCowTakes(s: State, page: nat)
    requires Core(s) && CanAllocate(s) && PageHas(s, page)
    ensures s.pte[Slot(s.cur, page)].frame < |s.desc|
    ensures var t, f := BreakCow(s, page), s.pte[Slot(s.cur, page)].frame;
            && (NewFrame(s, t, page) <==> s.desc[f].refCount != 0)
            && Takes(s, t, 0, PagesTaken(s, t, page)) && t.dirs == s.dirs
  {
    var k := Slot(s.cur, page);
    var f := s.pte[k].frame;
    assert EntryOk(s, k, s.pte[k]);
    AllocationFacts(s);
    hide Core, FirstFree, FreeFrames;
    if s.desc[f].refCount != 0 {
      CopyTakes(s, page);
    }
  }

  lemma CopyTakes(s: State, page: nat)
    requires CanAllocate(s) && PageHas(s, page) && s.pte[Slot(s.cur, page)].frame < |s.desc|
    requires s.desc[s.pte[Slot(s.cur, page)].frame].refCount != 0 && s.desc[s.pte[Slot(s.cur, page)].frame].used
    requires !s.desc[NextFrame(s)].used
    ensures var t := BreakCow(s, page); Takes(s, t, 0, 1) && t.dirs == s.dirs && NewFrame(s, t, page)
  {
    var f := s.pte[Slot(s.cur, page)].frame;
    var m := MapFresh(s, page, s.data[f], true);
    MapFreshTakes(s, page, s.data[f], true);
    CountChangesNoFrame(m, f);
    hide FirstFree, FreeFrames;
  }

  lemma CountChangesNoFrame(m: State, f: nat)
    requires f < |m.desc|
    ensures FreeFrames(m.desc[f := m.desc[f].(refCount := m.desc[f].refCount - 1)]) == FreeFrames(m.desc)
  {
  }

  /** What one fault takes: a frame for each missing table if the page is absent from a region, and a frame
      for the page if it gets a new one. */
  lemma FaultTakes(s: State, a: nat, err: PfErr)
    requires Core(s) && Ready(s, a) && (!err.present ==> !PageHas(s, a / PAGE_SIZE))
    ensures var t, page := Fault(s, a, err).0, a / PAGE_SIZE;
            var tables := if InVma(s.mms[s.cur].vmas, a).Some? && !err.present then Missing(s, page) else 0;
            && Takes(s, t, tables, PagesTaken(s, t, page)) && |t.dirs| == |s.dirs| + tables
  {
    var page := a / PAGE_SIZE;
    hide Core, DemandPage, BreakCow, Missing, FreeFrames, RoomForTables, CanAllocate, Takes, PagesTaken;
    TakesNothing(s, page);
    match InVma(s.mms[s.cur].vmas, a) {
      case None =>
      case Some(vma) =>
        if !err.present {
          DemandPageTakes(s, page, vma.writable);
          FlushTakes(s, DemandPage(s, page, vma.writable), page);
        } else if err.write && vma.writable && Slot(s.cur, page) in s.pte && s.pte[Slot(s.cur, page)].cow {
          BreakCowTakes(s, page);
          FlushTakes(s, BreakCow(s, page), page);
        }
    }
  }

  lemma TakesNothing(s: State, page: nat)
    ensures Takes(s, Flush(s), 0, PagesTaken(s, Flush(s), page))
  {
  }

  lemma FlushTakes(s: State, t: State, page: nat)
    ensures PagesTaken(s, Flush(t), page) == PagesTaken(s, t, page) == if NewFrame(s, t, page) then 1 else 0
    ensures forall x: nat, y: nat {:trigger Takes(s, Flush(t), x, y)} :: Takes(s, Flush(t), x, y) <==> Takes(s, t, x, y)
  {
    hide FreeFrames;
  }

  // ----- an access -----

  /** Once a fault is resolved the page is present and not copy-on-write: a further one takes nothing. */
  ghost predicate Settled(t: State, page: nat) {
    Slot(t.cur, page) in t.pte && t.pte[Slot(t.cur, page)].present && !t.pte[Slot(t.cur, page)].cow && t.tlb == map[]
  }

  lemma ResolvedSettles(s: State, a: nat, err: PfErr)
    requires Core(s) && Ready(s, a) && (!err.present ==> !PageHas(s, a / PAGE_SIZE))
    requires Fault(s, a, err).1 == Resolved
    ensures Settled(Fault(s, a, err).0, a / PAGE_SIZE) && Fault(s, a, err).0.cur == s.cur
  {
    var page, vma := a / PAGE_SIZE, InVma(s.mms[s.cur].vmas, a).value;
    if !err.present {
      DemandPageResolves(s, page, vma.writable);
      NotCow(s, page, vma.writable);
      hide Core, DemandPage, RoomForTables, CanAllocate;
    } else {
      hide Core, DemandPage, RoomForTables, FirstFree;
    }
  }

  lemma NotCow(s: State, page: nat, writable: bool)
    requires Core(s) && RoomForTables(s, page) && !PageHas(s, page)
    ensures var t, k := DemandPage(s, page, writable), Slot(s.cur, page); k in t.pte && !t.pte[k].cow
  {
    EnsureTablesKeepsCore(s, page);
    hide Core, EnsureTables, FirstFree;
  }

  lemma SettledTakesNothing(t: State, a: nat, write: bool)
    requires Core(t) && Ready(t, a) && Settled(t, a / PAGE_SIZE) && Try(t, a, write).Miss?
    ensures var (u, outcome) := Fault(t, a, Try(t, a, write).err); outcome != Resolved && u == Flush(t)
  {
    hide Core, DemandPage, BreakCow, RoomForTables, CanAllocate;
  }

  lemma SettledAccess(t: State, a: nat, write: bool)
    requires Core(t) && Settled(t, a / PAGE_SIZE)
    ensures var u := Access(t, a, write, 1).s;
            u.desc == t.desc && u.tableFrames == t.tableFrames && u.dirs == t.dirs && u.pte == t.pte
  {
    if Try(t, a, write).Miss? && Ready(t, a) {
      SettledTakesNothing(t, a, write);
    }
    hide Core, Fault, Ready, Try;
  }

  /** An access takes a frame for each table it adds, and one if the page gets a new frame. */
  lemma AccessTakes(s: State, a: nat, write: bool)
    requires Inv(s)
    ensures var t := Access(s, a, write, 0).s;
            ByNeed(s, t, a / PAGE_SIZE)
  {
    if Try(s, a, write).Miss? && Ready(s, a) {
      FaultedAccessTakes(s, a, write);
    } else {
      assert Access(s, a, write, 0).s == s;
      NothingTaken(s, a / PAGE_SIZE);
    }
    hide Inv, Fault, Access, Ready, Try, ByNeed;
  }

  /** The same by the entries added. */
  lemma FaultTakesByDirs(s: State, a: nat, err: PfErr)
    requires Core(s) && Ready(s, a) && (!err.present ==> !PageHas(s, a / PAGE_SIZE))
    ensures var t := Fault(s, a, err).0;
            ByNeed(s, t, a / PAGE_SIZE)
  {
    FaultTakes(s, a, err);
    hide Core, Fault, Takes, PagesTaken, Missing, InVma;
  }

  lemma NothingTaken(s: State, page: nat)
    ensures ByNeed(s, s, page)
  {
  }

  lemma FaultedAccessTakes(s: State, a: nat, write: bool)
    requires Inv(s) && Try(s, a, write).Miss? && Ready(s, a)
    ensures var t := Access(s, a, write, 0).s;
            ByNeed(s, t, a / PAGE_SIZE)
  {
    var err := Try(s, a, write).err;
    if !err.present {
      MissMeansAbsent(s, a, write);
    }
    assert Core(s) by {
      CoreOfInv(s);
    }
    AccessGoesOn(s, a, write);
    hide Inv, Core, Try, Fault, Access, RoomForTables, CanAllocate, FramesInRange, Settled, PageHas, ByNeed;
    FaultTakesByDirs(s, a, err);
    FaultKeepsInv(s, a, err);
    var (t, outcome) := Fault(s, a, err);
    if outcome == Resolved {
      ResolvedSettles(s, a, err);
      assert Core(t) by {
        CoreOfInv(t);
      }
      SettledAccess(t, a, write);
      SameFrames(s, t, Access(t, a, write, 1).s, a / PAGE_SIZE);
    }
  }

  lemma AccessGoesOn(s: State, a: nat, write: bool)
    requires Try(s, a, write).Miss? && Ready(s, a)
    ensures var (t, outcome) := Fault(s, a, Try(s, a, write).err);
            if outcome == Resolved then Access(s, a, write, 0) == Access(t, a, write, 1)
            else Access(s, a, write, 0).s == t
  {
    hide Fault, Try, RoomForTables, CanAllocate, FramesInRange;
  }

  /** The frames taken do not depend on the TLB or on what the pages hold. */
  lemma SameFrames(s: State, t: State, u: State, page: nat)
    requires u.desc == t.desc && u.tableFrames == t.tableFrames && u.pte == t.pte && u.dirs == t.dirs
    requires ByNeed(s, t, page)
    ensures ByNeed(s, u, page)
  {
    hide FreeFrames;
  }

  // ----- every step -----

  /** The tables that a step's faults build, each in a user frame. */
  function TablesBuilt(s: State, step: Step): int
    requires Runnable(s)
  {
    if step.Load? || step.Store? then |Next(s, step).0.dirs| - |s.dirs| else 0
  }

  /** The frames that a step gives to pages. */
  function PagesMapped(s: State, step: Step): nat
    requires Runnable(s)
  {
    match step
    case Load(a, _) => PagesTaken(s, Next(s, step).0, a / PAGE_SIZE)
    case Store(a, _, _) => PagesTaken(s, Next(s, step).0, a / PAGE_SIZE)
    case DoExec(image, _) => |image|
    case Remap(_, _) => 1
    case MapElse(pages) => |pages|
    case _ => 0
  }

  lemma {:induction false} ImageTakes(s: State, image: seq<(nat, Page)>)
    requires |s.desc| == |s.data| && FIRST_USER_FRAME <= |s.desc| && |FreeFrames(s.desc)| >= |image|
    ensures Takes(s, MapImage(s, image), 0, |image|)
    decreases |image|
  {
    if image != [] {
      AllocationCount(s);
      MapFreshTakes(s, image[0].0, image[0].1, true);
      var m := MapFresh(s, image[0].0, image[0].1, true);
      var t := m.(dirs := WithTables(s.dirs, s.cur, image[0].0));
      assert MapImage(s, image) == MapImage(t, image[1..]) && |t.desc| == |t.data| == |s.desc|;
      assert Takes(s, t, 0, 1);
      hide MapFresh, MapImage, FreeFrames, CanAllocate, WithTables;
      ImageTakes(t, image[1..]);
      TakesTrans(s, t, MapImage(s, image), 0, 1, 0, |image| - 1);
    }
  }

  lemma ElsewhereTakes(s: State, pages: seq<nat>)
    requires Core(s) && |FreeFrames(s.desc)| >= |pages|
    ensures Takes(s, MapElsewhere(s, pages), 0, |pages|)
  {
    var image := ZeroImage(pages);
    if s.target in s.mms {
      ImageTakes(s.(cur := s.target), image);
    } else {
      ImageTakes(s.(mms := s.mms[s.target := s.mms[s.cur]], cur := s.target), image);
    }
    hide Core, MapImage, FreeFrames;
  }

  lemma AccessStepTakes(s: State, a: nat, write: bool, t: State)
    requires Inv(s) && t.desc == Access(s, a, write, 0).s.desc && t.pte == Access(s, a, write, 0).s.pte
    requires t.tableFrames == Access(s, a, write, 0).s.tableFrames && t.dirs == Access(s, a, write, 0).s.dirs
    ensures ByNeed(s, t, a / PAGE_SIZE)
  {
    var page, r := a / PAGE_SIZE, Access(s, a, write, 0).s;
    AccessTakes(s, a, write);
    hide *;
    SameFrames(s, r, t, page);
  }

  lemma LoadTakes(s: State, a: nat, cache: bool)
    requires Inv(s) && Runnable(s)
    ensures var t := Next(s, Load(a, cache)).0;
            ByNeed(s, t, a / PAGE_SIZE)
  {
    hide Inv, Access, ByNeed;
    AccessStepTakes(s, a, false, Next(s, Load(a, cache)).0);
  }

  lemma StoreTakes(s: State, a: nat, b: Byte, cache: bool)
    requires Inv(s) && Runnable(s)
    ensures var t := Next(s, Store(a, b, cache)).0;
            ByNeed(s, t, a / PAGE_SIZE)
  {
    hide Inv, Access, ByNeed;
    AccessStepTakes(s, a, true, Next(s, Store(a, b, cache)).0);
  }

  lemma ExecTakes(s: State, image: seq<(nat, Page)>, mms: map<nat, Mm>)
    requires Core(s) && |FreeFrames(s.desc)| >= |image|
    ensures Takes(s, Flush(MapImage(s, image)).(mms := mms), 0, |image|)
    ensures Takes(s, Flush(MapImage(s, image)), 0, |image|)
  {
    ImageTakes(s, image);
    hide Core, MapImage, FreeFrames;
  }

  lemma ForkTakes(s: State, child: nat)
    requires Core(s) && child !in s.mms && Runnable(s)
    ensures Takes(s, Fork(s, child), 0, 0)
  {
    ForkFrames(s, child);
    ForkTables(s, child);
    hide Core, Fork, FreeFrames;
  }

  /** Every step takes the frames of its new tables and pages and no other; none gives one back. */
  lemma StepTakes(s: State, step: Step)
    requires Inv(s) && Allowed(s, step) && Roomy(s, step) && Runnable(s)
    ensures TablesBuilt(s, step) >= 0
    ensures Takes(s, Next(s, step).0, TablesBuilt(s, step), PagesMapped(s, step))
  {
    assert Core(s) by {
      CoreOfInv(s);
    }
    hide Inv, Core, Access, Fork, MapImage, MapElsewhere, Sbrk, FreeFrames, DirectPath, HasTables, ForkTablesPresent,
      PagesTaken, FramesInRange, MayCache, Takes;
    match step {
      case Load(a, cache) =>
        hide Next;
        LoadTakes(s, a, cache);
      case Store(a, b, cache) =>
        hide Next;
        StoreTakes(s, a, b, cache);
      case DoFork(child) => ForkTakes(s, child);
      case DoExec(image, mm) => ExecTakes(s, image, s.mms[s.cur := mm]);
      case Remap(page, content) => ExecTakes(s, [(page, content)], s.mms);
      case MapElse(pages) => ElsewhereTakes(s, pages);
      case _ => NoFrames(s, Next(s, step).0);
    }
  }

  lemma NoFrames(s: State, t: State)
    requires t.desc == s.desc && t.tableFrames == s.tableFrames
    ensures Takes(s, t, 0, 0)
  {
  }

  lemma ForkTables(s: State, child: nat)
    requires Runnable(s)
    ensures Fork(s, child).tableFrames == s.tableFrames
  {
    hide ForkPages;
  }

  // ----- every run -----

  /** The tables that faults have built along a run. */
  function Built(s: State, steps: seq<Step>): int
    decreases |steps|
  {
    if steps == [] || !Runnable(s) then 0 else TablesBuilt(s, steps[0]) + Built(Next(s, steps[0]).0, steps[1..])
  }

  /** The frames that pages have been given along a run. */
  function Paged(s: State, steps: seq<Step>): nat
    decreases |steps|
  {
    if steps == [] || !Runnable(s) then 0 else PagesMapped(s, steps[0]) + Paged(Next(s, steps[0]).0, steps[1..])
  }

  lemma {:induction false} RunTakes(s: State, steps: seq<Step>)
    requires Inv(s) && AllAllowed(s, steps) && AllRoomy(s, steps)
    ensures Built(s, steps) >= 0 && Inv(Run(s, steps))
    ensures Takes(s, Run(s, steps), Built(s, steps), Paged(s, steps))
    decreases |steps|
  {
    if steps != [] {
      InvIsRunnable(s);
      StepKeepsInv(s, steps[0]);
      StepTakes(s, steps[0]);
      hide Inv, Allowed, Roomy, Takes, Next, Runnable, TablesBuilt, PagesMapped;
      var t := Next(s, steps[0]).0;
      RunTakes(t, steps[1..]);
      TakesTrans(s, t, Run(s, steps), TablesBuilt(s, steps[0]), PagesMapped(s, steps[0]), Built(t, steps[1..]),
                 Paged(t, steps[1..]));
    } else {
      hide Inv;
    }
  }

  /** The frames that hold pages of processes, mapped still or no more. */
  ghost function DataFrames(s: State): set<nat> {
    set f | FIRST_USER_FRAME <= f < |s.desc| && UserFrame(s, f)
  }

  ghost function Between(lo: nat, hi: nat): set<nat> {
    if hi <= lo then {} else Between(lo, hi - 1) + {hi - 1}
  }

  lemma {:induction false} BetweenSize(lo: nat, hi: nat)
    requires lo <= hi
    ensures |Between(lo, hi)| == hi - lo && forall f: nat :: f in Between(lo, hi) <==> lo <= f < hi
    decreases hi
  {
    if lo < hi {
      BetweenSize(lo, hi - 1);
    }
  }

  /** A user frame is free, holds a page or holds a table. */
  lemma FramesDivide(s: State)
    requires Core(s)
    ensures |FreeFrames(s.desc)| + |DataFrames(s)| + |s.tableFrames| == |s.desc| - FIRST_USER_FRAME
  {
    var free, data, tables := FreeFrames(s.desc), DataFrames(s), s.tableFrames;
    assert free !! data && free !! tables && data !! tables;
    BetweenSize(FIRST_USER_FRAME, |s.desc|);
    assert Between(FIRST_USER_FRAME, |s.desc|) == free + data + tables;
  }

  /** Frame conservation from boot: after every run the table frames are as many as the tables that faults
      have ever built, the data frames as many as the pages ever given a frame, and the rest is free. */
  lemma FramesFromBoot(frames: nat, pid: nat, mm: Mm, steps: seq<Step>)
    requires Separated(mm.vmas) && AllAllowed(BootState(frames, pid, mm), steps)
    requires AllRoomy(BootState(frames, pid, mm), steps)
    ensures var s := BootState(frames, pid, mm);
            var t := Run(s, steps);
            && |t.tableFrames| == Built(s, steps) && |DataFrames(t)| == Paged(s, steps)
            && |FreeFrames(t.desc)| == frames - Built(s, steps) - Paged(s, steps)
  {
    var s := BootState(frames, pid, mm);
    BootIsSafe(frames, pid, mm);
    FreeAtBoot(frames, pid, mm);
    assert |s.desc| == FIRST_USER_FRAME + frames && s.tableFrames == {};
    hide BootState, InitPhyPage, Inv, Exact, Resolvable, FreeFrames, Run, Built, Paged, DataFrames, AllAllowed,
      AllRoomy;
    RunTakes(s, steps);
    CoreOfInv(Run(s, steps));
    FramesDivide(Run(s, steps));
  }
}
