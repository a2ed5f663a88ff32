/** Whose tables there are: in every reachable state the tables belong to live processes and form trees, so
    a reaped process leaves no table to a later one with its pid. */
module CowTables {
  import opened Addresses
  import opened Options
  import opened CowModel
  import opened CowSafety
  import opened CowTransparency
  import opened Boot

  /** Below a table lies no other without the entry that leads to it. */
  ghost predicate Tree(dirs: set<Dir>) {
    forall d {:trigger d in dirs} :: d in dirs ==>
      2 <= d.level <= 4 && (d.level < 4 ==> Dir(d.pid, d.level + 1, d.index / 0x200) in dirs)
  }

  /** Every table belongs to a live process, and the tables out of the direct map's reach are among them. */
  ghost predicate Owned(s: State) {
    && (forall d {:trigger d in s.dirs} :: d in s.dirs ==> d.pid in s.mms)
    && s.high <= s.dirs && Tree(s.dirs)
  }

  lemma PathIsTree(pid: nat, page: nat)
    ensures DirOf(pid, 2, page).index / 0x200 == DirOf(pid, 3, page).index
    ensures DirOf(pid, 3, page).index / 0x200 == DirOf(pid, 4, page).index
  {
  }

  lemma WithTablesTree(dirs: set<Dir>, pid: nat, page: nat)
    requires Tree(dirs)
    ensures Tree(WithTables(dirs, pid, page))
  {
    PathIsTree(pid, page);
    hide DirIndex;
  }

  // ----- the handler -----

  lemma EnsureTableOwned(s: State, level: nat, page: nat)
    requires Owned(s) && CanAllocate(s) && s.cur in s.mms && 2 <= level <= 4
    requires level < 4 ==> DirOf(s.cur, level + 1, page) in s.dirs
    ensures var t := EnsureTable(s, level, page);
            Owned(t) && t.cur == s.cur && t.mms == s.mms && DirOf(s.cur, level, page) in t.dirs
  {
    PathIsTree(s.cur, page);
    hide DirIndex, FirstFree;
  }

  lemma EnsureTablesOwned(s: State, page: nat)
    requires Owned(s) && RoomForTables(s, page) && s.cur in s.mms
    ensures var t := EnsureTables(s, page); Owned(t) && t.cur == s.cur && t.mms == s.mms
  {
    hide EnsureTable, Owned, DirOf, CanAllocate;
    var t := EnsureTable(s, 4, page);
    EnsureTableOwned(s, 4, page);
    EnsureTableOwned(t, 3, page);
    EnsureTableOwned(EnsureTable(t, 3, page), 2, page);
  }

  lemma DemandPageOwned(s: State, page: nat, writable: bool)
    requires Owned(s) && RoomForTables(s, page) && s.cur in s.mms
    ensures var t := DemandPage(s, page, writable); Owned(t) && t.cur == s.cur && t.mms == s.mms
  {
    EnsureTablesOwned(s, page);
    hide EnsureTables, Tree, FirstFree;
  }

  lemma FaultOwned(s: State, a: nat, err: PfErr)
    requires Owned(s) && Ready(s, a)
    ensures var t := Fault(s, a, err).0; Owned(t) && t.cur == s.cur && t.mms == s.mms
  {
    hide Tree, InVma, DemandPage, RoomForTables, FirstFree;
    match InVma(s.mms[s.cur].vmas, a) {
      case None =>
      case Some(vma) =>
        DemandPageOwned(s, a / PAGE_SIZE, vma.writable);
    }
  }

  lemma {:induction false} AccessOwned(s: State, a: nat, write: bool, faults: nat)
    requires Owned(s) && faults <= 2
    ensures var t := Access(s, a, write, faults).s; Owned(t) && t.mms == s.mms
    decreases 2 - faults
  {
    if Try(s, a, write).Miss? && faults < 2 && Ready(s, a) {
      FaultOwned(s, a, Try(s, a, write).err);
      hide Fault, Owned, Ready, Try;
      var r := Fault(s, a, Try(s, a, write).err);
      if r.1 == Resolved {
        AccessOwned(r.0, a, write, faults + 1);
      }
    }
  }

  // ----- fork -----

  /** The tables of a list of pages, as far as they are mapped. */
  ghost predicate OnPath(s: State, pages: seq<nat>, child: nat, d: Dir) {
    exists v :: v in pages && Slot(s.cur, v) in s.pte &&
      (d == DirOf(child, 4, v) || d == DirOf(child, 3, v) || d == DirOf(child, 2, v))
  }

  lemma ForkPageTables(u: State, child: nat, v: nat)
    requires FramesInRange(u) && child != u.cur
    ensures var t := ForkPage(u, child, v);
            && t.cur == u.cur && (Tree(u.dirs) ==> Tree(t.dirs))
            && (forall w :: Slot(u.cur, w) in t.pte <==> Slot(u.cur, w) in u.pte)
            && t.dirs == if Slot(u.cur, v) in u.pte then WithTables(u.dirs, child, v) else u.dirs
  {
    if Tree(u.dirs) {
      WithTablesTree(u.dirs, child, v);
    }
    hide Tree, DirOf;
  }

  lemma OnPathSplit(s: State, front: seq<nat>, v: nat, child: nat, d: Dir)
    ensures OnPath(s, front + [v], child, d) <==>
            OnPath(s, front, child, d) || (Slot(s.cur, v) in s.pte && d in WithTables({}, child, v))
  {
    hide DirOf;
  }

  lemma WithTablesAdds(dirs: set<Dir>, pid: nat, page: nat)
    ensures WithTables(dirs, pid, page) == dirs + WithTables({}, pid, page)
  {
    hide DirOf;
  }

  lemma {:induction false} ForkLoopTables(s: State, child: nat, pages: seq<nat>)
    requires FramesInRange(s) && child != s.cur
    ensures var t := ForkLoop(s, child, pages);
            && t.high == s.high && t.mms == s.mms && (Tree(s.dirs) ==> Tree(t.dirs))
            && (forall v :: Slot(s.cur, v) in t.pte <==> Slot(s.cur, v) in s.pte)
            && forall d :: d in t.dirs <==> d in s.dirs || OnPath(s, pages, child, d)
    decreases |pages|
  {
    if pages != [] {
      var front, v := pages[..|pages| - 1], pages[|pages| - 1];
      ForkLoopTables(s, child, front);
      var u := ForkLoop(s, child, front);
      assert ForkLoop(s, child, pages) == ForkPage(u, child, v) && pages == front + [v];
      hide ForkLoop, ForkPage, Tree, WithTables, OnPath, FramesInRange;
      ForkPageTables(u, child, v);
      WithTablesAdds(u.dirs, child, v);
      forall d
        ensures d in ForkPage(u, child, v).dirs <==> d in s.dirs || OnPath(s, pages, child, d)
      {
        OnPathSplit(s, front, v, child, d);
      }
    }
  }

  /** After fork the child has the tables of its mapped pages and no other; nobody else's change. */
  lemma ForkTables(s: State, child: nat)
    requires Owned(s) && FramesInRange(s) && s.cur in s.mms && child !in s.mms
    ensures var t := Fork(s, child);
            && Owned(t)
            && forall d {:trigger d in t.dirs} :: d in t.dirs <==>
                 if d.pid == child then OnPath(s, ForkPages(s.mms[s.cur].vmas), child, d) else d in s.dirs
  {
    var u := s.(mms := s.mms[child := s.mms[s.cur]], target := child);
    var pages := ForkPages(s.mms[s.cur].vmas);
    hide ForkLoop, ForkPages, DirIndex, Tree;
    ForkLoopTables(u, child, pages);
    assert forall d :: OnPath(u, pages, child, d) <==> OnPath(s, pages, child, d);
  }

  // ----- exec and reap -----

  lemma {:induction false} MapImageOwned(s: State, image: seq<(nat, Page)>)
    requires Owned(s) && |s.desc| == |s.data| && FIRST_USER_FRAME <= |s.desc| && s.cur in s.mms
    ensures var t := MapImage(s, image); Owned(t) && t.mms == s.mms && t.cur == s.cur
    decreases |image|
  {
    if image != [] && CanAllocate(s) {
      WithTablesTree(s.dirs, s.cur, image[0].0);
      hide Tree, DirIndex, FirstFree, MapImage;
      MapImageOwned(MapFresh(s, image[0].0, image[0].1, true).(dirs := WithTables(s.dirs, s.cur, image[0].0)),
                    image[1..]);
      MapImageNext(s, image);
    }
  }

  lemma MapImageNext(s: State, image: seq<(nat, Page)>)
    requires |s.desc| == |s.data| && FIRST_USER_FRAME <= |s.desc| && image != [] && CanAllocate(s)
    ensures MapImage(s, image) ==
            MapImage(MapFresh(s, image[0].0, image[0].1, true).(dirs := WithTables(s.dirs, s.cur, image[0].0)),
                     image[1..])
  {
  }

  /** Reaping takes the process out of the regions, the entries and the tables, and no one else; the frames
      stay as they were, so none comes back. */
  lemma ReapForgets(s: State, pid: nat)
    ensures var t := ReapProcess(s, pid);
            && (forall p {:trigger p in t.mms} :: p in t.mms <==> p in s.mms && p != pid)
            && (forall p {:trigger t.mms[p]} :: p in t.mms ==> t.mms[p] == s.mms[p])
            && (forall k {:trigger k in t.pte} :: k in t.pte <==> k in s.pte && k.pid != pid)
            && (forall k {:trigger t.pte[k]} :: k in t.pte ==> t.pte[k] == s.pte[k])
            && (forall d {:trigger d in t.dirs} :: d in t.dirs <==> d in s.dirs && d.pid != pid)
            && (forall d {:trigger d in t.high} :: d in t.high <==> d in s.high && d.pid != pid)
            && t.desc == s.desc && t.data == s.data && t.tableFrames == s.tableFrames
            && t.cur == s.cur && t.tlb == s.tlb && t.target == s.target
  {
  }

  lemma ReapOwned(s: State, pid: nat)
    requires Owned(s)
    ensures Owned(ReapProcess(s, pid))
  {
    var t := ReapProcess(s, pid);
    ReapForgets(s, pid);
    hide ReapProcess;
    forall d | d in t.dirs
      ensures 2 <= d.level <= 4 && (d.level < 4 ==> Dir(d.pid, d.level + 1, d.index / 0x200) in t.dirs)
    {
      assert d in s.dirs;
      assert d.level < 4 ==> Dir(d.pid, d.level + 1, d.index / 0x200) in s.dirs;
    }
  }

  lemma ElsewhereOwned(s: State, pages: seq<nat>)
    requires Owned(s) && |s.desc| == |s.data| && FIRST_USER_FRAME <= |s.desc| && s.cur in s.mms
    ensures Owned(MapElsewhere(s, pages))
  {
    hide Tree, MapImage, ZeroImage, ReapProcess;
    var u := if s.target in s.mms then s else s.(mms := s.mms[s.target := s.mms[s.cur]]);
    MapImageOwned(u.(cur := s.target), ZeroImage(pages));
    ReapOwned(MapFor(u, s.target, ZeroImage(pages)), s.target);
  }

  // ----- runs -----

  lemma StepOwned(s: State, step: Step)
    requires Owned(s) && Runnable(s) && Allowed(s, step)
    ensures Owned(Next(s, step).0)
  {
    hide Tree, Access, Fork, MapImage, MapElsewhere, Sbrk, ReapProcess, ForkTablesPresent, DirectPath, HasTables,
      Put, FramesInRange;
    match step {
      case Load(a, _) => AccessOwned(s, a, false, 0);
      case Store(a, _, _) => AccessOwned(s, a, true, 0);
      case DoFork(child) => ForkTables(s, child);
      case Switch(_) =>
      case DoSbrk(_) =>
      case DoExec(image, _) => MapImageOwned(s, image);
      case Reap(pid) => ReapOwned(s, pid);
      case Remap(page, content) => MapImageOwned(s, [(page, content)]);
      case MapElse(pages) => ElsewhereOwned(s, pages);
      case SetRegions(_) =>
    }
  }

  lemma {:induction false} RunOwned(s: State, steps: seq<Step>)
    requires Owned(s) && AllAllowed(s, steps)
    ensures Owned(Run(s, steps))
    decreases |steps|
  {
    if steps != [] && Runnable(s) {
      StepOwned(s, steps[0]);
      hide Owned, Next, Allowed, Runnable;
      RunOwned(Next(s, steps[0]).0, steps[1..]);
    }
  }

  /** From boot on, a pid that no process has, because it is new or its process has been reaped, has
      neither tables nor entries, and an entry never stands without the three tables on its path. */
  lemma FreePidsAreClean(frames: nat, pid: nat, mm: Mm, steps: seq<Step>)
    requires Separated(mm.vmas) && AllAllowed(BootState(frames, pid, mm), steps)
    ensures var t := Run(BootState(frames, pid, mm), steps);
            && Owned(t)
            && (forall d :: d in t.dirs || d in t.high ==> d.pid in t.mms)
            && (forall k :: k in t.pte ==> k.pid in t.mms && HasTables(t, k.pid, k.page))
  {
    var s := BootState(frames, pid, mm);
    BootIsSafe(frames, pid, mm);
    hide Separated, Exact, Resolvable, InitPhyPage, AllAllowed, Run, Inv, HasTables;
    RunKeepsInv(s, steps);
    RunOwned(s, steps);
    EntriesHaveTables(Run(s, steps));
  }

  lemma EntriesHaveTables(t: State)
    requires Inv(t)
    ensures forall k :: k in t.pte ==> k.pid in t.mms && HasTables(t, k.pid, k.page)
  {
    forall k | k in t.pte
      ensures k.pid in t.mms && HasTables(t, k.pid, k.page)
    {
      assert EntryOk(t, k, t.pte[k]);
    }
  }
}
