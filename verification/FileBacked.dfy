/** Why the fault handler never fills a page from a file: the code and data regions, the only ones with a
    file behind them, are mapped in full by exec, fork copies every one of their pages, and no step
    unmaps a page of a living process. */
module FileBacked {
  import opened Addresses
  import opened Options
  import opened CowModel
  import opened CowSafety
  import opened CowTransparency
  import opened CowLimits
  import opened CowKernel
  import opened Elf
  import opened ElfLoad
  import opened Exec
  import Boot

  /** The region's pages are all mapped. */
  ghost predicate Mapped(s: State, pid: nat, vma: Vma) {
    forall page {:trigger Meets(vma, page)} :: Meets(vma, page) ==> Slot(pid, page) in s.pte
  }

  /** Code is the first region of a chain, data the second. */
  ghost predicate FilesMapped(s: State) {
    forall pid, i {:trigger s.mms[pid].vmas[i]} :: pid in s.mms && 0 <= i < HEAP && i < |s.mms[pid].vmas| ==>
      Mapped(s, pid, s.mms[pid].vmas[i])
  }

  // ----- every step keeps them mapped -----

  /** What exec must bring for its new regions: a page of its image or one that is there. */
  ghost predicate Lays(s: State, step: Step) {
    match step
    case DoExec(image, mm) =>
      && |FreeFrames(s.desc)| >= |image|
      && forall i, page {:trigger Meets(mm.vmas[i], page)} ::
           0 <= i < HEAP && i < |mm.vmas| && Meets(mm.vmas[i], page) ==>
           InImage(image, page) || Slot(s.cur, page) in s.pte
    case SetRegions(mm) => forall i {:trigger mm.vmas[i]} :: 0 <= i < HEAP && i < |mm.vmas| ==>
        Mapped(s, s.cur, mm.vmas[i])
    case _ => true
  }

  /** Where no entry of a living process goes away and the file regions stay, they stay mapped. */
  lemma GrowthKeeps(s: State, t: State)
    requires FilesMapped(s) && s.pte.Keys <= t.pte.Keys && t.mms.Keys <= s.mms.Keys
    requires forall pid, i {:trigger t.mms[pid].vmas[i]} :: pid in t.mms && 0 <= i < HEAP && i < |t.mms[pid].vmas| ==>
               i < |s.mms[pid].vmas| && t.mms[pid].vmas[i] == s.mms[pid].vmas[i]
    ensures FilesMapped(t)
  {
    hide Meets;
    forall pid, i | pid in t.mms && 0 <= i < HEAP && i < |t.mms[pid].vmas|
      ensures Mapped(t, pid, t.mms[pid].vmas[i])
    {
      assert pid in t.mms.Keys;
      var vma := t.mms[pid].vmas[i];
      assert s.mms[pid].vmas[i] == vma;
      assert Mapped(s, pid, s.mms[pid].vmas[i]);
    }
  }

  lemma TablesKeepEntries(s: State, page: nat)
    requires RoomForTables(s, page)
    ensures var t := EnsureTables(s, page); t.pte == s.pte && t.mms == s.mms && t.cur == s.cur
  {
    hide DirIndex, FirstFree, CanAllocate;
    var t1 := EnsureTable(s, 4, page);
    var t2 := EnsureTable(t1, 3, page);
    assert t1.pte == s.pte && t2.pte == s.pte;
  }

  lemma FaultKeys(s: State, a: nat, err: PfErr)
    requires Ready(s, a)
    ensures s.pte.Keys <= Fault(s, a, err).0.pte.Keys && Fault(s, a, err).0.mms == s.mms
  {
    var page := a / PAGE_SIZE;
    hide DemandPage, BreakCow, RoomForTables, CanAllocate;
    match InVma(s.mms[s.cur].vmas, a) {
      case None =>
      case Some(vma) =>
        if !err.present {
          DemandPageKeys(s, page, vma.writable);
        } else if err.write && vma.writable && Slot(s.cur, page) in s.pte && s.pte[Slot(s.cur, page)].cow {
          BreakCowKeys(s, page);
        }
    }
  }

  lemma DemandPageKeys(s: State, page: nat, writable: bool)
    requires RoomForTables(s, page)
    ensures s.pte.Keys <= DemandPage(s, page, writable).pte.Keys && DemandPage(s, page, writable).mms == s.mms
  {
    TablesKeepEntries(s, page);
    hide FirstFree, EnsureTables;
  }

  lemma BreakCowKeys(s: State, page: nat)
    requires CanAllocate(s) && FramesInRange(s) && Slot(s.cur, page) in s.pte
    ensures s.pte.Keys <= BreakCow(s, page).pte.Keys && BreakCow(s, page).mms == s.mms
  {
    hide FirstFree;
  }

  lemma {:induction false} AccessKeys(s: State, a: nat, write: bool, faults: nat)
    requires faults <= 2
    ensures s.pte.Keys <= Access(s, a, write, faults).s.pte.Keys && Access(s, a, write, faults).s.mms == s.mms
    decreases 2 - faults
  {
    match Try(s, a, write) {
      case Hit(e) =>
      case Miss(err) =>
        if faults < 2 && Ready(s, a) {
          FaultKeys(s, a, err);
          hide Fault, Ready;
          if Fault(s, a, err).1 == Resolved {
            AccessKeys(Fault(s, a, err).0, a, write, faults + 1);
          }
        }
    }
  }

  /** A child has every page of its parent's regions that the parent has. */
  lemma ForkKeeps(s: State, child: nat)
    requires Core(s) && FilesMapped(s) && child !in s.mms && Runnable(s)
    ensures FilesMapped(Fork(s, child))
  {
    var vmas := s.mms[s.cur].vmas;
    var c, t := s.(mms := s.mms[child := s.mms[s.cur]], target := child), Fork(s, child);
    NoEntriesOutside(s, child);
    ForkLoopForks(c, child, ForkPages(vmas));
    hide Core, ForkPages, ForkLoop, Meets;
    assert Forked(c, t, child, ForkPages(vmas));
    forall pid, i | pid in t.mms && 0 <= i < HEAP && i < |t.mms[pid].vmas|
      ensures Mapped(t, pid, t.mms[pid].vmas[i])
    {
      var vma := t.mms[pid].vmas[i];
      var from := if pid == child then s.cur else pid;
      assert Mapped(s, from, s.mms[from].vmas[i]);
      forall page | Meets(vma, page)
        ensures Slot(pid, page) in t.pte
      {
        if pid == child {
          RegionsAreForked(vmas, vma, page);
        }
      }
    }
  }

  lemma {:induction false} ImageKeys(s: State, image: Image)
    requires RoomFor(s, |image|)
    ensures forall k {:trigger k in MapImage(s, image).pte} :: k in MapImage(s, image).pte <==>
              k in s.pte || (k.pid == s.cur && InImage(image, k.page))
    decreases |image|
  {
    if image != [] {
      MapOneRoom(s, image[0].0, image[0].1, |image| - 1);
      var m := MapOne(s, image[0].0, image[0].1);
      ImageKeys(m, image[1..]);
      assert MapImage(s, image) == MapImage(m, image[1..]);
      forall page
        ensures InImage(image, page) <==> page == image[0].0 || InImage(image[1..], page)
      {
        InImageCons(image, page);
      }
      assert m.cur == s.cur && m.pte.Keys == s.pte.Keys + {Slot(s.cur, image[0].0)};
      hide InImage, MapImage, RoomFor, MapOne;
    } else {
      assert MapImage(s, image) == s;
    }
  }

  lemma InImageCons(image: Image, page: nat)
    requires image != []
    ensures InImage(image, page) <==> page == image[0].0 || InImage(image[1..], page)
  {
    if InImage(image, page) {
      var i :| 0 <= i < |image| && image[i].0 == page;
      if i > 0 {
        assert image[1..][i - 1].0 == page;
      }
    }
    if InImage(image[1..], page) {
      var i :| 0 <= i < |image[1..]| && image[1..][i].0 == page;
      assert image[i + 1].0 == page;
    }
  }

  lemma {:induction false} ImageGrows(s: State, image: Image)
    requires |s.desc| == |s.data| && FIRST_USER_FRAME <= |s.desc|
    ensures s.pte.Keys <= MapImage(s, image).pte.Keys && MapImage(s, image).mms == s.mms
    decreases |image|
  {
    if image != [] && CanAllocate(s) {
      ImageGrows(MapOne(s, image[0].0, image[0].1), image[1..]);
    }
  }

  lemma ExecKeeps(s: State, image: Image, mm: Mm)
    requires Core(s) && FilesMapped(s) && Lays(s, Step.DoExec(image, mm)) && Runnable(s)
    ensures FilesMapped(Next(s, Step.DoExec(image, mm)).0)
  {
    var t := Next(s, Step.DoExec(image, mm)).0;
    ImageKeys(s, image);
    hide Core, MapImage, Meets, InImage, FreeFrames;
    assert forall k {:trigger k in t.pte} :: k in t.pte <==> k in MapImage(s, image).pte;
    forall pid, i | pid in t.mms && 0 <= i < HEAP && i < |t.mms[pid].vmas|
      ensures Mapped(t, pid, t.mms[pid].vmas[i])
    {
      if pid != s.cur {
        assert Mapped(s, pid, s.mms[pid].vmas[i]);
      }
    }
  }

  lemma ElsewhereKeeps(s: State, pages: seq<nat>)
    requires Inv(s) && FilesMapped(s) && s.target != s.cur && Runnable(s)
    ensures FilesMapped(MapElsewhere(s, pages))
  {
    var image := ZeroImage(pages);
    if s.target in s.mms {
      ImageGrows(s.(cur := s.target), image);
      GrowthKeeps(s, MapElsewhere(s, pages));
    } else {
      var a := s.(mms := s.mms[s.target := s.mms[s.cur]]);
      ImageGrows(a.(cur := s.target), image);
      NoEntriesOutside(s, s.target);
      var t := MapElsewhere(s, pages);
      hide MapImage, Inv, FilesMapped;
      assert t.mms == s.mms;
      forall k | k in s.pte
        ensures k in t.pte
      {
        assert k in MapImage(a.(cur := s.target), image).pte && k.pid != s.target;
      }
      GrowthKeeps(s, t);
    }
  }

  lemma ReapKeeps(s: State, pid: nat)
    requires FilesMapped(s)
    ensures FilesMapped(ReapProcess(s, pid))
  {
    var t := ReapProcess(s, pid);
    hide Meets;
    forall p, i | p in t.mms && 0 <= i < HEAP && i < |t.mms[p].vmas|
      ensures Mapped(t, p, t.mms[p].vmas[i])
    {
      assert Mapped(s, p, s.mms[p].vmas[i]);
    }
  }

  lemma SbrkKeeps(s: State, size: nat)
    requires FilesMapped(s) && Runnable(s)
    ensures FilesMapped(Next(s, DoSbrk(size)).0)
  {
    hide Mask32, Meets;
    GrowthKeeps(s, Next(s, DoSbrk(size)).0);
  }

  lemma StepKeepsFiles(s: State, step: Step)
    requires Inv(s) && FilesMapped(s) && Allowed(s, step) && Lays(s, step) && Runnable(s)
    ensures FilesMapped(Next(s, step).0)
  {
    hide Meets, FreeFrames, Access, Sbrk, MapImage, ForkPages, Coherent;
    var t := Next(s, step).0;
    match step {
      case Load(a, _) =>
        AccessKeys(s, a, false, 0);
        hide Core, FilesMapped;
        GrowthKeeps(s, t);
      case Store(a, _, _) =>
        AccessKeys(s, a, true, 0);
        hide Core, FilesMapped;
        GrowthKeeps(s, t);
      case DoFork(child) => ForkKeeps(s, child);
      case Switch(_) => GrowthKeeps(s, t);
      case DoSbrk(size) => SbrkKeeps(s, size);
      case DoExec(image, mm) => ExecKeeps(s, image, mm);
      case Reap(pid) => ReapKeeps(s, pid);
      case Remap(page, content) =>
        ImageGrows(s, [(page, content)]);
        GrowthKeeps(s, t);
      case MapElse(pages) => ElsewhereKeeps(s, pages);
      case SetRegions(mm) =>
        forall pid, i | pid in t.mms && 0 <= i < HEAP && i < |t.mms[pid].vmas|
          ensures Mapped(t, pid, t.mms[pid].vmas[i])
        {
          assert pid != s.cur ==> Mapped(s, pid, s.mms[pid].vmas[i]);
        }
    }
  }

  ghost predicate AllLay(s: State, steps: seq<Step>)
    decreases |steps|
  {
    steps == [] || (Lays(s, steps[0]) && (Runnable(s) ==> AllLay(Next(s, steps[0]).0, steps[1..])))
  }

  lemma {:induction false} RunKeepsFiles(s: State, steps: seq<Step>)
    requires Inv(s) && FilesMapped(s) && AllAllowed(s, steps) && AllLay(s, steps)
    ensures Inv(Run(s, steps)) && FilesMapped(Run(s, steps))
    decreases |steps|
  {
    if steps != [] {
      InvIsRunnable(s);
      StepKeepsInv(s, steps[0]);
      StepKeepsFiles(s, steps[0]);
      hide Inv, FilesMapped, Allowed, Lays, Next, Runnable;
      RunKeepsFiles(Next(s, steps[0]).0, steps[1..]);
    }
  }

  // ----- what follows -----

  /** In every state reached, no access to a code or data region faults as not present: the handler's
      file branch, which only such faults reach, is never taken. */
  lemma FilesNeverPageIn(s: State, steps: seq<Step>, a: nat, write: bool, i: nat)
    requires Inv(s) && FilesMapped(s) && AllAllowed(s, steps) && AllLay(s, steps)
    ensures var t := Run(s, steps);
            t.cur in t.mms && i < HEAP && i < |t.mms[t.cur].vmas| && Contains(t.mms[t.cur].vmas[i], a) ==>
              Try(t, a, write).Miss? ==> Try(t, a, write).err.present
  {
    RunKeepsFiles(s, steps);
    var t := Run(s, steps);
    hide Run, AllAllowed, AllLay;
    if t.cur in t.mms && i < HEAP && i < |t.mms[t.cur].vmas| && Contains(t.mms[t.cur].vmas[i], a) {
      ContainsMeets(t.mms[t.cur].vmas[i], a);
      assert Mapped(t, t.cur, t.mms[t.cur].vmas[i]);
      if Try(t, a, write).Miss? && !Try(t, a, write).err.present {
        MissMeansAbsent(t, a, write);
      }
    }
  }

  /** set_task_struct leaves the first process's regions empty. */
  lemma BootFilesMapped(frames: nat, pid: nat, mm: Mm)
    requires forall i {:trigger mm.vmas[i]} :: 0 <= i < HEAP && i < |mm.vmas| ==> mm.vmas[i].start >= mm.vmas[i].end
    ensures FilesMapped(Boot.BootState(frames, pid, mm))
  {
    var s := Boot.BootState(frames, pid, mm);
    forall p, i | p in s.mms && 0 <= i < HEAP && i < |s.mms[p].vmas|
      ensures Mapped(s, p, s.mms[p].vmas[i])
    {
      assert s.mms[p].vmas[i] == mm.vmas[i];
    }
  }

  /** do_execv maps all of the regions that setup_vma describes, if the file has a segment of each kind. */
  lemma ExecLays(s: State, stack: Page, file: seq<Byte>, segs: seq<Segment>, keeps: nat -> Keeps, image: Image,
                 lay: Layout, code: nat, data: nat)
    requires AllOk(file, segs) && LoadedImage(file, segs, keeps, |segs|, image)
    requires |FreeFrames(s.desc)| >= 1 + |image|
    requires code < |segs| && LastOfKind(segs, code) && segs[code].exec
    requires data < |segs| && LastOfKind(segs, data) && !segs[data].exec
    ensures Lays(s, Step.DoExec([(STACK_PAGE, stack)] + image, SetupVma(LayoutOf(file, segs, lay))))
  {
    var all, mm := [(STACK_PAGE, stack)] + image, SetupVma(LayoutOf(file, segs, lay));
    LayoutIsLast(file, segs, lay, code);
    LayoutIsLast(file, segs, lay, data);
    hide LayoutOf, LoadedImage, AllOk, LastOfKind, FreeFrames, InImage, CoveredIn;
    forall i, page {:trigger Meets(mm.vmas[i], page)} | 0 <= i < HEAP && Meets(mm.vmas[i], page)
      ensures InImage(all, page)
    {
      var m := if i == 0 then code else data;
      MetIsCovered(segs, m, mm.vmas[i], page);
      ImageCovers(file, segs, keeps, image, page);
      assert all[1..] == image;
      InImageCons(all, page);
    }
  }

  lemma MetIsCovered(segs: seq<Segment>, m: nat, vma: Vma, page: nat)
    requires m < |segs| && segs[m].load && vma.start == segs[m].vaddr && vma.end == segs[m].vaddr + segs[m].memsz
    requires Meets(vma, page)
    ensures CoveredIn(segs, 0, |segs|, page)
  {
    UmallocCoversExactly(segs[m].vaddr, segs[m].memsz, page);
    assert Covered(segs, m, page);
  }
}
