/** How far the copy-on-write promise reaches: fault bounds, and the exact conditions under which
    stores, kernel stores, fork and exec keep it. */
module CowLimits {
  import opened Addresses
  import opened Options
  import opened CowModel
  import opened CowSafety
  import opened CowTransparency

  // ----- faults -----

  ghost predicate PlentyFree(s: State) {
    Sized(s) && |FreeFrames(s.desc)| >= 8
  }

  lemma MapFreshFrames(s: State, page: nat, content: Page, writable: bool)
    requires Sized(s) && |FreeFrames(s.desc)| >= 1
    ensures CanAllocate(s)
    ensures |FreeFrames(MapFresh(s, page, content, writable).desc)| == |FreeFrames(s.desc)| - 1
  {
    AllocationCount(s);
  }

  lemma DemandPageFrames(s: State, page: nat, writable: bool)
    requires Sized(s) && |FreeFrames(s.desc)| >= 4
    ensures RoomForTables(s, page)
    ensures |FreeFrames(DemandPage(s, page, writable).desc)| >= |FreeFrames(s.desc)| - 4
  {
    FaultCanAllocate(s, page);
    EnsureTableFrames(s, 4, page);
    var t1 := EnsureTable(s, 4, page);
    EnsureTableFrames(t1, 3, page);
    var t2 := EnsureTable(t1, 3, page);
    EnsureTableFrames(t2, 2, page);
    MapFreshFrames(EnsureTables(s, page), page, ZERO_PAGE, writable);
  }

  lemma SecondAttempt(t: State, a: nat, write: bool)
    requires Ready(t, a) && t.tlb == map[] && Slot(t.cur, a / PAGE_SIZE) in t.pte && InVma(t.mms[t.cur].vmas, a).Some?
    requires var e := t.pte[Slot(t.cur, a / PAGE_SIZE)];
             e.present && e.user && e.writable == InVma(t.mms[t.cur].vmas, a).value.writable
    ensures var r := Access(t, a, write, 1);
            !r.Stuck? && (r.Granted? ==> r.faults == 1) && (r.Denied? ==> r.faults == 2)
  {
    hide RoomForTables, CanAllocate, FramesInRange;
  }

  lemma DemandPagedState(s: State, a: nat, write: bool)
    requires Inv(s) && PlentyFree(s) && Ready(s, a) && Slot(s.cur, a / PAGE_SIZE) !in s.pte
    requires InVma(s.mms[s.cur].vmas, a).Some?
    ensures var t := Fault(s, a, PfErr(false, write, true)).0;
            && Ready(t, a) && t.tlb == map[] && t.cur == s.cur && t.mms == s.mms && Slot(t.cur, a / PAGE_SIZE) in t.pte
            && var e := t.pte[Slot(t.cur, a / PAGE_SIZE)];
               e.present && e.user && e.writable == InVma(s.mms[s.cur].vmas, a).value.writable
  {
    var page, vma := a / PAGE_SIZE, InVma(s.mms[s.cur].vmas, a).value;
    var err := PfErr(false, write, true);
    var t := Fault(s, a, err).0;
    FaultKeepsInv(s, a, err);
    InvIsRunnable(t);
    DemandPageFrames(s, page, vma.writable);
    DemandPageResolves(s, page, vma.writable);
    FaultKeepsViews(s, a, err);
    FaultCanAllocate(t, page);
    hide Inv, Core, DemandPage, SameViews, CanAllocate, RoomForTables;
  }

  /** The second fault of an access can only follow demand paging of a read-only page. */
  lemma DemandPagedThenDenied(s: State, a: nat, write: bool)
    requires Inv(s) && PlentyFree(s) && Ready(s, a) && Slot(s.cur, a / PAGE_SIZE) !in s.pte
    requires InVma(s.mms[s.cur].vmas, a).Some?
    ensures var t := Fault(s, a, PfErr(false, write, true)).0;
            var r := Access(t, a, write, 1);
            !r.Stuck? && (r.Granted? ==> r.faults == 1) && (r.Denied? ==> r.faults == 2)
  {
    DemandPagedState(s, a, write);
    hide Inv, PlentyFree, Fault, Access, Ready;
    SecondAttempt(Fault(s, a, PfErr(false, write, true)).0, a, write);
  }

  lemma CowThenGranted(s: State, a: nat)
    requires Inv(s) && Ready(s, a) && Slot(s.cur, a / PAGE_SIZE) in s.pte
    ensures Try(Flush(BreakCow(s, a / PAGE_SIZE)), a, true).Hit?
  {
    TryAfterFlush(BreakCow(s, a / PAGE_SIZE), a, true);
  }

  /** No access loops: whatever the address and the regions, it is granted after at most one fault
      or the process is killed after at most two. */
  lemma AccessEnds(s: State, a: nat, write: bool)
    requires Inv(s) && PlentyFree(s)
    ensures var r := Access(s, a, write, 0);
            (r.Granted? && r.faults <= 1) || (r.Denied? && 1 <= r.faults <= 2)
  {
    InvIsRunnable(s);
    FaultCanAllocate(s, a / PAGE_SIZE);
    assert Ready(s, a);
    match Try(s, a, write) {
      case Hit(e) =>
      case Miss(err) =>
        if InVma(s.mms[s.cur].vmas, a).Some? {
          if !err.present {
            MissMeansAbsent(s, a, write);
            DemandPagedThenDenied(s, a, write);
          } else if Slot(s.cur, a / PAGE_SIZE) in s.pte {
            CowThenGranted(s, a);
          }
        }
    }
  }

  // ----- tables above the direct map -----

  /** The handler built tables on the page's path only, and only where there was none. */
  ghost predicate BuiltOnPath(s: State, t: State, page: nat) {
    && t.cur == s.cur && t.target == s.target && s.dirs <= t.dirs
    && forall d {:trigger d in t.high} :: d in t.high ==>
         d in s.high || (d !in s.dirs && d in WithTables({}, s.cur, page))
  }

  lemma EnsureTablesPath(s: State, page: nat)
    requires RoomForTables(s, page)
    ensures BuiltOnPath(s, EnsureTables(s, page), page)
  {
    hide DirIndex, FirstFree, CanAllocate, WithTables;
    var t1 := EnsureTable(s, 4, page);
    var t2 := EnsureTable(t1, 3, page);
    EnsureTablePath(s, 4, page);
    EnsureTablePath(t1, 3, page);
    EnsureTablePath(t2, 2, page);
    hide EnsureTable;
    PathContinues(s, t1, t2, page);
    PathContinues(s, t2, EnsureTables(s, page), page);
  }

  lemma EnsureTablePath(s: State, level: nat, page: nat)
    requires CanAllocate(s) && 2 <= level <= 4
    ensures BuiltOnPath(s, EnsureTable(s, level, page), page)
  {
    hide DirIndex, FirstFree;
  }

  lemma PathContinues(s: State, t: State, u: State, page: nat)
    requires BuiltOnPath(s, t, page) && BuiltOnPath(t, u, page)
    ensures BuiltOnPath(s, u, page)
  {
    hide WithTables;
  }

  lemma FaultPath(s: State, a: nat, err: PfErr)
    requires Ready(s, a)
    ensures BuiltOnPath(s, Fault(s, a, err).0, a / PAGE_SIZE)
  {
    var page := a / PAGE_SIZE;
    hide DemandPage, BreakCow, BuiltOnPath, RoomForTables, CanAllocate;
    FlushOnPath(s, s, page);
    match InVma(s.mms[s.cur].vmas, a) {
      case None =>
      case Some(vma) =>
        if !err.present {
          DemandPagePath(s, page, vma.writable);
          FlushOnPath(s, DemandPage(s, page, vma.writable), page);
        } else if err.write && vma.writable && Slot(s.cur, page) in s.pte && s.pte[Slot(s.cur, page)].cow {
          BreakCowPath(s, page);
          FlushOnPath(s, BreakCow(s, page), page);
        }
    }
  }

  lemma FlushOnPath(s: State, t: State, page: nat)
    ensures BuiltOnPath(s, s, page)
    ensures BuiltOnPath(s, t, page) ==> BuiltOnPath(s, Flush(t), page)
  {
    hide WithTables;
  }

  lemma DemandPagePath(s: State, page: nat, writable: bool)
    requires RoomForTables(s, page)
    ensures BuiltOnPath(s, DemandPage(s, page, writable), page)
  {
    EnsureTablesPath(s, page);
    hide EnsureTables, WithTables, FirstFree;
  }

  lemma BreakCowPath(s: State, page: nat)
    requires CanAllocate(s) && FramesInRange(s) && Slot(s.cur, page) in s.pte
    ensures BuiltOnPath(s, BreakCow(s, page), page)
  {
    hide WithTables, FirstFree;
  }

  lemma {:induction false} AccessPath(s: State, a: nat, write: bool, faults: nat)
    requires faults <= 2
    ensures BuiltOnPath(s, Access(s, a, write, faults).s, a / PAGE_SIZE)
    decreases 2 - faults
  {
    hide Fault, WithTables, Try, RoomForTables, CanAllocate, FramesInRange;
    match Try(s, a, write) {
      case Hit(e) =>
      case Miss(err) =>
        if faults < 2 && Ready(s, a) {
          FaultPath(s, a, err);
          var t := Fault(s, a, err).0;
          if Fault(s, a, err).1 == Resolved {
            AccessPath(t, a, write, faults + 1);
            PathContinues(s, t, Access(t, a, write, faults + 1).s, a / PAGE_SIZE);
          }
        }
    }
  }

  /** A store makes the handler build tables on its own page's path only: the paths that were complete
      stay within reach of exec. */
  lemma StorePath(s: State, a: nat, b: Byte, cache: bool)
    requires Runnable(s)
    ensures BuiltOnPath(s, Next(s, Store(a, b, cache)).0, a / PAGE_SIZE)
  {
    AccessPath(s, a, true, 0);
    hide Access;
  }

  // ----- where global_PML4 points -----

  /** The child forked last, by whomever; at first the process the run starts with. */
  function LastForked(steps: seq<Step>, pid: nat): nat
    decreases |steps|
  {
    if steps == [] then pid else LastForked(steps[1..], if steps[0].DoFork? then steps[0].child else pid)
  }

  lemma {:induction false} ImageTarget(s: State, image: seq<(nat, Page)>)
    requires |s.desc| == |s.data| && FIRST_USER_FRAME <= |s.desc|
    ensures MapImage(s, image).target == s.target
    decreases |image|
  {
    if image != [] && CanAllocate(s) {
      var t := MapFresh(s, image[0].0, image[0].1, true).(dirs := WithTables(s.dirs, s.cur, image[0].0));
      ImageTarget(t, image[1..]);
    }
  }

  lemma ElsewhereTarget(s: State, pages: seq<nat>)
    requires |s.desc| == |s.data| && FIRST_USER_FRAME <= |s.desc| && s.cur in s.mms
    ensures MapElsewhere(s, pages).target == s.target
  {
    var image := ZeroImage(pages);
    if s.target in s.mms {
      ImageTarget(s.(cur := s.target), image);
    } else {
      ImageTarget(s.(mms := s.mms[s.target := s.mms[s.cur]], cur := s.target), image);
    }
    hide MapImage;
  }

  /** No step but fork moves global_PML4, a switch of processes no more than the others. */
  lemma StepTarget(s: State, step: Step)
    requires Runnable(s)
    ensures Next(s, step).0.target == if step.DoFork? then step.child else s.target
  {
    hide Access, MapImage, Sbrk, ForkPages, ForkLoop, FramesInRange, MapElsewhere;
    match step {
      case Load(a, _) => AccessPath(s, a, false, 0);
      case Store(a, _, _) => AccessPath(s, a, true, 0);
      case DoExec(image, _) => ImageTarget(s, image);
      case Remap(page, content) => ImageTarget(s, [(page, content)]);
      case MapElse(pages) => ElsewhereTarget(s, pages);
      case _ =>
    }
  }

  /** In every state reached global_PML4 names the child forked last. */
  lemma {:induction false} TargetIsLastForked(s: State, steps: seq<Step>)
    requires Inv(s) && AllAllowed(s, steps)
    ensures Run(s, steps).target == LastForked(steps, s.target)
    decreases |steps|
  {
    if steps != [] {
      InvIsRunnable(s);
      StepKeepsInv(s, steps[0]);
      StepTarget(s, steps[0]);
      hide Inv, Allowed, Next, Runnable;
      TargetIsLastForked(Next(s, steps[0]).0, steps[1..]);
    }
  }

  // ----- which region -----

  /** in_vma takes the first region of the chain that has the address, where regions overlap. */
  lemma {:induction false} InVmaIsFirst(vmas: seq<Vma>, a: nat, i: nat)
    requires i < |vmas| && Contains(vmas[i], a)
    requires forall j {:trigger vmas[j]} :: 0 <= j < i ==> !Contains(vmas[j], a)
    ensures InVma(vmas, a) == Some(vmas[i])
    decreases |vmas|
  {
    if i > 0 {
      assert forall j {:trigger vmas[1..][j]} :: 0 <= j < i - 1 ==> vmas[1..][j] == vmas[j + 1];
      InVmaIsFirst(vmas[1..], a, i - 1);
    }
  }

  // ----- what a fault comes to -----

  /** The handler resolves a fault in a region if the page is absent, or the write is to a copy-on-write page
      of a writable region; any other fault of a program kills it, in a region one of the kernel too; a fault
      of the kernel outside every region stops the machine. Only a resolved fault changes more than the TLB. */
  lemma FaultOutcome(s: State, a: nat, err: PfErr)
    requires Ready(s, a)
    ensures var k := Slot(s.cur, a / PAGE_SIZE);
            var inside := exists vma :: vma in s.mms[s.cur].vmas && Contains(vma, a);
            var (t, outcome) := Fault(s, a, err);
            && (outcome == Panic <==> !inside && !err.user)
            && (outcome == Resolved <==>
                  inside && (!err.present || (err.write && InVma(s.mms[s.cur].vmas, a).value.writable
                                              && k in s.pte && s.pte[k].cow)))
            && (outcome != Resolved ==> t == Flush(s))
  {
    hide DemandPage, BreakCow, RoomForTables, CanAllocate;
    match InVma(s.mms[s.cur].vmas, a) {
      case None =>
      case Some(vma) =>
        assert vma in s.mms[s.cur].vmas && Contains(vma, a);
    }
  }

  // ----- writes that fork takes away -----

  /** A store through a copy-on-write entry gets through exactly if the region is writable. */
  lemma CowStoreGrantedIff(t: State, a: nat)
    requires Inv(t) && Ready(t, a) && t.tlb == map[]
    requires Slot(t.cur, a / PAGE_SIZE) in t.pte && t.pte[Slot(t.cur, a / PAGE_SIZE)].cow
    ensures Access(t, a, true, 0).Granted? <==> LegalAccess(t, a, true)
  {
    assert EntryOk(t, Slot(t.cur, a / PAGE_SIZE), t.pte[Slot(t.cur, a / PAGE_SIZE)]);
    CowThenGranted(t, a);
    hide Inv, BreakCow;
    assert Try(t, a, true) == Miss(PfErr(true, true, true));
  }

  lemma ForkedParent(s: State, child: nat, page: nat)
    requires Inv(s) && PlentyFree(s) && Allowed(s, DoFork(child)) && Runnable(s)
    requires Slot(s.cur, page) in s.pte && page in ForkPages(s.mms[s.cur].vmas)
    ensures var t := Fork(s, child);
            && Inv(t) && RoomForFault(t) && t.cur == s.cur && t.cur in t.mms && t.mms[t.cur] == s.mms[s.cur]
            && t.tlb == map[] && Slot(t.cur, page) in t.pte && t.pte[Slot(t.cur, page)].cow
  {
    ForkKeepsInv(s, child);
    ForkedEntries(s, child, page);
    ForkFrames(s, child);
    hide Inv, Core, ForkPages, ForkTablesPresent, ForkLoop;
  }

  /** Fork takes no user frame: the child's tables come from the kernel's pool. */
  lemma ForkFrames(s: State, child: nat)
    requires Core(s) && child !in s.mms
    ensures FramesInRange(s)
    ensures var t := Fork(s, child); FreeFrames(t.desc) == FreeFrames(s.desc) && |t.desc| == |t.data| == |s.desc|
  {
    InvIsRunnable(s);
    var c := s.(mms := s.mms[child := s.mms[s.cur]], target := child);
    AddProcessKeepsCore(s, child, s.mms[s.cur]);
    RootKeepsCore(s.(mms := s.mms[child := s.mms[s.cur]]), child);
    hide Core, ForkPages, FreeFrames, ForkLoop;
    ForkLoopFrames(c, child, ForkPages(s.mms[s.cur].vmas));
  }

  /** load_elf maps code pages writable although their region is not. A store to a writable page
      succeeds before fork; after fork the parent's store succeeds exactly if the address lies in a
      writable region. Fork is therefore transparent for writes to those addresses only. */
  lemma ForkRevokesWrites(s: State, child: nat, a: nat)
    requires Inv(s) && PlentyFree(s) && Allowed(s, DoFork(child)) && Runnable(s)
    requires Slot(s.cur, a / PAGE_SIZE) in s.pte && s.pte[Slot(s.cur, a / PAGE_SIZE)].writable
    requires a / PAGE_SIZE in ForkPages(s.mms[s.cur].vmas)
    ensures Access(s, a, true, 0).Granted?
    ensures Access(Fork(s, child), a, true, 0).Granted? <==> LegalAccess(s, a, true)
  {
    assert EntryOk(s, Slot(s.cur, a / PAGE_SIZE), s.pte[Slot(s.cur, a / PAGE_SIZE)]);
    ForkedParent(s, child, a / PAGE_SIZE);
    var t := Fork(s, child);
    InvIsRunnable(t);
    FaultCanAllocate(t, a / PAGE_SIZE);
    CowStoreGrantedIff(t, a);
  }

  lemma {:induction false} ForkLoopFrames(s: State, child: nat, pages: seq<nat>)
    requires Core(s) && child in s.mms && child != s.cur
    ensures FramesInRange(s)
    ensures FreeFrames(ForkLoop(s, child, pages).desc) == FreeFrames(s.desc)
    decreases |pages|
  {
    InvIsRunnable(s);
    if pages != [] {
      var front := pages[..|pages| - 1];
      ForkLoopFrames(s, child, front);
      ForkLoopKeepsCore(s, child, front);
      var m := ForkLoop(s, child, front);
      if Slot(m.cur, pages[|pages| - 1]) in m.pte {
        assert EntryOk(m, Slot(m.cur, pages[|pages| - 1]), m.pte[Slot(m.cur, pages[|pages| - 1])]);
      }
    }
  }

  // ----- stores the kernel makes on a program's behalf -----

  /** A supervisor store with CR0.WP clear ignores the W bit: it writes the mapped frame. */
  function KernelStore(s: State, a: nat, b: Byte): State
    requires Slot(s.cur, a / PAGE_SIZE) in s.pte && s.pte[Slot(s.cur, a / PAGE_SIZE)].frame < |s.data|
  {
    var f := s.pte[Slot(s.cur, a / PAGE_SIZE)].frame;
    s.(data := s.data[f := Put(s.data[f], a % PAGE_SIZE, b)])
  }

  ghost predicate OthersUnchanged(s: State, t: State, k: Slot) {
    forall m, i {:trigger ByteAt(View(t, m), i)} :: m != k ==> ByteAt(View(t, m), i) == ByteAt(View(s, m), i)
  }

  /** The window's PML4 slot carries no W bit, so its stores work only with CR0.WP clear; but then a
      system call that stores into a user buffer goes through a copy-on-write entry. In every reachable
      state the store stays private exactly if no other entry maps the frame or the byte is unchanged. */
  lemma KernelStoreIsPrivateIff(s: State, a: nat, b: Byte)
    requires Core(s) && Slot(s.cur, a / PAGE_SIZE) in s.pte
    ensures s.pte[Slot(s.cur, a / PAGE_SIZE)].frame < |s.data|
    ensures var k := Slot(s.cur, a / PAGE_SIZE); var f := s.pte[k].frame;
            OthersUnchanged(s, KernelStore(s, a, b), k) <==>
              Maps(s.pte, f) == {k} || ByteAt(s.data[f], a % PAGE_SIZE) == b
  {
    var k := Slot(s.cur, a / PAGE_SIZE);
    ViewOfMapped(s, k);
    var f := s.pte[k].frame;
    assert k in Maps(s.pte, f);
    if Maps(s.pte, f) == {k} {
      StoreToOwnFrame(s, a, b);
    } else if ByteAt(s.data[f], a % PAGE_SIZE) == b {
      StoreOfSameByte(s, a, b);
    } else {
      var m :| m in Maps(s.pte, f) && m != k;
      hide Core, Maps, OthersUnchanged;
      StoreToShared(s, a, b, m);
    }
  }

  lemma StoreToOwnFrame(s: State, a: nat, b: Byte)
    requires Slot(s.cur, a / PAGE_SIZE) in s.pte && s.pte[Slot(s.cur, a / PAGE_SIZE)].frame < |s.data|
    requires Maps(s.pte, s.pte[Slot(s.cur, a / PAGE_SIZE)].frame) == {Slot(s.cur, a / PAGE_SIZE)}
    ensures OthersUnchanged(s, KernelStore(s, a, b), Slot(s.cur, a / PAGE_SIZE))
  {
    forall m | m != Slot(s.cur, a / PAGE_SIZE)
      ensures View(KernelStore(s, a, b), m) == View(s, m)
    {
      assert m in s.pte ==> m in Maps(s.pte, s.pte[m].frame);
    }
    hide View, KernelStore;
  }

  lemma StoreOfSameByte(s: State, a: nat, b: Byte)
    requires Slot(s.cur, a / PAGE_SIZE) in s.pte && s.pte[Slot(s.cur, a / PAGE_SIZE)].frame < |s.data|
    requires ByteAt(s.data[s.pte[Slot(s.cur, a / PAGE_SIZE)].frame], a % PAGE_SIZE) == b
    ensures OthersUnchanged(s, KernelStore(s, a, b), Slot(s.cur, a / PAGE_SIZE))
  {
  }

  /** Another entry for the frame sees a byte that changes. */
  lemma StoreToShared(s: State, a: nat, b: Byte, m: Slot)
    requires Slot(s.cur, a / PAGE_SIZE) in s.pte && s.pte[Slot(s.cur, a / PAGE_SIZE)].frame < |s.data|
    requires m in Maps(s.pte, s.pte[Slot(s.cur, a / PAGE_SIZE)].frame) && m != Slot(s.cur, a / PAGE_SIZE)
    requires ByteAt(s.data[s.pte[Slot(s.cur, a / PAGE_SIZE)].frame], a % PAGE_SIZE) != b
    ensures !OthersUnchanged(s, KernelStore(s, a, b), Slot(s.cur, a / PAGE_SIZE))
  {
    assert ByteAt(View(KernelStore(s, a, b), m), a % PAGE_SIZE) == b;
  }

  /** The same by the frame's own descriptor, whose count the kernel can look at: a count of zero keeps
      the store private in every reachable state, and where the count is exact nothing else does. */
  lemma KernelStoreByCount(s: State, a: nat, b: Byte)
    requires Core(s) && Slot(s.cur, a / PAGE_SIZE) in s.pte
    ensures s.pte[Slot(s.cur, a / PAGE_SIZE)].frame < |s.data| == |s.desc|
    ensures var k := Slot(s.cur, a / PAGE_SIZE); var f := s.pte[k].frame;
            && (s.desc[f].refCount == 0 ==> OthersUnchanged(s, KernelStore(s, a, b), k))
            && (|Maps(s.pte, f)| == s.desc[f].refCount + 1 ==>
                  (OthersUnchanged(s, KernelStore(s, a, b), k) <==>
                     s.desc[f].refCount == 0 || ByteAt(s.data[f], a % PAGE_SIZE) == b))
  {
    var k := Slot(s.cur, a / PAGE_SIZE);
    ViewOfMapped(s, k);
    KernelStoreIsPrivateIff(s, a, b);
    var f := s.pte[k].frame;
    assert k in Maps(s.pte, f) && |Maps(s.pte, f)| <= s.desc[f].refCount + 1;
    if s.desc[f].refCount == 0 {
      SingletonSet(Maps(s.pte, f), k);
    }
    hide Core, OthersUnchanged, KernelStore;
  }

  // ----- exact counts -----

  /** Exec's remapping keeps the counts exact exactly if the page was not mapped before: otherwise
      the old frame's count is never lowered. */
  lemma RemapKeepsExactIff(s: State, page: nat, content: Page)
    requires Core(s) && Exact(s) && CanAllocate(s) && HasTables(s, s.cur, page)
    ensures Exact(MapFresh(s, page, content, true)) <==> Slot(s.cur, page) !in s.pte
  {
    MapFreshKeepsCore(s, page, content, true);
    var k := Slot(s.cur, page);
    if k in s.pte {
      assert EntryOk(s, k, s.pte[k]);
      var t := MapFresh(s, page, content, true);
      var f := s.pte[k].frame;
      AllocationFacts(s);
      CountsAfterSet(s, t, k, t.pte[k]);
      assert k in Maps(s.pte, f);
      assert UserFrame(t, f) && |Maps(t.pte, f)| == |Maps(s.pte, f)| - 1;
    }
  }

  /** The region's page range, as fork rounds it, contains the page. */
  ghost predicate Visits(vmas: seq<Vma>, i: nat, page: nat)
    requires i < |vmas|
  {
    vmas[i].start / PAGE_SIZE <= page < PageLimit(vmas[i], i == |vmas| - 1)
  }

  lemma {:induction false} InForkPages(vmas: seq<Vma>, page: nat)
    ensures page in ForkPages(vmas) <==> exists i: nat :: i < |vmas| && Visits(vmas, i, page)
    decreases |vmas|
  {
    if vmas != [] {
      var rest := vmas[1..];
      InForkPages(rest, page);
      forall i: nat | i < |rest|
        ensures Visits(rest, i, page) == Visits(vmas, i + 1, page)
      {
      }
      if page in ForkPages(rest) {
        var i: nat :| i < |rest| && Visits(rest, i, page);
        assert Visits(vmas, i + 1, page);
      }
      if i: nat :| i < |vmas| && Visits(vmas, i, page) {
        if i > 0 {
          assert Visits(rest, i - 1, page);
        }
      }
      assert page in PageRange(vmas[0].start / PAGE_SIZE, PageLimit(vmas[0], |vmas| == 1)) <==> Visits(vmas, 0, page);
    }
  }

  /** set_child_pt's end of a region: the first page boundary at or above it, and for the last region of the
      chain the page above that one, too. */
  lemma PageLimitIs(vma: Vma, last: bool)
    ensures var end := 4096 * (PageLimit(vma, last) - (if last then 1 else 0)); vma.end <= end < vma.end + 4096
  {
  }

  /** Fork visits the guard page above the last region, for a chain of any length. */
  lemma GuardPageIsForked(vmas: seq<Vma>, guard: nat)
    requires vmas != [] && var last := vmas[|vmas| - 1];
                           last.start <= last.end <= guard * 4096 < last.end + 4096
    ensures guard in ForkPages(vmas)
  {
    var last := |vmas| - 1;
    PageLimitIs(vmas[last], true);
    assert Visits(vmas, last, guard);
    InForkPages(vmas, guard);
  }

  /** What fork copies includes every page that a region meets. */
  lemma RegionsAreForked(vmas: seq<Vma>, vma: Vma, page: nat)
    requires vma in vmas && Meets(vma, page)
    ensures page in ForkPages(vmas)
  {
    var i :| 0 <= i < |vmas| && vmas[i] == vma;
    assert Visits(vmas, i, page);
    InForkPages(vmas, page);
  }

  /** The specification machine's fork gives the child every byte of the parent's regions and leaves
      all other memory alone. */
  lemma EagerForkCopiesRegions(e: Eager, child: nat, a: nat, k: Slot)
    requires e.cur in e.mms && child != e.cur && InVma(e.mms[e.cur].vmas, a).Some?
    requires forall m :: m in e.mem ==> m.pid != child
    ensures var f := EagerNext(e, DoFork(child)).0;
            && PageOf(f, Slot(child, a / PAGE_SIZE)) == PageOf(e, Slot(e.cur, a / PAGE_SIZE))
            && (k.pid != child ==> PageOf(f, k) == PageOf(e, k))
  {
    var vmas := e.mms[e.cur].vmas;
    ContainsMeets(InVma(vmas, a).value, a);
    RegionsAreForked(vmas, InVma(vmas, a).value, a / PAGE_SIZE);
    EagerForkPages(e, child, Slot(child, a / PAGE_SIZE));
    EagerForkPages(e, child, k);
    hide ForkPages, InVma, Meets, CopyPages, EagerNext, PageOf;
  }
}
