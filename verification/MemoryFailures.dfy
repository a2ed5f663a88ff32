/** The failures of the copy-on-write memory, each exhibited in a state reachable from boot. */
module MemoryFailures {
  import opened Addresses
  import opened Options
  import opened CowModel
  import opened CowSafety
  import opened CowTransparency
  import opened CowLimits
  import opened CowCounts
  import opened Elf
  import opened Exec
  import opened Boot

  const CODE: nat := 0x400
  const CODE_ADDR: nat := CODE * PAGE_SIZE

  /** One read-only region of one page, as setup_vma describes a small code segment. */
  const CODE_MM: Mm := Mm([Vma(CODE_ADDR, CODE_ADDR + PAGE_SIZE, false)], 0)
  const CODE_PAGE: Page := map[0 := 7]
  const CODE_IMAGE: seq<(nat, Page)> := [(CODE, CODE_PAGE)]

  function Booted(): State {
    BootState(16, 1, Mm([], 0))
  }

  /** Process 1 has executed a program with one page of code and the given regions. */
  function ExecutedAs(mm: Mm): State {
    Flush(MapImage(Booted(), CODE_IMAGE)).(mms := map[1 := mm])
  }

  function Executed(): State {
    ExecutedAs(CODE_MM)
  }

  lemma BootedFacts()
    ensures var s := Booted();
            && Inv(s) && Exact(s) && Runnable(s) && CanAllocate(s) && s.cur == 1 && s.mms == map[1 := Mm([], 0)]
            && s.pte == map[] && s.dirs == {} && s.high == {} && s.target == 1 && |FreeFrames(s.desc)| == 16
  {
    BootIsSafe(16, 1, Mm([], 0));
    FreeAtBoot(16, 1, Mm([], 0));
    AllocationCount(Booted());
    hide InitPhyPage, Inv, FreeFrames;
  }

  /** ExecutedAs is what the exec step leaves. */
  lemma ExecutedSteps(mm: Mm)
    ensures var b, m := Booted(), MapFresh(Booted(), CODE, CODE_PAGE, true).(dirs := WithTables({}, 1, CODE));
            && CanAllocate(b) && Runnable(b) && Allowed(b, DoExec(CODE_IMAGE, mm)) && Inv(b) && Exact(b)
            && ExecutedAs(mm) == Flush(m).(mms := map[1 := mm]) == Next(b, DoExec(CODE_IMAGE, mm)).0
  {
    BootedFacts();
    var b := Booted();
    hide BootState, Booted, Inv, FreeFrames, Exact;
    var m := MapFresh(b, CODE, CODE_PAGE, true).(dirs := WithTables(b.dirs, 1, CODE));
    assert CODE_IMAGE[1..] == [];
    assert MapImage(b, CODE_IMAGE) == MapImage(m, []) == m;
    assert b.mms[1 := mm] == map[1 := mm];
  }

  /** Process 1 with its code page and nothing else mapped. */
  ghost predicate Loaded(s: State, mm: Mm) {
    && Inv(s) && Exact(s) && Runnable(s) && |FreeFrames(s.desc)| == 15
    && s.cur == 1 && s.target == 1 && s.mms == map[1 := mm] && s.high == {} && s.dirs == WithTables({}, 1, CODE)
    && (forall k {:trigger k in s.pte} :: k in s.pte <==> k == Slot(1, CODE))
    && s.pte[Slot(1, CODE)].writable && s.pte[Slot(1, CODE)].frame < |s.data|
    && s.data[s.pte[Slot(1, CODE)].frame] == CODE_PAGE
  }

  lemma ExecutedInv(mm: Mm)
    ensures var s := ExecutedAs(mm); Inv(s) && Exact(s) && Runnable(s) && |FreeFrames(s.desc)| == 15
  {
    ExecutedSteps(mm);
    BootedFacts();
    var b := Booted();
    AllocationCount(b);
    hide BootState, Booted, Inv, MapImage, FreeFrames, Exact;
    assert Unmapped(b, CODE_IMAGE);
    StepKeepsInv(b, DoExec(CODE_IMAGE, mm));
    assert Core(ExecutedAs(mm)) by {
      CoreOfInv(ExecutedAs(mm));
    }
    InvIsRunnable(ExecutedAs(mm));
  }

  lemma ExecutedIsLoaded(mm: Mm)
    ensures Loaded(ExecutedAs(mm), mm)
  {
    ExecutedSteps(mm);
    ExecutedInv(mm);
    BootedFacts();
    hide Booted, ExecutedAs, Inv, Exact, FreeFrames, Runnable;
  }

  lemma LoadedParts(s: State, mm: Mm)
    requires Loaded(s, mm)
    ensures Inv(s) && Core(s) && Exact(s) && Runnable(s) && |FreeFrames(s.desc)| == 15
    ensures s.cur == 1 && s.target == 1 && s.mms == map[1 := mm] && s.high == {} && Slot(1, CODE) in s.pte
    ensures s.cur in s.mms && FramesInRange(s)
  {
    CoreOfInv(s);
    hide Inv, Core, Exact, FreeFrames;
  }

  // ----- fork -----

  lemma CodeIsForked()
    ensures ForkPages(CODE_MM.vmas) == [CODE, CODE + 1]
  {
    var vma := CODE_MM.vmas[0];
    assert CODE_MM.vmas[1..] == [];
    assert ForkPages(CODE_MM.vmas) == PageRange(CODE, CODE + 2) + ForkPages([]);
    assert PageRange(CODE, CODE) == [];
    assert PageRange(CODE, CODE + 1) == PageRange(CODE, CODE) + [CODE];
    assert PageRange(CODE, CODE + 2) == PageRange(CODE, CODE + 1) + [CODE + 1];
  }

  lemma ForkIsAllowed(s: State)
    requires Loaded(s, CODE_MM)
    ensures Allowed(s, DoFork(2))
  {
    CodeIsForked();
    hide ForkPages, Inv, Exact, Runnable, FreeFrames;
    assert DirOf(1, 4, CODE + 1) == DirOf(1, 4, CODE);
    assert DirOf(1, 3, CODE + 1) == DirOf(1, 3, CODE);
    assert DirOf(1, 2, CODE + 1) == DirOf(1, 2, CODE);
  }

  lemma CodeStores(s: State)
    requires Loaded(s, CODE_MM)
    ensures s.pte[Slot(1, CODE)].writable && !LegalAccess(s, CODE_ADDR, true)
    ensures Access(s, CODE_ADDR, true, 0).Granted? && !Access(Fork(s, 2), CODE_ADDR, true, 0).Granted?
  {
    LoadedParts(s, CODE_MM);
    ForkIsAllowed(s);
    CodeIsForked();
    assert PlentyFree(s);
    hide Inv, Core, Exact, ForkPages, FreeFrames, Access, Fork, Allowed, PlentyFree;
    assert CODE_ADDR / PAGE_SIZE == CODE;
    assert InVma(CODE_MM.vmas, CODE_ADDR) == Some(CODE_MM.vmas[0]);
    ForkRevokesWrites(s, 2, CODE_ADDR);
  }

  /** After exec the program may write its code page, outside every writable region; once it has forked,
      the same store kills it. */
  lemma CodeWriteLostByFork()
    ensures var s := Executed();
            && Runnable(s) && Slot(1, CODE) in s.pte && s.pte[Slot(1, CODE)].writable
              && !LegalAccess(s, CODE_ADDR, true)
            && Access(s, CODE_ADDR, true, 0).Granted?
            && !Access(Fork(s, 2), CODE_ADDR, true, 0).Granted?
  {
    assert Executed() == ExecutedAs(CODE_MM) by {
      hide ExecutedAs;
    }
    hide *;
    ExecutedIsLoaded(CODE_MM);
    LoadedParts(Executed(), CODE_MM);
    CodeStores(Executed());
  }

  /** What fork leaves: one frame under the entries of both. */
  ghost predicate Shared(t: State) {
    && Inv(t) && Exact(t) && Runnable(t) && |FreeFrames(t.desc)| == 15
    && t.cur == 1 && t.target == 2 && t.mms.Keys == {1, 2} && t.high == {}
    && Slot(1, CODE) in t.pte && Slot(2, CODE) in t.pte
    && t.pte[Slot(2, CODE)].frame == t.pte[Slot(1, CODE)].frame < |t.data|
    && t.data[t.pte[Slot(1, CODE)].frame] == CODE_PAGE
  }

  lemma ForkedInv(s: State)
    requires Loaded(s, CODE_MM)
    ensures Inv(Fork(s, 2)) && Exact(Fork(s, 2)) && Runnable(Fork(s, 2)) && |FreeFrames(Fork(s, 2).desc)| == 15
  {
    LoadedParts(s, CODE_MM);
    CodeIsForked();
    assert MappedOnce(s, ForkPages(s.mms[1].vmas)) by {
      hide ForkPages, Inv, Exact;
    }
    hide *;
    ForkKeepsInv(s, 2);
    ForkFrames(s, 2);
    CoreOfInv(Fork(s, 2));
    InvIsRunnable(Fork(s, 2));
  }

  lemma ForkShares(s: State)
    requires Loaded(s, CODE_MM)
    ensures Shared(Fork(s, 2))
  {
    LoadedParts(s, CODE_MM);
    CodeIsForked();
    ForkedInv(s);
    hide Fork, Core, Inv, Exact, ForkPages, FreeFrames, Runnable;
    ForkedEntries(s, 2, CODE);
  }

  lemma ForkedIsShared()
    ensures Runnable(Executed()) && Loaded(Executed(), CODE_MM)
    ensures Executed().cur in Executed().mms && FramesInRange(Executed()) && Shared(Fork(Executed(), 2))
  {
    assert Executed() == ExecutedAs(CODE_MM) by {
      hide ExecutedAs;
    }
    hide *;
    ExecutedIsLoaded(CODE_MM);
    LoadedParts(Executed(), CODE_MM);
    ForkShares(Executed());
  }

  lemma SharedParts(t: State)
    requires Shared(t)
    ensures Inv(t) && Core(t) && Exact(t) && Runnable(t) && |FreeFrames(t.desc)| >= 1
    ensures t.cur == 1 && t.target == 2 && 2 in t.mms && Slot(1, CODE) in t.pte && Slot(2, CODE) in t.pte
    ensures t.pte[Slot(2, CODE)].frame == t.pte[Slot(1, CODE)].frame < |t.data|
  {
    CoreOfInv(t);
    hide Inv, Core, Exact, Runnable, FreeFrames;
  }

  lemma StoreReachesChild(t: State)
    requires Shared(t)
    ensures t.cur == 1 && Slot(1, CODE) in t.pte && t.pte[Slot(1, CODE)].frame < |t.data|
    ensures CODE_ADDR / PAGE_SIZE == CODE && !OthersUnchanged(t, KernelStore(t, CODE_ADDR, 1), Slot(1, CODE))
  {
    SharedParts(t);
    hide Inv, Core, Exact, Runnable, FreeFrames, OthersUnchanged, KernelStore;
    assert Slot(2, CODE) in Maps(t.pte, t.pte[Slot(1, CODE)].frame);
    assert ByteAt(CODE_PAGE, CODE_ADDR % PAGE_SIZE) == 7;
    KernelStoreIsPrivateIff(t, CODE_ADDR, 1);
  }

  /** With CR0.WP clear, as the window needs it, a store that the kernel makes for the parent right after
      fork is seen by the child. */
  lemma KernelStoreLeaks()
    ensures Runnable(Executed())
    ensures var t := Fork(Executed(), 2);
            && t.cur == 1 && Slot(1, CODE) in t.pte && t.pte[Slot(1, CODE)].frame < |t.data|
              && CODE_ADDR / PAGE_SIZE == CODE
            && !OthersUnchanged(t, KernelStore(t, CODE_ADDR, 1), Slot(1, CODE))
  {
    hide *;
    ForkedIsShared();
    StoreReachesChild(Fork(Executed(), 2));
  }

  // ----- counts -----

  lemma SecondExecDrifts(s: State)
    requires Loaded(s, CODE_MM)
    ensures Runnable(s) && Exact(s) && !Exact(Next(s, DoExec(CODE_IMAGE, CODE_MM)).0)
  {
    LoadedParts(s, CODE_MM);
    hide Inv, Core, Exact, Runnable, FreeFrames, Next;
    assert CODE_IMAGE[0].0 == CODE;
    assert !Unmapped(s, CODE_IMAGE);
    StepKeepsExactIff(s, DoExec(CODE_IMAGE, CODE_MM));
  }

  lemma ReapingDrifts(t: State)
    requires Shared(t)
    ensures Exact(t) && !Exact(ReapProcess(t, 2))
  {
    SharedParts(t);
    hide Inv, Core, Exact, Runnable, FreeFrames, ReapProcess;
    assert !NoEntries(t, 2);
    ReapKeepsExactIff(t, 2);
  }

  /** A second exec over the same page leaves the old frame's count too high, and so does reaping a child. */
  lemma CountsDrift()
    ensures Runnable(Executed()) && Exact(Executed()) && !Exact(Next(Executed(), DoExec(CODE_IMAGE, CODE_MM)).0)
    ensures Exact(Fork(Executed(), 2)) && !Exact(ReapProcess(Fork(Executed(), 2), 2))
  {
    hide *;
    ForkedIsShared();
    SecondExecDrifts(Executed());
    ReapingDrifts(Fork(Executed(), 2));
  }

  // ----- exec in the wrong address space -----

  /** Process 1 sees the same in both states. */
  ghost predicate SameForParent(s: State, t: State) {
    forall k: Slot {:trigger View(t, k)} :: k.pid == 1 ==> View(t, k) == View(s, k)
  }

  lemma MapElseSeen(t: State)
    requires Inv(t) && Runnable(t) && t.cur == 1 && t.target == 2 && 2 in t.mms && |FreeFrames(t.desc)| >= 1
    ensures var u := Next(t, MapElse([CODE])).0;
            SameForParent(t, u) && View(u, Slot(2, CODE)) == ZERO_PAGE
  {
    hide Inv, MapElsewhere, FreeFrames, View;
    forall k: Slot
      ensures View(MapElsewhere(t, [CODE]), k) ==
              if k.pid == 2 && k.page == CODE then ZERO_PAGE else View(t, k)
    {
      ElsewhereView(t, [CODE], k);
    }
  }

  lemma HitsChild(t: State)
    requires Shared(t)
    ensures Runnable(t) && !Allowed(t, DoExec(CODE_IMAGE, CODE_MM)) && Allowed(t, MapElse([CODE]))
    ensures var u := Next(t, MapElse([CODE])).0;
            && ByteAt(View(t, Slot(2, CODE)), 0) == 7 && ByteAt(View(u, Slot(2, CODE)), 0) == 0
            && SameForParent(t, u)
  {
    SharedParts(t);
    hide Inv, Core, Exact, Runnable, FreeFrames, Next, SameForParent;
    assert View(t, Slot(2, CODE)) == CODE_PAGE;
    hide View;
    MapElseSeen(t);
  }

  /** After a fork the parent's exec is not the machine's exec step: umalloc takes the page from the child,
      whose code then reads zero, and the parent's entry stays. */
  lemma ParentsExecHitsChild()
    ensures Runnable(Executed())
    ensures var t := Fork(Executed(), 2);
            && Runnable(t) && !Allowed(t, DoExec(CODE_IMAGE, CODE_MM)) && Allowed(t, MapElse([CODE]))
            && var u := Next(t, MapElse([CODE])).0;
               && ByteAt(View(t, Slot(2, CODE)), 0) == 7 && ByteAt(View(u, Slot(2, CODE)), 0) == 0
               && SameForParent(t, u)
  {
    hide *;
    ForkedIsShared();
    HitsChild(Fork(Executed(), 2));
  }

  // ----- memory of the old program -----

  const HEAP_PAGE: nat := HEAP_BASE / PAGE_SIZE
  /** The regions of a program with a heap of one page. */
  const HEAP_MM: Mm := Mm([Vma(HEAP_BASE, HEAP_BASE + PAGE_SIZE, true)], HEAP_BASE + PAGE_SIZE)

  /** The program has its code mapped and nothing else. */
  function WithHeap(): State {
    ExecutedAs(HEAP_MM)
  }

  lemma HeapIsLegal(s: State)
    requires Loaded(s, HEAP_MM)
    ensures Resolvable(s) && LegalAccess(s, HEAP_BASE, true) && Ready(s, HEAP_BASE)
  {
    LoadedParts(s, HEAP_MM);
    assert InVma(HEAP_MM.vmas, HEAP_BASE) == Some(HEAP_MM.vmas[0]);
    assert HEAP_BASE / PAGE_SIZE == HEAP_PAGE;
    hide FreeFrames, Exact, Inv, Core;
    FaultCanAllocate(s, HEAP_PAGE);
    hide RoomForTables;
  }

  /** The heap's tables are not on the way to the code. */
  lemma CodeStaysDirect(s: State, t: State)
    requires Loaded(s, HEAP_MM) && BuiltOnPath(s, t, HEAP_PAGE)
    ensures DirectPath(t.high, 1, CODE)
  {
    hide Inv, Exact, Runnable, FreeFrames;
  }

  lemma HeapByteStored(s: State)
    requires Loaded(s, HEAP_MM)
    ensures Runnable(s) && Enabled(s, Store(HEAP_BASE, 5, false))
    ensures var t := Next(s, Store(HEAP_BASE, 5, false)).0;
            && Inv(t) && t.cur == 1 && ByteAt(View(t, Slot(1, HEAP_PAGE)), 0) == 5
            && t.target == 1 && DirectPath(t.high, 1, CODE)
  {
    LoadedParts(s, HEAP_MM);
    HeapIsLegal(s);
    assert HEAP_BASE / PAGE_SIZE == HEAP_PAGE && HEAP_BASE % PAGE_SIZE == 0;
    hide Loaded, Inv, Core, Resolvable, FreeFrames, Next, Exact, Ready, LegalAccess, Runnable, DirectPath, WithTables,
      View;
    StoreObserved(s, HEAP_BASE, 5, false);
    StepKeepsInv(s, Store(HEAP_BASE, 5, false));
    StorePath(s, HEAP_BASE, 5, false);
    CodeStaysDirect(s, Next(s, Store(HEAP_BASE, 5, false)).0);
  }

  lemma SecondExec(t: State)
    requires Inv(t) && t.cur == 1 && t.target == 1 && DirectPath(t.high, 1, CODE)
    ensures Runnable(t) && Allowed(t, DoExec(CODE_IMAGE, HEAP_MM))
    ensures View(Next(t, DoExec(CODE_IMAGE, HEAP_MM)).0, Slot(1, HEAP_PAGE)) == View(t, Slot(1, HEAP_PAGE))
  {
    assert !InImage(CODE_IMAGE, HEAP_PAGE);
    hide Next, Core, View, Coherent;
    NewProgramSees(t, CODE_IMAGE, HEAP_MM, HEAP_PAGE);
  }

  /** A program stores a byte on its heap and executes itself again: the new program finds the byte on its
      own heap. */
  lemma OldHeapShows()
    ensures var s := WithHeap();
            && Runnable(s) && Enabled(s, Store(HEAP_BASE, 5, false))
            && var t := Next(s, Store(HEAP_BASE, 5, false)).0;
               && Runnable(t) && t.cur == 1 && Allowed(t, DoExec(CODE_IMAGE, HEAP_MM))
               && ByteAt(View(Next(t, DoExec(CODE_IMAGE, HEAP_MM)).0, Slot(1, HEAP_PAGE)), 0) == 5
  {
    assert WithHeap() == ExecutedAs(HEAP_MM) by {
      hide ExecutedAs;
    }
    hide *;
    ExecutedIsLoaded(HEAP_MM);
    HeapByteStored(WithHeap());
    SecondExec(Next(WithHeap(), Store(HEAP_BASE, 5, false)).0);
  }
}
