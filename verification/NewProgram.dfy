/** What a program finds when do_execv has started it: its regions by address, a stack that grows to 1 MB,
    and children that have its arguments. */
module NewProgram {
  import opened Addresses
  import opened Options
  import opened CowModel
  import opened CowSafety
  import opened CowTransparency
  import opened CowLimits
  import opened CowCounts
  import opened CowFrames
  import opened Elf
  import opened ElfLoad
  import opened Exec

  predicate InCode(lay: Layout, a: nat) {
    lay.startCode <= a < lay.endCode
  }

  predicate InData(lay: Layout, a: nat) {
    lay.startData <= a < lay.endData + lay.bss
  }

  /** The first heap page. */
  predicate InHeap(a: nat) {
    0x4000_0000 <= a < 0x4000_1000
  }

  /** 256 pages below 4 GB. */
  predicate InStack(a: nat) {
    0xFFF0_0000 <= a < 0x1_0000_0000
  }

  lemma FourRegions(vmas: seq<Vma>, a: nat)
    requires |vmas| == 4
    ensures InVma(vmas, a) ==
            if Contains(vmas[0], a) then Some(vmas[0])
            else if Contains(vmas[1], a) then Some(vmas[1])
            else if Contains(vmas[2], a) then Some(vmas[2])
            else if Contains(vmas[3], a) then Some(vmas[3])
            else None
  {
    assert vmas[1..][0] == vmas[1] && vmas[2..][0] == vmas[2] && vmas[3..][0] == vmas[3];
    assert vmas[1..][1..] == vmas[2..] && vmas[2..][1..] == vmas[3..] && vmas[3..][1..] == [];
    assert InVma(vmas, a) == if Contains(vmas[0], a) then Some(vmas[0]) else InVma(vmas[1..], a);
    assert InVma(vmas[1..], a) == if Contains(vmas[1], a) then Some(vmas[1]) else InVma(vmas[2..], a);
    assert InVma(vmas[2..], a) == if Contains(vmas[2], a) then Some(vmas[2]) else InVma(vmas[3..], a);
    assert InVma(vmas[3..], a) == if Contains(vmas[3], a) then Some(vmas[3]) else InVma([], a);
  }

  /** An address lies in a region of the new program if and only if a segment of the program has it, or it
      is in the first heap page or in the 256 pages of the stack; and it may be written unless it is code. */
  lemma RegionsOfNewProgram(lay: Layout, a: nat)
    ensures var r := InVma(SetupVma(lay).vmas, a);
            && (r.Some? <==> InCode(lay, a) || InData(lay, a) || InHeap(a) || InStack(a))
            && (r.Some? ==> (r.value.writable <==> !InCode(lay, a)))
  {
    FourRegions(SetupVma(lay).vmas, a);
    hide InVma;
  }

  /** What do_execv leaves keeps the conditions of the theorems about runs. */
  lemma NewProgramIsSound(s: State, image: Image, mm: Mm)
    requires Inv(s) && Resolvable(s) && Runnable(s) && Enabled(s, Step.DoExec(image, mm))
    ensures var t := Next(s, Step.DoExec(image, mm)).0;
            && Inv(t) && Resolvable(t) && t.cur == s.cur && t.mms == s.mms[s.cur := mm]
            && |t.desc| == |t.data| && FIRST_USER_FRAME <= |t.desc|
            && |FreeFrames(t.desc)| == |FreeFrames(s.desc)| - |image|
  {
    assert Core(s) by {
      CoreOfInv(s);
    }
    StepKeepsInv(s, Step.DoExec(image, mm));
    CowFrames.StepTakes(s, Step.DoExec(image, mm));
    ExecKeepsResolvable(s, image, mm);
    MapImageKeepsCore(s, image);
    SizedAfter(Next(s, Step.DoExec(image, mm)).0);
    hide Inv, Core, Resolvable, MapImage, FreeFrames, Separated, CoversReadOnly, DirectPath, HasTables;
  }

  lemma SizedAfter(t: State)
    requires Inv(t)
    ensures |t.desc| == |t.data| && FIRST_USER_FRAME <= |t.desc|
  {
  }

  /** Where the new program may store, it can: the stack pages that are not mapped yet included, after one
      fault at most. */
  lemma StoreAfterExec(s: State, image: Image, lay: Layout, a: nat)
    requires Inv(s) && Resolvable(s) && Runnable(s) && Enabled(s, Step.DoExec(image, SetupVma(lay)))
    requires |FreeFrames(s.desc)| >= |image| + 4
    requires (InData(lay, a) || InHeap(a) || InStack(a)) && !InCode(lay, a)
    ensures var r := Access(Next(s, Step.DoExec(image, SetupVma(lay))).0, a, true, 0); r.Granted? && r.faults <= 1
  {
    var mm := SetupVma(lay);
    var t := Next(s, Step.DoExec(image, mm)).0;
    NewProgramIsSound(s, image, mm);
    RegionsOfNewProgram(lay, a);
    assert Core(t) by {
      CoreOfInv(t);
    }
    InvIsRunnable(t);
    assert LegalAccess(t, a, true);
    hide Inv, Core, Resolvable, Enabled, Next, SetupVma, FreeFrames, Access, InVma;
    FaultCanAllocate(t, a / PAGE_SIZE);
    hide RoomForTables, CanAllocate;
    LegalAccessGranted(t, a, true);
  }

  // ----- fork by the new program -----

  /** A fork of the new program visits all 256 pages of the stack, and the page above it. */
  lemma StackIsForked(lay: Layout, page: nat)
    requires 0xF_FF00 <= page <= 0x10_0000
    ensures page in ForkPages(SetupVma(lay).vmas)
  {
    var vmas := SetupVma(lay).vmas;
    PageLimitIs(vmas[3], true);
    assert Visits(vmas, 3, page);
    hide SetupVma;
    InForkPages(vmas, page);
  }

  /** The child has its parent's stack, the arguments at its top included: at every stack address that the
      parent has mapped it reads what the parent reads. */
  lemma ChildHasArguments(u: State, child: nat, lay: Layout, a: nat)
    requires Core(u) && Runnable(u) && child !in u.mms && u.mms[u.cur].vmas == SetupVma(lay).vmas
    requires InStack(a) && MappedAt(u, a)
    ensures var t := Fork(u, child).(cur := child); MappedAt(t, a) && UserByte(t, a) == UserByte(u, a)
  {
    StackIsForked(lay, PageNo(a));
    hide Core, Fork, SetupVma, PageNo, ForkPages, Runnable;
    ForkedEntries(u, child, PageNo(a));
  }
}
