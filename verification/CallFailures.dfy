/** The failures of exec, sbrk and the recursive window at concrete arguments. */
module CallFailures {
  import opened Addresses
  import opened CowModel
  import opened CowSafety
  import Elf
  import ElfLoad
  import Exec
  import ExecStack
  import Heap
  import PageTable
  import RecursiveWindow

  /** execv("a", {"a", NULL}, NULL): _start takes the byte of argv[0] for an environment pointer. */
  method NoEnvironment() returns (page: array<ExecStack.Byte>, rsp: nat)
    ensures page.Length == PAGE_SIZE && ExecStack.ReadUntilNull(page[..], ExecStack.StartEnvp(rsp, 1)) != []
  {
    page := new ExecStack.Byte[PAGE_SIZE](_ => 0);
    var argv: seq<ExecStack.Str> := [[97]];
    assert argv[..0] == [] && ExecStack.Total(argv) == 2;
    var ap, ep, bounds;
    rsp, ap, ep, bounds := ExecStack.BuildStack(page, argv, []);
    assert ep == [];
    ExecStack.EmptyEnvironmentIff(page[..], rsp, argv, ap);
  }

  /** A byte of code and a byte of data on one page. */
  const FILE: seq<Byte> := [7, 9]
  const HEADERS: seq<Elf.Segment> :=
    [Elf.Segment(true, true, 0, 0x400000, 1, 1), Elf.Segment(true, false, 1, 0x400001, 1, 1)]

  lemma HeadersShareAPage(file: seq<Byte>)
    requires file == FILE
    ensures ElfLoad.AllOk(file, HEADERS) && Exec.Decides(HEADERS, 1, 0x400000) && Exec.Decides(HEADERS, 1, 0x400001)
    ensures ElfLoad.PageNo(0x400000) == ElfLoad.PageNo(0x400001) == 0x400
  {
    assert ElfLoad.SegPages(HEADERS[1]) == 1;
  }

  /** On a TLB that keeps every translation both bytes are lost; on one that keeps none only the first. */
  lemma SharedPageLosesBytes(s: State, keeps: nat -> ElfLoad.Keeps, image: Elf.Image)
    requires ElfLoad.AllOk(FILE, HEADERS) && ElfLoad.LoadedImage(FILE, HEADERS, keeps, 2, image)
             && Elf.RoomFor(s, |image|)
    ensures Exec.MappedAt(MapImage(s, image), 0x400000) && Exec.MappedAt(MapImage(s, image), 0x400001)
    ensures Exec.UserByte(MapImage(s, image), 0x400000) == 0
    ensures (forall i: nat, a: nat {:trigger keeps(i)(a)} :: keeps(i)(a)) ==>
              Exec.UserByte(MapImage(s, image), 0x400001) == 0
    ensures (forall i: nat, a: nat {:trigger keeps(i)(a)} :: !keeps(i)(a)) ==>
              Exec.UserByte(MapImage(s, image), 0x400001) == 9
  {
    HeadersShareAPage(FILE);
    Exec.LoadedByte(s, FILE, HEADERS, keeps, image, 1, 0x400000);
    Exec.LoadedByte(s, FILE, HEADERS, keeps, image, 1, 0x400001);
    assert Exec.SegByte(FILE, HEADERS[1], 0x400000) == 0 && Exec.SegByte(FILE, HEADERS[1], 0x400001) == 9;
    if forall i: nat, a: nat {:trigger keeps(i)(a)} :: keeps(i)(a) {
      Exec.LostIfAllKept(HEADERS, keeps, 1, 0x400001);
      assert Exec.Touched(0x400000, 1, 0x400);
      assert Exec.StoresOn(HEADERS[0], 0x400);
    }
    if forall i: nat, a: nat {:trigger keeps(i)(a)} :: !keeps(i)(a) {
      NotKept(keeps);
      Exec.ReachesIff(HEADERS, keeps, 1, 0x400001);
    }
    hide MapImage, ElfLoad.LoadedImage, Elf.RoomFor, Exec.UserByte, Exec.MappedAt, Exec.Reaches, ElfLoad.Cached;
  }

  lemma NotKept(keeps: nat -> ElfLoad.Keeps)
    requires forall i: nat, a: nat {:trigger keeps(i)(a)} :: !keeps(i)(a)
    ensures !ElfLoad.Cached(HEADERS, keeps, 1, 0x400)
  {
    assert !keeps(0)(0x400000);
    assert ElfLoad.InTlb(false, 0x400000, 1, keeps(0), 0x400) == keeps(0)(0x400000);
    assert !ElfLoad.Cached(HEADERS, keeps, 0, 0x400);
  }

  /** sbrk(4 GB) succeeds and gives nothing; at the last page below 4 GB sbrk(4096) moves the region's end
      to zero. */
  lemma SbrkGoesWrong(mm: Mm)
    requires Heap.HeapOk(mm)
    ensures Sbrk(mm, 0x1_0000_0000) == Unchanged(mm.brk)
    ensures mm.brk == 0xFFFF_F000 ==> Sbrk(mm, 0x1000).Grown? && Sbrk(mm, 0x1000).mm.vmas[HEAP].end == 0
  {
    Heap.SilentSuccessIff(mm, 0x1_0000_0000);
    Heap.MaskAligned0(mm.brk);
    if mm.brk == 0xFFFF_F000 {
      Heap.MaskIsSum(mm.brk, 0x1000);
    }
    hide Mask32;
  }

  /** A missing file: the stack page the program comes back to is the new one, and brk is reset. */
  lemma FailedExecLosesStack(s: State, stack: Page, o: nat)
    requires Core(s) && CanAllocate(s) && o < PAGE_SIZE
    ensures var t := Elf.MapOne(Exec.HeapReset(s), STACK_PAGE, stack);
            && t.mms[t.cur].brk == HEAP_BASE + PAGE_SIZE
            && Exec.MappedAt(t, STACK_PAGE * PAGE_SIZE + o)
            && Exec.UserByte(t, STACK_PAGE * PAGE_SIZE + o) == ByteAt(stack, o)
  {
    assert ElfLoad.PageNo(STACK_PAGE * PAGE_SIZE + o) == STACK_PAGE;
    assert (STACK_PAGE * PAGE_SIZE + o) % PAGE_SIZE == o;
    var r := Exec.HeapReset(s);
    assert NextFrame(r) == NextFrame(s);
    hide ByteAt, Core, FirstFree;
  }

  /** A PML4 in which only slot 510 is filled, as map_virmem_to_phymem fills it: with CR0.WP set the
      kernel cannot store an entry through the window. */
  lemma WindowNeedsWpClear(va: PageTable.Word)
    ensures var root: PageTable.Word := 0x1000;
            var m := map[PageTable.Phys(PageTable.SlotAddr(root,
                                                           PageTable.SELF_INDEX)) := RecursiveWindow.SelfWord(root)];
            !RecursiveWindow.SupervisorStoreAllowed(m, root, RecursiveWindow.WindowAddr(4, va), true)
  {
    var root: PageTable.Word := 0x1000;
    assert PageTable.Base(root) == root;
    var m := map[PageTable.Phys(PageTable.SlotAddr(root, PageTable.SELF_INDEX)) := RecursiveWindow.SelfWord(root)];
    hide PageTable.SlotAddr, RecursiveWindow.SelfWord, RecursiveWindow.WindowAddr,
      RecursiveWindow.SupervisorStoreAllowed, PageTable.Base;
    assert PageTable.Rd(m, PageTable.SlotAddr(root, PageTable.SELF_INDEX)) == RecursiveWindow.SelfWord(root);
    RecursiveWindow.WindowStoreAllowedIff(m, root, va, 4, true);
  }
}
