/** What a program loaded by load_elf reads, page by page, and do_execv as one step of the machine. */
module Exec {
  import opened Addresses
  import opened Options
  import opened CowModel
  import opened CowSafety
  import opened CowTransparency
  import opened CowKernel
  import opened CowLimits
  import opened Elf
  import opened ElfLoad
  import ExecStack
  import Heap

  // ----- what the loaded program reads -----

  predicate MappedAt(s: State, a: nat) {
    Slot(s.cur, PageNo(a)) in s.pte && s.pte[Slot(s.cur, PageNo(a))].frame < |s.data|
  }

  /** What the running process reads at an address. */
  function UserByte(s: State, a: nat): Byte
    requires MappedAt(s, a)
  {
    ByteAt(s.data[s.pte[Slot(s.cur, PageNo(a))].frame], a % PAGE_SIZE)
  }

  /** The byte a segment asks for at an address: the file's, or zero. */
  function SegByte(file: seq<Byte>, seg: Segment, a: nat): Byte
    requires SegmentOk(file, seg)
  {
    if seg.vaddr <= a < seg.vaddr + seg.filesz then file[seg.offset + (a - seg.vaddr)] else 0
  }

  /** Header m is the last one to map the page of the address. */
  predicate Decides(segs: seq<Segment>, m: nat, a: nat) {
    m < |segs| && Covered(segs, m, PageNo(a)) && !CoveredIn(segs, m + 1, |segs|, PageNo(a))
  }

  /** Header m's store to the address reaches the frame that the page has in the end. */
  predicate Reaches(segs: seq<Segment>, keeps: nat -> Keeps, m: nat, a: nat)
    requires m < |segs|
  {
    Lands(Cached(segs, keeps, m, PageNo(a)), segs[m].vaddr, keeps(m), a)
  }

  lemma LandedByte(was: bool, addr: nat, bytes: seq<Byte>, keeps: Keeps, page: nat, o: nat)
    requires o < PAGE_SIZE
    ensures ByteAt(Landed(was, addr, bytes, keeps, page), o) ==
            if Within(addr, |bytes|, page, o) && LandsAt(was, addr, keeps, page, o)
            then bytes[page * PAGE_SIZE + o - addr] else 0
  {
  }

  lemma LandedSegByte(file: seq<Byte>, seg: Segment, was: bool, keeps: Keeps, a: nat)
    requires SegmentOk(file, seg)
    ensures ByteAt(Landed(was, seg.vaddr, Stored(file, seg), keeps, PageNo(a)), a % PAGE_SIZE) ==
            if Lands(was, seg.vaddr, keeps, a) then SegByte(file, seg, a) else 0
  {
    var bytes := Stored(file, seg);
    LandedByte(was, seg.vaddr, bytes, keeps, PageNo(a), a % PAGE_SIZE);
    assert PageNo(a) * PAGE_SIZE + a % PAGE_SIZE == a;
    if seg.vaddr <= a < seg.vaddr + |bytes| {
      assert bytes[a - seg.vaddr] == SegByte(file, seg, a);
    }
    hide Landed, Lands, Stale;
  }

  /** Every entry of the image belongs to one header and one of its pages. */
  lemma {:induction false} EntryOwner(segs: seq<Segment>, n: nat, x: nat) returns (m: nat, p: nat)
    requires n <= |segs| && x < Before(segs, n)
    ensures m < n && Covered(segs, m, p) && At(segs, m, p) == x
    decreases n
  {
    if x < Before(segs, n - 1) {
      m, p := EntryOwner(segs, n - 1, x);
    } else {
      m := n - 1;
      p := segs[m].vaddr / PAGE_SIZE + (x - Before(segs, m));
      hide SegPages;
    }
  }

  lemma DecidingEntryIsLast(file: seq<Byte>, segs: seq<Segment>, keeps: nat -> Keeps, image: Image, m: nat, a: nat)
    requires AllOk(file, segs) && LoadedImage(file, segs, keeps, |segs|, image) && Decides(segs, m, a)
    ensures var x := At(segs, m, PageNo(a)); x < |image| && image[x].0 == PageNo(a) && Last(image, x)
  {
    var p := PageNo(a);
    hide Landed, Covered, SegPages, CoveredIn, Cached, Stored, PageNo;
    forall x | At(segs, m, p) < x < |image|
      ensures image[x].0 != p
    {
      var m', p' := EntryOwner(segs, |segs|, x);
      if p' == p {
        LaterHeader(segs, m, m', p);
      }
    }
  }

  lemma LaterHeader(segs: seq<Segment>, m: nat, m': nat, p: nat)
    requires m < |segs| && m' < |segs| && Covered(segs, m, p) && Covered(segs, m', p)
    requires At(segs, m, p) < At(segs, m', p)
    ensures CoveredIn(segs, m + 1, |segs|, p)
  {
    if m' < m {
      EntryBefore(segs, m', m, p);
    }
    hide Covered, SegPages;
    assert m < m';
  }

  /** The last header to map a page decides every byte of it: the byte it asks for where its store
      reaches the page's frame, zero where a translation left by an earlier header swallowed it. */
  lemma LoadedByte(s: State, file: seq<Byte>, segs: seq<Segment>, keeps: nat -> Keeps, image: Image, m: nat, a: nat)
    requires AllOk(file, segs) && LoadedImage(file, segs, keeps, |segs|, image) && RoomFor(s, |image|)
             && Decides(segs, m, a)
    ensures var t := MapImage(s, image);
            MappedAt(t, a) && UserByte(t, a) == if Reaches(segs, keeps, m, a) then SegByte(file, segs[m], a) else 0
  {
    var x := At(segs, m, PageNo(a));
    DecidingEntryIsLast(file, segs, keeps, image, m, a);
    EntryDecides(s, image, x, ZERO_PAGE);
    LandedSegByte(file, segs[m], Cached(segs, keeps, m, PageNo(a)), keeps(m), a);
    hide MapImage, RoomFor, Last, FrameNo, Landed, Stored, Cached, Lands, SegByte, ByteAt, CoveredIn, At, Before,
      PageNo;
  }

  // ----- which stores reach their frame -----

  /** Every store to the page from addr on and before limit left the translation in the TLB. */
  predicate AllKept(addr: nat, limit: nat, keeps: Keeps, page: nat) {
    forall b: nat {:trigger PageNo(b)} :: addr <= b < limit && PageNo(b) == page ==> keeps(b)
  }

  lemma {:induction false} StaleIff(was: bool, addr: nat, n: nat, keeps: Keeps, page: nat)
    ensures Stale(was, addr, n, keeps, page) <==> was && AllKept(addr, addr + n, keeps, page)
    decreases n
  {
    if n > 0 {
      StaleIff(was, addr, n - 1, keeps, page);
      assert PageNo(addr + n - 1) == (addr + n - 1) / PAGE_SIZE;
    }
  }

  /** A store is lost exactly if the page was cached when its header's turn came and every earlier store
      of the header to the page left the translation in the TLB. */
  lemma ReachesIff(segs: seq<Segment>, keeps: nat -> Keeps, m: nat, a: nat)
    requires m < |segs| && segs[m].vaddr <= a
    ensures !Reaches(segs, keeps, m, a) <==>
            Cached(segs, keeps, m, PageNo(a)) && AllKept(segs[m].vaddr, a, keeps(m), PageNo(a))
  {
    StaleIff(Cached(segs, keeps, m, PageNo(a)), segs[m].vaddr, a - segs[m].vaddr, keeps(m), PageNo(a));
    hide Stale, Cached, AllKept;
  }

  lemma {:induction false} NotCachedIfUncovered(segs: seq<Segment>, keeps: nat -> Keeps, n: nat, p: nat)
    requires n <= |segs| && !CoveredIn(segs, 0, n, p)
    requires forall i {:trigger segs[i]} :: 0 <= i < |segs| && segs[i].load ==> StoredLen(segs[i]) <= segs[i].memsz
    ensures !Cached(segs, keeps, n, p)
    decreases n
  {
    if n > 0 {
      assert !Covered(segs, n - 1, p);
      NotCachedIfUncovered(segs, keeps, n - 1, p);
      if segs[n - 1].load {
        OutsideUntouched(false, segs[n - 1].vaddr, segs[n - 1].memsz, StoredLen(segs[n - 1]), keeps(n - 1), p);
      }
      hide InTlb, Inside, SegPages;
    }
  }

  /** No two headers map one page. */
  ghost predicate SegmentsDisjoint(segs: seq<Segment>) {
    forall i, j, p {:trigger Covered(segs, i, p), Covered(segs, j, p)} :: 0 <= i < j < |segs| ==>
      !(Covered(segs, i, p) && Covered(segs, j, p))
  }

  /** Image correctness, for any number of page-disjoint segments and whatever the TLB keeps: at every
      address of a segment the program reads the file's byte, or zero past the file's part. */
  lemma ImageIsTheFile(s: State, file: seq<Byte>, segs: seq<Segment>, keeps: nat -> Keeps, image: Image, m: nat, a: nat)
    requires AllOk(file, segs) && LoadedImage(file, segs, keeps, |segs|, image) && RoomFor(s, |image|)
             && SegmentsDisjoint(segs)
    requires m < |segs| && segs[m].load && segs[m].vaddr <= a < segs[m].vaddr + segs[m].memsz
    ensures var t := MapImage(s, image);
            && MappedAt(t, a)
            && UserByte(t, a) ==
               if a < segs[m].vaddr + segs[m].filesz then file[segs[m].offset + (a - segs[m].vaddr)] else 0
  {
    hide MapImage, RoomFor, LoadedImage, Cached, Reaches, UserByte, MappedAt, PageNo;
    AllInside(segs[m].vaddr, segs[m].memsz, a - segs[m].vaddr);
    assert Covered(segs, m, PageNo(a));
    hide Covered;
    forall i {:trigger segs[i]} | 0 <= i < |segs| && segs[i].load
      ensures StoredLen(segs[i]) <= segs[i].memsz
    {
    }
    NotCachedIfUncovered(segs, keeps, m, PageNo(a));
    ReachesIff(segs, keeps, m, a);
    hide MapImage, RoomFor, LoadedImage, Covered, Cached, Reaches, UserByte, MappedAt, PageNo;
    LoadedByte(s, file, segs, keeps, image, m, a);
  }

  /** Two headers, i and the later m, share the page, and m is the last to map it. Header i's byte
      survives exactly if m's store there reaches the frame and stores the same byte, or does not and the
      byte is zero; m's own byte survives exactly if its store reaches the frame or the byte is zero. */
  lemma SharedPageKeepsIff(s: State, file: seq<Byte>, segs: seq<Segment>, keeps: nat -> Keeps, image: Image, i: nat,
                           m: nat, a: nat)
    requires AllOk(file, segs) && LoadedImage(file, segs, keeps, |segs|, image) && RoomFor(s, |image|)
    requires i < m && Decides(segs, m, a) && segs[i].load
    ensures var t := MapImage(s, image);
            && MappedAt(t, a)
            && (UserByte(t, a) == SegByte(file, segs[i], a) <==>
                  if Reaches(segs, keeps, m, a) then SegByte(file, segs[i], a) == SegByte(file, segs[m], a)
                  else SegByte(file, segs[i], a) == 0)
            && (UserByte(t, a) == SegByte(file, segs[m], a) <==>
                  Reaches(segs, keeps, m, a) || SegByte(file, segs[m], a) == 0)
  {
    LoadedByte(s, file, segs, keeps, image, m, a);
    hide MapImage, RoomFor, LoadedImage, UserByte, MappedAt, Reaches, CoveredIn, SegByte;
  }

  /** A store of the header goes to the page. */
  predicate StoresOn(seg: Segment, p: nat) {
    seg.load && Touched(seg.vaddr, StoredLen(seg), p)
  }

  predicate Touched(addr: nat, n: nat, p: nat) {
    exists b: nat {:trigger PageNo(b)} :: addr <= b < addr + n && PageNo(b) == p
  }

  lemma {:induction false} InTlbIfAllKept(was: bool, addr: nat, n: nat, keeps: Keeps, page: nat)
    requires forall a: nat {:trigger keeps(a)} :: keeps(a)
    ensures InTlb(was, addr, n, keeps, page) <==> was || Touched(addr, n, page)
    decreases n
  {
    if n > 0 {
      InTlbIfAllKept(was, addr, n - 1, keeps, page);
      assert PageNo(addr + n - 1) == (addr + n - 1) / PAGE_SIZE;
      assert keeps(addr + n - 1);
    }
  }

  lemma {:induction false} CachedIfAllKept(segs: seq<Segment>, keeps: nat -> Keeps, n: nat, p: nat)
    requires n <= |segs| && forall i: nat, a: nat {:trigger keeps(i)(a)} :: keeps(i)(a)
    ensures Cached(segs, keeps, n, p) <==>
              exists i: nat {:trigger StoresOn(segs[i], p)} :: i < n && StoresOn(segs[i], p)
    decreases n
  {
    if n > 0 {
      CachedIfAllKept(segs, keeps, n - 1, p);
      if segs[n - 1].load {
        InTlbIfAllKept(Cached(segs, keeps, n - 1, p), segs[n - 1].vaddr, StoredLen(segs[n - 1]), keeps(n - 1), p);
      }
      assert StoresOn(segs[n - 1], p) == (segs[n - 1].load && Touched(segs[n - 1].vaddr, StoredLen(segs[n - 1]), p));
      hide InTlb, StoresOn, Touched;
    }
  }

  /** On a TLB that drops nothing before the final reload, all that a header stores on a page is lost
      exactly if an earlier header has stored on the page. */
  lemma LostIfAllKept(segs: seq<Segment>, keeps: nat -> Keeps, m: nat, a: nat)
    requires m < |segs| && segs[m].vaddr <= a && forall i: nat, b: nat {:trigger keeps(i)(b)} :: keeps(i)(b)
    ensures !Reaches(segs, keeps, m, a) <==>
            exists i: nat {:trigger StoresOn(segs[i], PageNo(a))} :: i < m && StoresOn(segs[i], PageNo(a))
  {
    ReachesIff(segs, keeps, m, a);
    CachedIfAllKept(segs, keeps, m, PageNo(a));
    hide Reaches, Cached, StoresOn;
  }

  // ----- what stays as it was -----

  /** load_elf maps exactly the pages that its loadable headers cover. */
  lemma ImageCovers(file: seq<Byte>, segs: seq<Segment>, keeps: nat -> Keeps, image: Image, p: nat)
    requires AllOk(file, segs) && LoadedImage(file, segs, keeps, |segs|, image)
    ensures InImage(image, p) <==> CoveredIn(segs, 0, |segs|, p)
  {
    hide Landed, Covered, SegPages, Cached, Stored, Before;
    if InImage(image, p) {
      var x :| 0 <= x < |image| && image[x].0 == p;
      var m, q := EntryOwner(segs, |segs|, x);
      assert q == p;
    }
    if CoveredIn(segs, 0, |segs|, p) {
      var m :| 0 <= m < |segs| && Covered(segs, m, p);
      assert image[At(segs, m, p)].0 == p;
    }
  }

  /** Nothing else changes when global_PML4 is the caller's root: every entry of another process or of a
      page no header covers stays, and so does the page behind it. */
  lemma OthersUndisturbed(s: State, file: seq<Byte>, segs: seq<Segment>, keeps: nat -> Keeps, image: Image, k: Slot)
    requires s.target == s.cur && Core(s) && AllOk(file, segs) && LoadedImage(file, segs, keeps, |segs|, image)
             && RoomFor(s, |image|)
    requires k.pid != s.cur || !CoveredIn(segs, 0, |segs|, k.page)
    ensures var t := MapImage(s, image);
            && (k in t.pte <==> k in s.pte)
            && (k in s.pte ==> t.pte[k] == s.pte[k] && s.pte[k].frame < |s.data| && |t.data| == |s.data| &&
                               t.data[s.pte[k].frame] == s.data[s.pte[k].frame])
  {
    ImageCovers(file, segs, keeps, image, k.page);
    MapImageUndisturbed(s, image);
    if k in s.pte {
      assert EntryOk(s, k, s.pte[k]);
    }
    hide MapImage, LoadedImage, RoomFor, InImage, CoveredIn, FreeZero, Counted, Exclusive, TablesOk, EntriesOk;
  }

  /** Every page of the image is mapped writable, code pages included, whatever its region allows. */
  lemma ImagePagesAreWritable(s: State, image: Image, x: nat)
    requires RoomFor(s, |image|) && x < |image| && Last(image, x)
    ensures var t, k := MapImage(s, image), Slot(s.cur, image[x].0); k in t.pte && t.pte[k].writable && t.pte[k].user
  {
    EntryDecides(s, image, x, ZERO_PAGE);
    hide MapImage, RoomFor, Last, FrameNo;
  }

  // ----- the regions -----

  /** do_execv resets the heap to one page; setup_vma then describes the four regions. */
  function SetupVma(lay: Layout): (r: Mm)
    ensures Heap.HeapOk(r)
  {
    Mm([Vma(lay.startCode, lay.endCode, false),
        Vma(lay.startData, lay.endData + lay.bss, true),
        Vma(HEAP_BASE, HEAP_BASE + PAGE_SIZE, true),
        Vma(STACK_START, STACK_TOP, true)],
       HEAP_BASE + PAGE_SIZE)
  }

  /** No later header of the same kind replaces the segment's region. */
  ghost predicate LastOfKind(segs: seq<Segment>, i: nat)
    requires i < |segs|
  {
    segs[i].load && forall j {:trigger segs[j]} :: i < j < |segs| && segs[j].load ==> segs[j].exec != segs[i].exec
  }

  /** A code segment ends where its memory ends. A data segment has its bytes of the file up to
      endData, and the bytes after that up to the end of its memory are the bss. */
  ghost predicate Describes(lay: Layout, seg: Segment) {
    if seg.exec then lay.startCode == seg.vaddr && lay.endCode == seg.vaddr + seg.memsz
    else
      lay.startData == seg.vaddr && lay.endData == seg.vaddr + seg.filesz &&
      lay.endData + lay.bss == seg.vaddr + seg.memsz
  }

  lemma {:induction false} KindKept(file: seq<Byte>, segs: seq<Segment>, lay: Layout, seg: Segment)
    requires AllOk(file, segs) && Describes(lay, seg)
    requires forall j {:trigger segs[j]} :: 0 <= j < |segs| && segs[j].load ==> segs[j].exec != seg.exec
    ensures Describes(LayoutOf(file, segs, lay), seg)
    decreases |segs|
  {
    if segs != [] {
      KindKept(file, segs[1..], if segs[0].load then Placed(lay, segs[0]) else lay, seg);
    }
  }

  /** The last code segment and the last data segment are the regions of the new program. */
  lemma {:induction false} LayoutIsLast(file: seq<Byte>, segs: seq<Segment>, lay: Layout, i: nat)
    requires AllOk(file, segs) && i < |segs| && LastOfKind(segs, i)
    ensures Describes(LayoutOf(file, segs, lay), segs[i])
    decreases i
  {
    var lay' := if segs[0].load then Placed(lay, segs[0]) else lay;
    if i == 0 {
      KindKept(file, segs[1..], lay', segs[0]);
    } else {
      assert segs[1..][i - 1] == segs[i];
      LayoutIsLast(file, segs[1..], lay', i - 1);
    }
  }

  /** Every page of the last code or data segment lies in a region, so a later fork shares it. */
  lemma SegmentIsForked(file: seq<Byte>, segs: seq<Segment>, lay: Layout, i: nat, page: nat)
    requires AllOk(file, segs) && i < |segs| && LastOfKind(segs, i) && segs[i].memsz > 0
    requires Covered(segs, i, page)
    ensures page in ForkPages(SetupVma(LayoutOf(file, segs, lay)).vmas)
  {
    var seg, vmas := segs[i], SetupVma(LayoutOf(file, segs, lay)).vmas;
    LayoutIsLast(file, segs, lay, i);
    UmallocCoversExactly(seg.vaddr, seg.memsz, page);
    RegionVisited(vmas[if seg.exec then 0 else 1], seg.vaddr, seg.memsz, page);
    hide LayoutOf, Covered, AllOk, LastOfKind, ForkPages;
    InForkPages(vmas, page);
    assert Visits(vmas, if seg.exec then 0 else 1, page);
  }

  lemma RegionVisited(vma: Vma, addr: nat, size: nat, page: nat)
    requires vma.start == addr && vma.end == addr + size && Touches(addr, size, page)
    ensures vma.start / PAGE_SIZE <= page < PageLimit(vma, false)
  {
  }

  // ----- the stack page -----

  /** The bytes of the stack page as a page of memory. */
  function AsPage(bytes: seq<ExecStack.Byte>): Page {
    map o: nat | o < |bytes| :: bytes[o] as Byte
  }

  function Number(b: Byte): ExecStack.Byte { b as nat }

  lemma NumberOf(n: ExecStack.Byte)
    ensures Number(n as Byte) == n
  {
  }

  lemma StackMapped(s: State, f: nat, content: Page)
    requires CanAllocate(s) && f == NextFrame(s) && HasTables(s, s.cur, STACK_PAGE)
    ensures var t := Allocate(s);
            t.(data := t.data[f := content], pte := t.pte[Slot(s.cur, STACK_PAGE) := Pte(f, true, true, true, false)])
            == MapOne(s, STACK_PAGE, content)
  {
    assert WithTables(s.dirs, s.cur, STACK_PAGE) == s.dirs;
  }

  /** A new frame at the scratch page, the stack image written there, the frame remapped to the top of
      the stack. The first reload makes the write reach the new frame whatever was cached before. */
  method MapStack(k: Kernel, content: Page)
    requires k.Valid() && CanAllocate(k.Abs()) && HasTables(k.Abs(), k.cur, STACK_PAGE)
    modifies k`pte, k`tlb, k`execScratch, k.desc, k.data
    ensures k.Valid() && k.Abs() == Flush(MapOne(old(k.Abs()), STACK_PAGE, content))
    ensures k.execScratch == None
  {
    ghost var s := k.Abs();
    hide MapOne, CanAllocate, HasTables, NextFrame, UserRegions, SCRATCH;
    assert STACK_PAGE != SCRATCH;
    var f := k.AllocatePageUser();
    ghost var t := k.Abs();
    k.execScratch := Some(Pte(f, true, true, true, false));
    k.ReloadCr3();
    var into := Through(k.tlb, EXEC_SCRATCH, k.execScratch.value);
    k.data[into.frame] := content;
    k.tlb := k.tlb[EXEC_SCRATCH := into];
    k.SelfRefWrite(STACK_PAGE, k.execScratch.value);
    k.execScratch := None;
    assert k.Abs() == t.(data := t.data[f := content], tlb := k.tlb,
                         pte := t.pte[Slot(t.cur, STACK_PAGE) := Pte(f, true, true, true, false)]);
    k.ReloadCr3();
    StackMapped(s, f, content);
  }

  // ----- do_execv -----

  /** do_execv resets brk before anything can fail. */
  function HeapReset(s: State): State
    requires s.cur in s.mms
  {
    s.(mms := s.mms[s.cur := s.mms[s.cur].(brk := HEAP_BASE + PAGE_SIZE)])
  }

  lemma {:induction false} MapImageMms(s: State, mms: map<nat, Mm>, image: Image)
    requires |s.desc| == |s.data| && FIRST_USER_FRAME <= |s.desc|
    ensures MapImage(s.(mms := mms), image) == MapImage(s, image).(mms := mms)
    decreases |image|
  {
    if image != [] && CanAllocate(s) {
      MapImageMms(MapOne(s, image[0].0, image[0].1), mms, image[1..]);
    }
  }

  /** The three stages of a successful exec make up MapImage over the old state. */
  lemma ExecComposes(s: State, stack: Page, image: Image, mm: Mm)
    requires Runnable(s) && CanAllocate(s)
    ensures var m := Flush(MapOne(HeapReset(s), STACK_PAGE, stack));
            && |m.desc| == |m.data| && FIRST_USER_FRAME <= |m.desc|
            && Flush(MapImage(m, image)).(mms := m.mms[s.cur := mm]) ==
               Next(s, Step.DoExec([(STACK_PAGE, stack)] + image, mm)).0
  {
    var one := [(STACK_PAGE, stack)];
    var u := MapOne(s, STACK_PAGE, stack);
    var mms := HeapReset(s).mms;
    assert MapOne(HeapReset(s), STACK_PAGE, stack) == u.(mms := mms);
    hide MapFresh;
    assert (one + image)[1..] == image;
    MapImageMms(u, mms, image);
    MapImageFlushed(u.(mms := mms), image);
    MapImageUndisturbedMms(u, image);
    assert mms[s.cur := mm] == s.mms[s.cur := mm];
  }

  lemma {:induction false} MapImageUndisturbedMms(s: State, image: Image)
    requires |s.desc| == |s.data| && FIRST_USER_FRAME <= |s.desc|
    ensures MapImage(s, image).mms == s.mms && MapImage(s, image).cur == s.cur
    decreases |image|
  {
    if image != [] && CanAllocate(s) {
      MapImageUndisturbedMms(MapOne(s, image[0].0, image[0].1), image[1..]);
    }
  }

  method ResetHeap(k: Kernel)
    requires k.Valid()
    modifies k`mms
    ensures k.Valid() && k.Abs() == HeapReset(old(k.Abs())) && Runnable(old(k.Abs()))
  {
    k.mms := k.mms[k.cur := k.mms[k.cur].(brk := HEAP_BASE + PAGE_SIZE)];
  }

  /** What MapStack and LoadElf need, before and after. */
  lemma StackStage(s: State, stack: Page, n: nat)
    requires Core(s) && RoomFor(s, 1 + n) && HasTables(s, s.cur, STACK_PAGE)
    ensures var r := HeapReset(s); CanAllocate(s) && CanAllocate(r) && HasTables(r, r.cur, STACK_PAGE)
    ensures var m := Flush(MapOne(HeapReset(s), STACK_PAGE, stack)); Core(m) && RoomFor(m, n)
  {
    var r := HeapReset(s);
    AddProcessKeepsCore(s, s.cur, r.mms[s.cur]);
    MapOneRoom(r, STACK_PAGE, stack, n);
    assert CanAllocate(s);
    assert MapImage(r, [(STACK_PAGE, stack)]) == MapOne(r, STACK_PAGE, stack) by {
      MapImageSnoc(r, [], STACK_PAGE, stack);
      assert [] + [(STACK_PAGE, stack)] == [(STACK_PAGE, stack)];
    }
    MapImageKeepsCore(r, [(STACK_PAGE, stack)]);
    FlushKeepsCore(MapOne(r, STACK_PAGE, stack));
  }

  lemma {:induction false} NoLoadsNoPages(segs: seq<Segment>, n: nat)
    requires n <= |segs| && !AnyLoad(segs)
    ensures Before(segs, n) == 0
    decreases n
  {
    if n > 0 {
      NoLoadsNoPages(segs, n - 1);
      assert !segs[n - 1].load;
    }
  }

  /** setup_vma, and the reload before it. */
  method FinishExec(k: Kernel, lay: Layout)
    requires k.Valid() && lay.endCode <= USER_END && lay.endData + lay.bss <= USER_END
    modifies k`mms, k`tlb
    ensures k.Valid() && k.Abs() == Flush(old(k.Abs())).(mms := old(k.mms)[k.cur := SetupVma(lay)])
  {
    k.ReloadCr3();
    k.mms := k.mms[k.cur := SetupVma(lay)];
  }

  ghost predicate LayoutFits(lay: Layout) {
    lay.endCode <= USER_END && lay.endData + lay.bss <= USER_END
  }

  lemma {:induction false} LayoutStaysInside(file: seq<Byte>, segs: seq<Segment>, lay: Layout)
    requires AllOk(file, segs) && LayoutFits(lay)
    ensures LayoutFits(LayoutOf(file, segs, lay))
    decreases |segs|
  {
    if segs != [] {
      LayoutStaysInside(file, segs[1..], if segs[0].load then Placed(lay, segs[0]) else lay);
    }
  }

  /** The memory part of do_execv is the exec step of the state machine: the stack page with the
      arguments, then the image of the loaded headers. A file that is missing or has no loadable header
      is noticed only after the old stack page and brk are gone. */
  method DoExecv(k: Kernel, argv: seq<ExecStack.Str>, envp: seq<ExecStack.Str>, found: Option<seq<Byte>>,
                 segs: seq<Segment>,
                 keeps: nat -> Keeps, lay0: Layout)
    returns (ret: int, lay: Layout, rsp: nat, ghost stack: seq<ExecStack.Byte>, ghost image: Image,
             ghost ap: seq<nat>, ghost ep: seq<nat>)
    requires k.Valid() && Core(k.Abs()) && HasTables(k.Abs(), k.cur, STACK_PAGE) && RoomFor(k.Abs(), 1)
             && LayoutFits(lay0)
    requires k.target == k.cur && DirectSegments(k.high, k.cur, segs)
    requires ExecStack.Fits(argv, envp)
    requires found.Some? ==> AllOk(found.value, segs) && RoomFor(k.Abs(), 1 + Before(segs, |segs|))
    modifies k`mms, k`pte, k`dirs, k`tlb, k`execScratch, k.desc, k.data
    ensures k.Valid() && Runnable(old(k.Abs())) && CanAllocate(old(k.Abs()))
    ensures ExecStack.StackImage(stack, rsp, argv, envp, ap, ep)
    ensures ret == if found.Some? && AnyLoad(segs) then 0 else -1
    ensures found.Some? ==> AllOk(found.value, segs) && LoadedImage(found.value, segs, keeps, |segs|, image)
    ensures ret == 0 ==>
              k.Abs() == Next(old(k.Abs()), Step.DoExec([(STACK_PAGE, AsPage(stack))] + image,
                                                        SetupVma(LayoutOf(found.value, segs, lay0)))).0
    ensures ret == 0 ==>
              Allowed(old(k.Abs()), Step.DoExec([(STACK_PAGE, AsPage(stack))] + image,
                                                SetupVma(LayoutOf(found.value, segs, lay0))))
    ensures ret == -1 ==> Flush(k.Abs()) == Flush(MapOne(HeapReset(old(k.Abs())), STACK_PAGE, AsPage(stack)))
  {
    hide *;
    var page: array<ExecStack.Byte>;
    page, rsp, ap, ep := StackImagePage(argv, envp);
    stack := page[..];
    ret, lay, image := ReplaceImage(k, AsPage(page[..]), found, segs, keeps, lay0);
  }

  /** The bytes do_execv writes through the scratch page, whose frame starts zero. */
  method StackImagePage(argv: seq<ExecStack.Str>, envp: seq<ExecStack.Str>)
    returns (page: array<ExecStack.Byte>, rsp: nat, ghost ap: seq<nat>, ghost ep: seq<nat>)
    requires ExecStack.Fits(argv, envp)
    ensures fresh(page) && ExecStack.StackImage(page[..], rsp, argv, envp, ap, ep)
  {
    page := new ExecStack.Byte[PAGE_SIZE](_ => 0);
    hide ExecStack.Fits, ExecStack.StackImage, ExecStack.ZeroUpTo, ExecStack.Consecutive;
    var args, env, bounds;
    rsp, args, env, bounds := ExecStack.BuildStack(page, argv, envp);
    ap, ep := args, env;
  }

  /** From the finished stack page on. */
  method ReplaceImage(k: Kernel, stack: Page, found: Option<seq<Byte>>, segs: seq<Segment>, keeps: nat -> Keeps,
                      lay0: Layout)
    returns (ret: int, lay: Layout, ghost image: Image)
    requires k.Valid() && Core(k.Abs()) && HasTables(k.Abs(), k.cur, STACK_PAGE) && RoomFor(k.Abs(), 1)
             && LayoutFits(lay0)
    requires k.target == k.cur && DirectSegments(k.high, k.cur, segs)
    requires found.Some? ==> AllOk(found.value, segs) && RoomFor(k.Abs(), 1 + Before(segs, |segs|))
    modifies k`mms, k`pte, k`dirs, k`tlb, k`execScratch, k.desc, k.data
    ensures k.Valid() && Runnable(old(k.Abs())) && CanAllocate(old(k.Abs()))
    ensures ret == if found.Some? && AnyLoad(segs) then 0 else -1
    ensures found.Some? ==> AllOk(found.value, segs) && LoadedImage(found.value, segs, keeps, |segs|, image)
    ensures ret == 0 ==>
              k.Abs() == Next(old(k.Abs()), Step.DoExec([(STACK_PAGE, stack)] + image,
                                                        SetupVma(LayoutOf(found.value, segs, lay0)))).0
    ensures ret == 0 ==>
              Allowed(old(k.Abs()), Step.DoExec([(STACK_PAGE, stack)] + image,
                                                SetupVma(LayoutOf(found.value, segs, lay0))))
    ensures ret == -1 ==> Flush(k.Abs()) == Flush(MapOne(HeapReset(old(k.Abs())), STACK_PAGE, stack))
  {
    ghost var s := k.Abs();
    ghost var n := if found.Some? then Before(segs, |segs|) else 0;
    CurOf(k);
    hide *;
    StackStage(s, stack, n);
    ResetHeap(k);
    CurOf(k);
    MapStack(k, stack);
    CurOf(k);
    FlushedTlb(MapOne(HeapReset(s), STACK_PAGE, stack));
    ret, lay, image := LoadElf(k, found, segs, keeps, lay0);
    if ret == 0 {
      LayoutStaysInside(found.value, segs, lay0);
      FitsMeans(lay);
      FinishExec(k, lay);
      ExecComposes(s, stack, image, SetupVma(lay));
      ExecAllowed(s, stack, found.value, segs, keeps, image, SetupVma(lay));
    } else {
      NothingToMap(found, segs, keeps, image);
      NoImage(Flush(MapOne(HeapReset(s), STACK_PAGE, stack)));
      FlushTwice(MapOne(HeapReset(s), STACK_PAGE, stack));
    }
  }

  lemma NothingToMap(found: Option<seq<Byte>>, segs: seq<Segment>, keeps: nat -> Keeps, image: Image)
    requires found.Some? ==>
               !AnyLoad(segs) && AllOk(found.value, segs) && LoadedImage(found.value, segs, keeps, |segs|, image)
    requires found.None? ==> image == []
    ensures image == []
  {
    if found.Some? {
      NoLoadsNoPages(segs, |segs|);
    }
  }

  lemma NoImage(s: State)
    requires |s.desc| == |s.data| && FIRST_USER_FRAME <= |s.desc|
    ensures MapImage(s, []) == s
  {
  }

  lemma FlushTwice(s: State)
    ensures Flush(Flush(s)) == Flush(s)
  {
  }

  lemma FlushedTlb(s: State)
    ensures Flush(s).tlb == map[]
  {
  }

  lemma CurOf(k: Kernel)
    ensures k.Abs().cur == k.cur && k.Abs().mms == k.mms && k.Abs().tlb == k.tlb
    ensures k.Abs().target == k.target && k.Abs().high == k.high
  {
  }

  lemma FitsMeans(lay: Layout)
    requires LayoutFits(lay)
    ensures lay.endCode <= USER_END && lay.endData + lay.bss <= USER_END
  {
  }

  // ----- the step that exec is -----

  /** The caller's conditions of do_execv are those of the machine's exec step. */
  lemma ExecAllowed(s: State, stack: Page, file: seq<Byte>, segs: seq<Segment>, keeps: nat -> Keeps, image: Image,
                    mm: Mm)
    requires AllOk(file, segs) && LoadedImage(file, segs, keeps, |segs|, image)
    requires s.target == s.cur && HasTables(s, s.cur, STACK_PAGE) && DirectSegments(s.high, s.cur, segs)
    ensures Allowed(s, Step.DoExec([(STACK_PAGE, stack)] + image, mm))
  {
    var all := [(STACK_PAGE, stack)] + image;
    forall i | 0 < i < |all|
      ensures DirectPath(s.high, s.cur, all[i].0)
    {
      assert image[i - 1] == all[i];
      assert InImage(image, all[i].0);
      ImageCovers(file, segs, keeps, image, all[i].0);
      var m :| 0 <= m < |segs| && Covered(segs, m, all[i].0);
      assert Covers(segs[m].vaddr, segs[m].memsz, all[i].0);
    }
  }

  /** The regions have no page in common. */
  predicate PagesApart(v: Vma, w: Vma) {
    v.start < v.end && w.start < w.end ==>
      (v.end - 1) / PAGE_SIZE < w.start / PAGE_SIZE || (w.end - 1) / PAGE_SIZE < v.start / PAGE_SIZE
  }

  lemma ApartIff(v: Vma, w: Vma)
    ensures PagesApart(v, w) <==> forall page: nat {:trigger Meets(v, page)} :: !(Meets(v, page) && Meets(w, page))
  {
    if v.start < v.end && w.start < w.end {
      var first := if v.start <= w.start then w.start / PAGE_SIZE else v.start / PAGE_SIZE;
      if !PagesApart(v, w) {
        assert Meets(v, first) && Meets(w, first);
      }
    }
  }

  /** Exec's step meets the conditions of the transparency theorem if and only if it is allowed and finds its
      frames, the new code region shares no page with the others, and what the old program had mapped
      read-only lies in it. */
  lemma ExecIsEnabledIff(s: State, image: Image, lay: Layout)
    ensures var vmas := SetupVma(lay).vmas;
            Enabled(s, Step.DoExec(image, SetupVma(lay))) <==>
            && Allowed(s, Step.DoExec(image, SetupVma(lay))) && |FreeFrames(s.desc)| >= |image|
            && PagesApart(vmas[1], vmas[0]) && PagesApart(vmas[2], vmas[0]) && PagesApart(vmas[3], vmas[0])
            && (forall k {:trigger s.pte[k]} :: k in s.pte && k.pid == s.cur && !s.pte[k].writable && !s.pte[k].cow ==>
                  Meets(vmas[0], k.page))
  {
    var mm := SetupVma(lay);
    var vmas := mm.vmas;
    ApartIff(vmas[1], vmas[0]);
    ApartIff(vmas[2], vmas[0]);
    ApartIff(vmas[3], vmas[0]);
    hide Meets, PagesApart, Allowed, FreeFrames;
    assert forall page: nat {:trigger MeetsReadOnly(vmas, page)} :: MeetsReadOnly(vmas, page) <==> Meets(vmas[0], page);
    if Separated(vmas) {
      forall i, page: nat {:trigger Meets(vmas[i], page)} | 1 <= i < 4
        ensures !(Meets(vmas[i], page) && Meets(vmas[0], page))
      {
        assert vmas[i] in vmas && vmas[0] in vmas;
      }
    }
  }

  // ----- what exec leaves of the old program -----

  /** What the new program sees at a page: the image's last content for it, or else what the old one saw. */
  lemma NewProgramSees(s: State, image: Image, mm: Mm, page: nat)
    requires Core(s)
    ensures Runnable(s)
    ensures var t, k := Next(s, Step.DoExec(image, mm)).0, Slot(s.cur, page);
            && (!InImage(image, page) ==> View(t, k) == View(s, k))
            && (RoomFor(s, |image|) ==>
                  forall i {:trigger image[i]} :: 0 <= i < |image| && image[i].0 == page && Last(image, i) ==>
                    View(t, k) == image[i].1)
  {
    InvIsRunnable(s);
    var m, t, k := MapImage(s, image), Next(s, Step.DoExec(image, mm)).0, Slot(s.cur, page);
    MapImageUndisturbed(s, image);
    hide MapImage, RoomFor, InImage, FrameNo, FreeZero, Counted, Exclusive, TablesOk;
    assert View(t, k) == View(m, k);
    if k in s.pte {
      assert EntryOk(s, k, s.pte[k]);
    }
    forall i | RoomFor(s, |image|) && 0 <= i < |image| && image[i].0 == page && Last(image, i)
      ensures View(t, k) == image[i].1
    {
      EntryDecides(s, image, i, ZERO_PAGE);
    }
  }

  /** The running process sees zero at n bytes from an address on. */
  ghost predicate SeesZero(s: State, from: nat, n: nat) {
    forall a: nat {:trigger PageNo(a)} :: from <= a < from + n ==>
        ByteAt(View(s, Slot(s.cur, PageNo(a))), a % PAGE_SIZE) == 0
  }

  /** Exec unmaps nothing: memory outside the image, such as the heap that sbrk will hand out, reads zero
      in the new program if and only if it read zero in the old one. */
  lemma OldMemoryZeroIff(s: State, image: Image, mm: Mm, from: nat, n: nat)
    requires Core(s)
    requires forall a: nat {:trigger PageNo(a)} :: from <= a < from + n ==> !InImage(image, PageNo(a))
    ensures Runnable(s)
    ensures SeesZero(Next(s, Step.DoExec(image, mm)).0, from, n) <==> SeesZero(s, from, n)
  {
    InvIsRunnable(s);
    var t := Next(s, Step.DoExec(image, mm)).0;
    MapImageUndisturbed(s, image);
    assert t.cur == s.cur;
    hide Next, MapImage, Core, InImage, View, PageNo;
    forall a: nat | from <= a < from + n
      ensures View(t, Slot(t.cur, PageNo(a))) == View(s, Slot(s.cur, PageNo(a)))
    {
      NewProgramSees(s, image, mm, PageNo(a));
    }
  }

  // ----- the arguments, read through the tables -----

  /** The stack page as the running process reads it. */
  ghost function StackBytes(s: State): seq<ExecStack.Byte>
    requires MappedAt(s, STACK_PAGE * PAGE_SIZE)
  {
    seq(PAGE_SIZE, o requires 0 <= o < PAGE_SIZE => Number(ByteAt(s.data[s.pte[Slot(s.cur, STACK_PAGE)].frame], o)))
  }

  lemma OtherFrame(s: State, image: Image, y: nat)
    requires RoomFor(s, |image|) && 0 < y < |image|
    ensures FrameNo(s.desc, y) != FrameNo(s.desc, 0)
  {
    assert FrameNo(s.desc, y) < |s.desc| by {
      hide MapImage, FrameNo, FreeFrames;
      EntryDecides(s, image, y, image[y].1);
      MapImageUndisturbed(s, image);
    }
    hide MapImage, FreeFrames;
    var f := FirstFree(s.desc, FIRST_USER_FRAME);
    if f < |s.desc| {
      FrameNoFresh(s.desc[f := Desc(true, 0)], y - 1);
    }
  }

  /** The stack page keeps the frame that do_execv filled if and only if no loadable header covers it. */
  lemma StackSurvivesIff(s: State, stack: Page, file: seq<Byte>, segs: seq<Segment>, keeps: nat -> Keeps, image: Image)
    requires AllOk(file, segs) && LoadedImage(file, segs, keeps, |segs|, image) && RoomFor(s, 1 + |image|)
    ensures var t, k := MapImage(s, [(STACK_PAGE, stack)] + image), Slot(s.cur, STACK_PAGE);
            && t.cur == s.cur && k in t.pte && t.pte[k].frame < |t.data|
            && (t.pte[k].frame == FrameNo(s.desc, 0) <==> !CoveredIn(segs, 0, |segs|, STACK_PAGE))
            && (!CoveredIn(segs, 0, |segs|, STACK_PAGE) ==> t.data[t.pte[k].frame] == stack)
  {
    var all := [(STACK_PAGE, stack)] + image;
    ImageCovers(file, segs, keeps, image, STACK_PAGE);
    hide CoveredIn, LoadedImage, AllOk;
    var y := LastFor(all, STACK_PAGE, 0);
    EntryDecides(s, all, y, stack);
    if y > 0 {
      OtherFrame(s, all, y);
      assert image[y - 1].0 == STACK_PAGE;
    } else {
      assert forall x {:trigger image[x]} :: 0 <= x < |image| ==> all[x + 1] == image[x];
    }
    hide MapImage, FrameNo, RoomFor;
  }

  /** The last entry for a page that has one. */
  lemma LastFor(image: Image, page: nat, x: nat) returns (y: nat)
    requires x < |image| && image[x].0 == page
    ensures x <= y < |image| && image[y].0 == page && Last(image, y)
    decreases |image| - x
  {
    if z :| x < z < |image| && image[z].0 == page {
      y := LastFor(image, page, z);
    } else {
      y := x;
    }
  }

  /** What _start reads through the new program's page tables is the argc, argv and envp given to
      do_execv, as long as no header covers the stack page. */
  lemma StartReadsArguments(s: State, stack: seq<ExecStack.Byte>, file: seq<Byte>, segs: seq<Segment>,
                            keeps: nat -> Keeps, image: Image,
                            rsp: nat, argv: seq<ExecStack.Str>, envp: seq<ExecStack.Str>, ap: seq<nat>, ep: seq<nat>)
    requires AllOk(file, segs) && LoadedImage(file, segs, keeps, |segs|, image) && RoomFor(s, 1 + |image|)
    requires !CoveredIn(segs, 0, |segs|, STACK_PAGE)
    requires ExecStack.Fits(argv, envp) && ExecStack.StackImage(stack, rsp, argv, envp, ap, ep) && envp != []
    requires forall str :: str in argv || str in envp ==> ExecStack.NoNul(str)
    ensures var t := MapImage(s, [(STACK_PAGE, AsPage(stack))] + image);
            && MappedAt(t, STACK_PAGE * PAGE_SIZE)
            && var bytes := StackBytes(t);
               && rsp + 8 <= |bytes| && ExecStack.StartArgc(bytes, rsp) == |argv|
               && ExecStack.ReadStrings(bytes, rsp + 8, |argv|) == argv
               && ExecStack.ReadUntilNull(bytes, ExecStack.StartEnvp(rsp, |argv|)) == envp
  {
    var t := MapImage(s, [(STACK_PAGE, AsPage(stack))] + image);
    StackSurvivesIff(s, AsPage(stack), file, segs, keeps, image);
    SizeOfStack(stack, rsp, argv, envp, ap, ep);
    hide CoveredIn, LoadedImage, AllOk, RoomFor, MapImage, ExecStack.StackImage, ExecStack.NoNul, ExecStack.Fits;
    assert PageNo(STACK_PAGE * PAGE_SIZE) == STACK_PAGE;
    BytesAre(t, stack);
    ExecStack.ExecArgumentsRoundTrip(stack, rsp, argv, envp, ap, ep);
  }

  lemma SizeOfStack(stack: seq<ExecStack.Byte>, rsp: nat, argv: seq<ExecStack.Str>, envp: seq<ExecStack.Str>,
                    ap: seq<nat>, ep: seq<nat>)
    requires ExecStack.Fits(argv, envp) && ExecStack.StackImage(stack, rsp, argv, envp, ap, ep)
    ensures |stack| == PAGE_SIZE
  {
    hide ExecStack.HoldsStrings, ExecStack.HoldsWords;
  }

  lemma BytesAre(t: State, stack: seq<ExecStack.Byte>)
    requires |stack| == PAGE_SIZE && MappedAt(t, STACK_PAGE * PAGE_SIZE)
    requires t.data[t.pte[Slot(t.cur, STACK_PAGE)].frame] == AsPage(stack)
    ensures StackBytes(t) == stack
  {
    forall o | 0 <= o < PAGE_SIZE
      ensures StackBytes(t)[o] == stack[o]
    {
      NumberOf(stack[o]);
    }
  }
}
