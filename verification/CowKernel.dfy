/** The kernel routines that edit page tables and descriptors in place, each proved to have the
    effect of its function in CowModel. */
module CowKernel {
  import opened Addresses
  import opened Options
  import opened CowModel
  import opened CowSafety
  import Heap

  ghost predicate UserRegions(vmas: seq<Vma>) {
    forall vma :: vma in vmas ==> vma.end <= USER_END
  }

  /** in_vma walks the chain. */
  method FindVma(vmas: seq<Vma>, a: nat) returns (r: Option<Vma>)
    ensures r == InVma(vmas, a)
  {
    var i := 0;
    while i < |vmas|
      invariant 0 <= i <= |vmas|
      invariant InVma(vmas, a) == InVma(vmas[i..], a)
    {
      if Contains(vmas[i], a) {
        return Some(vmas[i]);
      }
      assert vmas[i..][1..] == vmas[i + 1..];
      i := i + 1;
    }
    return None;
  }

  class Kernel {
    var cur: nat
    var mms: map<nat, Mm>
    var pte: map<Slot, Pte>
    var dirs: set<Dir>
    const desc: array<Desc>
    const data: array<Page>
    /** Cached translations of the running process, the scratch page included. */
    var tlb: map<nat, Pte>
    /** The entry of the scratch page. */
    var scratch: Pte
    /** The entry of the kernel page 0xffffffff80000000, which do_execv borrows and then clears. */
    var execScratch: Option<Pte>
    /** The process whose root global_PML4 points at. */
    var target: nat
    ghost var tableFrames: set<nat>
    /** The upper-level entries whose tables lie above the direct map. */
    ghost var high: set<Dir>

    ghost predicate Valid()
      reads this, desc, data
    {
      && desc.Length == data.Length && FIRST_USER_FRAME <= desc.Length
      && cur in mms && UserRegions(mms[cur].vmas)
      && (forall k {:trigger pte[k]} :: k in pte ==> k.page != SCRATCH && pte[k].frame < desc.Length)
      && (forall d :: d in high ==> d.pid in mms)
    }

    /** map_virmem_to_phymem reaches every table of the process through the direct map. */
    ghost predicate AllDirect(pid: nat)
      reads this
    {
      forall d :: d in high ==> d.pid != pid
    }

    ghost function Abs(): State
      reads this, desc, data
    {
      State(cur, mms, pte, dirs, desc[..], data[..], tlb, tableFrames, high, target)
    }

    /** allocate_page_user. */
    method AllocatePageUser() returns (f: nat)
      requires Valid() && CanAllocate(Abs())
      modifies desc
      ensures f == NextFrame(old(Abs())) && f < desc.Length
      ensures Abs() == Allocate(old(Abs()))
    {
      var i := FIRST_USER_FRAME;
      while desc[i].used
        invariant FIRST_USER_FRAME <= i < desc.Length
        invariant FirstFree(desc[..], i) == NextFrame(Abs())
        decreases desc.Length - i
      {
        assert desc[..][i] == desc[i];
        i := i + 1;
      }
      assert desc[..][i] == desc[i];
      desc[i] := Desc(true, 0);
      return i;
    }

    /** self_ref_write at level PT. */
    method SelfRefWrite(page: nat, e: Pte)
      requires e.frame < desc.Length && page != SCRATCH
      modifies this`pte
      ensures pte == old(pte)[Slot(cur, page) := e]
    {
      pte := pte[Slot(cur, page) := e];
    }

    /** The handler's test of one upper level. */
    method EnsureLevel(level: nat, page: nat)
      requires Valid() && CanAllocate(Abs())
      modifies this`dirs, this`tableFrames, this`high, desc
      ensures Valid() && Abs() == EnsureTable(old(Abs()), level, page)
    {
      var d := DirOf(cur, level, page);
      if d !in dirs {
        var f := AllocatePageUser();
        dirs := dirs + {d};
        tableFrames := tableFrames + {f};
        high := high + {d};
      }
    }

    /** How the running kernel reaches a page: a cached translation wins over the tables. */
    ghost function Reach(page: nat): Option<Pte>
      reads this
    {
      if page in tlb then Some(tlb[page])
      else if page == SCRATCH then Some(scratch)
      else if Slot(cur, page) in pte then Some(pte[Slot(cur, page)])
      else None
    }

    /** A whole-page memcpy through virtual addresses. Both translations may end up cached. */
    method CopyPage(dst: nat, src: nat)
      requires Valid()
      requires Reach(dst).Some? && Reach(dst).value.frame < data.Length && Reach(dst).value.writable
      requires Reach(src).Some? && Reach(src).value.frame < data.Length
      modifies this`tlb, data
      ensures data[..] == old(data[..])[old(Reach(dst)).value.frame := old(data[..])[old(Reach(src)).value.frame]]
      ensures forall page {:trigger tlb[page]} {:trigger page in tlb} :: page in tlb && page !in old(tlb) ==>
                (page == dst || page == src) && Some(tlb[page]) == old(Reach(page))
      ensures forall page {:trigger page in tlb} :: page in old(tlb) ==> page in tlb && tlb[page] == old(tlb)[page]
    {
      var from := if src in tlb then tlb[src] else if src == SCRATCH then scratch else pte[Slot(cur, src)];
      var into := if dst in tlb then tlb[dst] else if dst == SCRATCH then scratch else pte[Slot(cur, dst)];
      data[into.frame] := data[from.frame];
      tlb := tlb[src := from][dst := into];
    }

    /** Loading cr3 empties the TLB. */
    method ReloadCr3()
      modifies this`tlb
      ensures Abs() == Flush(old(Abs()))
    {
      tlb := map[];
    }

    /** Map a frame, then take back the write right if the region is read-only. */
    method MapFrame(page: nat, f: nat, writable: bool)
      requires Valid() && f < desc.Length && page != SCRATCH
      modifies this`pte
      ensures Valid()
      ensures Abs() == old(Abs()).(pte := old(pte)[Slot(cur, page) := Pte(f, true, writable, true, false)])
    {
      hide UserRegions;
      ghost var was := pte;
      SelfRefWrite(page, Pte(f, true, true, true, false));
      if !writable {
        SelfRefWrite(page, Pte(f, true, false, true, false));
      }
      assert pte == was[Slot(cur, page) := Pte(f, true, writable, true, false)];
    }

    /** A new page. The frame's content is left as found, which is zero. */
    method MapAnonymous(page: nat, writable: bool)
      requires Valid() && Core(Abs()) && CanAllocate(Abs()) && page != SCRATCH
      modifies this`pte, desc
      ensures Valid() && Abs() == MapFresh(old(Abs()), page, ZERO_PAGE, writable)
    {
      ghost var s := Abs();
      AllocationFacts(s);
      AbsParts();
      hide *;
      var f := AllocatePageUser();
      AbsParts();
      MapFrame(page, f, writable);
      AnonymousIs(s, f, page, writable);
      SameTables(s);
    }

    lemma AbsParts()
      ensures Abs().cur == cur && Abs().pte == pte
    {
    }

    lemma SameTables(s: State)
      requires CanAllocate(s)
      ensures Allocate(s).pte == s.pte && Allocate(s).cur == s.cur
    {
      hide FirstFree;
    }

    /** Not-present faults: build the missing tables, then map the page. */
    method HandleMissing(page: nat, writable: bool)
      requires Valid() && Core(Abs()) && RoomForTables(Abs(), page) && page != SCRATCH
      modifies this`dirs, this`tableFrames, this`high, this`pte, desc
      ensures Valid() && Abs() == DemandPage(old(Abs()), page, writable)
    {
      EnsureTablesKeepsCore(Abs(), page);
      hide Core, UserRegions, CanAllocate, EnsureTable, MapFresh, HasTables, Exact;
      EnsureLevel(4, page);
      EnsureLevel(3, page);
      EnsureLevel(2, page);
      if Slot(cur, page) !in pte {
        MapAnonymous(page, writable);
      }
    }

    /** Borrow the scratch page's entry, copy the faulting page through it, put the entry back. No
        stale translation takes part: the scratch page was not cached and the source entry is current. */
    method CopyThroughScratch(page: nat, f: nat)
      requires Valid() && f < data.Length && page != SCRATCH && SCRATCH !in tlb
      requires Slot(cur, page) in pte && (page in tlb ==> tlb[page] == pte[Slot(cur, page)])
      modifies this`tlb, this`scratch, data
      ensures data[..] == old(data[..])[f := old(data[..])[pte[Slot(cur, page)].frame]]
      ensures scratch == old(scratch)
    {
      var saved := scratch;
      scratch := Pte(f, true, true, true, false);
      CopyPage(SCRATCH, page);
      scratch := saved;
    }

    /** The shared case: copy to a new frame and drop one reference to the old one. */
    method CopyCow(page: nat, src: nat)
      requires Valid() && CanAllocate(Abs()) && Slot(cur, page) in pte && src == pte[Slot(cur, page)].frame
      requires SCRATCH !in tlb && (page in tlb ==> tlb[page] == pte[Slot(cur, page)])
      requires desc[src].used && desc[src].refCount != 0
      modifies this`pte, this`tlb, this`scratch, desc, data
      ensures Valid() && Flush(Abs()) == Flush(BreakCow(old(Abs()), page)) && scratch == old(scratch)
    {
      hide UserRegions, FirstFree;
      var f := AllocatePageUser();
      CopyThroughScratch(page, f);
      SelfRefWrite(page, Pte(f, true, true, true, false));
      desc[src] := desc[src].(refCount := desc[src].refCount - 1);
    }

    /** A write to a copy-on-write page; the TLB is left dirty for the reload that ends the handler. */
    method HandleCow(page: nat)
      requires Valid() && Inv(Abs()) && CanAllocate(Abs()) && Slot(cur, page) in pte
      modifies this`pte, this`tlb, this`scratch, desc, data
      ensures Valid() && Flush(Abs()) == Flush(BreakCow(old(Abs()), page)) && scratch == old(scratch)
    {
      ghost var s := Abs();
      var src := pte[Slot(cur, page)].frame;
      if desc[src].refCount == 0 {
        hide Inv, UserRegions;
        SelfRefWrite(page, Pte(src, true, true, true, false));
      } else {
        assert EntryOk(s, Slot(cur, page), s.pte[Slot(cur, page)]);
        assert SCRATCH !in tlb && (page in tlb ==> tlb[page] == pte[Slot(cur, page)]);
        hide Inv, UserRegions, EntryOk, BreakCow;
        CopyCow(page, src);
      }
    }

    /** page_fault_handler. */
    method PageFault(a: nat, err: PfErr) returns (outcome: Outcome)
      requires Valid() && Inv(Abs()) && Ready(Abs(), a)
      modifies this`dirs, this`tableFrames, this`high, this`pte, this`tlb, this`scratch, desc, data
      ensures (Abs(), outcome) == Fault(old(Abs()), a, err) && Valid() && scratch == old(scratch)
    {
      var page := a / PAGE_SIZE;
      var found := FindVma(mms[cur].vmas, a);
      match found {
        case Some(vma) =>
          assert page != SCRATCH;
          if !err.present {
            HandleMissing(page, vma.writable);
            outcome := Resolved;
          } else if err.write && vma.writable && Slot(cur, page) in pte && pte[Slot(cur, page)].cow {
            HandleCow(page);
            outcome := Resolved;
          } else {
            outcome := Killed;
          }
        case None =>
          // no exception table: a fault of the kernel's own outside every region halts the machine
          outcome := if err.user then Killed else Panic;
      }
      ReloadCr3();
    }

    /** map_virmem_to_phymem: it walks from global_PML4, whoever runs, and builds missing tables from the
        kernel's own pool. */
    method MapVirmem(page: nat, e: Pte)
      requires e.frame < desc.Length && page != SCRATCH && DirectPath(high, target, page)
      modifies this`pte, this`dirs
      ensures pte == old(pte)[Slot(target, page) := e] && dirs == WithTables(old(dirs), target, page)
    {
      pte := pte[Slot(target, page) := e];
      dirs := WithTables(dirs, target, page);
    }

    /** One page of set_child_pt. */
    method ShareWithChild(child: nat, page: nat)
      requires Valid() && child != cur && child == target && AllDirect(child) && page != SCRATCH
      modifies this`pte, this`dirs, desc
      ensures Valid() && FramesInRange(old(Abs())) && Abs() == ForkPage(old(Abs()), child, page)
    {
      if Slot(cur, page) in pte {
        var content := pte[Slot(cur, page)];
        desc[content.frame] := desc[content.frame].(refCount := desc[content.frame].refCount + 1);
        content := content.(writable := false, cow := true);
        SelfRefWrite(page, content);
        MapVirmem(page, content);
      }
    }

    /** Where set_child_pt stops: the end rounded up, and a page more for the stack's guard page. */
    static method RegionEnd(vma: Vma, last: bool) returns (endAddr: nat)
      requires vma.end <= USER_END
      ensures endAddr == PageLimit(vma, last) * PAGE_SIZE && endAddr <= USER_END + PAGE_SIZE
    {
      endAddr := vma.end / PAGE_SIZE * PAGE_SIZE;
      if vma.end % PAGE_SIZE != 0 {
        endAddr := endAddr + PAGE_SIZE;
      }
      if last {
        endAddr := endAddr + PAGE_SIZE;
      }
    }

    /** One page more than the pages from first that s has already shared. */
    method ShareNext(child: nat, page: nat, ghost s: State, ghost first: nat)
      requires Valid() && child != cur && child == target && AllDirect(child) && first <= page && page != SCRATCH
      requires FramesInRange(s) && Abs() == ForkLoop(s, child, PageRange(first, page))
      modifies this`pte, this`dirs, desc
      ensures Valid() && Abs() == ForkLoop(s, child, PageRange(first, page + 1))
    {
      PageRangeSnoc(first, page);
      ForkLoopSnoc(s, child, PageRange(first, page), page);
      hide UserRegions, ForkPage, ForkLoop, PageRange;
      ShareWithChild(child, page);
    }

    /** The inner loop of set_child_pt, from one page-aligned address to another. */
    method ShareRange(child: nat, from: nat, endAddr: nat, ghost first: nat, ghost limit: nat)
      requires Valid() && child != cur && child == target && AllDirect(child)
      requires from == first * PAGE_SIZE && endAddr == limit * PAGE_SIZE && endAddr <= USER_END + PAGE_SIZE
      modifies this`pte, this`dirs, desc
      ensures Valid() && FramesInRange(old(Abs()))
      ensures Abs() == ForkLoop(old(Abs()), child, PageRange(first, limit))
    {
      ghost var s := Abs();
      PageRangeEmpty(first, first);
      EmptyForkLoop(s, child);
      hide UserRegions, ForkPage, ForkLoop, PageRange;
      var startAddr, page := from, from / PAGE_SIZE;
      while startAddr < endAddr
        invariant first <= page && startAddr == page * PAGE_SIZE && (page <= limit || page == first) && Valid()
        invariant FramesInRange(s) && Abs() == ForkLoop(s, child, PageRange(first, page))
      {
        ShareNext(child, page, s, first);
        page := page + 1;
        startAddr := startAddr + PAGE_SIZE;
      }
      if first > limit {
        PageRangeEmpty(first, limit);
      }
    }

    /** One round of set_child_pt's outer loop. */
    method ShareRegion(child: nat, vma: Vma, last: bool)
      requires Valid() && child != cur && child == target && AllDirect(child) && vma.end <= USER_END
      modifies this`pte, this`dirs, desc
      ensures Valid() && FramesInRange(old(Abs()))
      ensures Abs() == ForkLoop(old(Abs()), child, PageRange(vma.start / PAGE_SIZE, PageLimit(vma, last)))
    {
      hide UserRegions, ForkPage, ForkLoop, PageRange, PageLimit;
      var endAddr := RegionEnd(vma, last);
      ShareRange(child, vma.start / PAGE_SIZE * PAGE_SIZE, endAddr, vma.start / PAGE_SIZE, PageLimit(vma, last));
    }

    /** set_child_pt. */
    method SetChildPt(child: nat)
      requires Valid() && child != cur && child in mms && child == target && AllDirect(child)
      modifies this`pte, this`dirs, this`tlb, desc
      ensures Valid() && FramesInRange(old(Abs()))
      ensures Abs() == Flush(ForkLoop(old(Abs()), child, ForkPages(mms[cur].vmas)))
    {
      ghost var s := Abs();
      hide ForkLoop, PageRange, PageLimit;
      EmptyForkLoop(s, child);
      ghost var visited: seq<nat> := [];
      var vmas := mms[cur].vmas;
      var i := 0;
      while i < |vmas|
        invariant 0 <= i <= |vmas| && vmas == mms[cur].vmas && Valid()
        invariant FramesInRange(s) && Abs() == ForkLoop(s, child, visited)
        invariant ForkPages(vmas) == visited + ForkPages(vmas[i..])
      {
        ghost var pages := PageRange(vmas[i].start / PAGE_SIZE, PageLimit(vmas[i], i + 1 == |vmas|));
        ForkPagesFront(vmas, i, pages);
        ShareRegion(child, vmas[i], i + 1 == |vmas|);
        ForkLoopConcat(s, child, visited, pages);
        visited := visited + pages;
        i := i + 1;
      }
      assert vmas[i..] == [] && visited + [] == visited;
      ReloadCr3();
    }

    /** The memory part of do_fork: copy_mm, then set_child_pt, which points global_PML4 at the child's root
        and leaves it there. */
    method DoFork(child: nat)
      requires Valid() && child !in mms
      modifies this`mms, this`pte, this`dirs, this`tlb, this`target, desc
      ensures Valid() && FramesInRange(old(Abs())) && Abs() == Fork(old(Abs()), child)
    {
      mms := mms[child := mms[cur]];
      target := child;
      SetChildPt(child);
    }

    /** do_sbrk. A nonzero size below BRK_LIMIT that stays under 4 GB yields size bytes from the old brk
        on; brk remains the end of the heap region, and no other region or process changes. */
    method DoSbrk(size: nat) returns (r: SbrkResult)
      requires cur in mms && HEAP < |mms[cur].vmas|
      modifies this`mms
      ensures r == Sbrk(old(mms[cur]), size)
      ensures mms == if r.Grown? then old(mms)[cur := r.mm] else old(mms)
      ensures Heap.HeapOk(old(mms[cur])) && 0 < size < BRK_LIMIT && old(mms[cur]).brk + size + 0xfff < 0x1_0000_0000 ==>
                && r.Grown? && r.at == old(mms[cur]).brk && Heap.HeapOk(mms[cur])
                && r.at + size <= mms[cur].brk == mms[cur].vmas[HEAP].end
      ensures forall i {:trigger mms[cur].vmas[i]} :: 0 <= i < |old(mms[cur]).vmas| && i != HEAP ==>
                |mms[cur].vmas| == |old(mms[cur]).vmas| && mms[cur].vmas[i] == old(mms[cur]).vmas[i]
      ensures Heap.HeapOk(old(mms[cur])) && (size == 0 || size >= BRK_LIMIT) ==> mms == old(mms)
    {
      SbrkMeans(mms[cur], size);
      var mm := mms[cur];
      var oldbrk := Mask32((mm.brk + 0xfff) % 0x1_0000_0000_0000_0000);
      var newbrk := Mask32((mm.brk + size + 0xfff) % 0x1_0000_0000_0000_0000);
      if oldbrk == newbrk {
        return Unchanged(oldbrk);
      }
      if size < BRK_LIMIT {
        r := Grown(mm.brk, Mm(mm.vmas[HEAP := mm.vmas[HEAP].(end := newbrk)], newbrk));
        mms := mms[cur := r.mm];
      } else {
        r := Refused;
      }
    }
  }

  /** A free frame is zero already. */
  lemma AnonymousIs(s: State, f: nat, page: nat, writable: bool)
    requires CanAllocate(s) && f == NextFrame(s) && s.data[f] == ZERO_PAGE
    ensures MapFresh(s, page, ZERO_PAGE, writable) ==
            Allocate(s).(pte := s.pte[Slot(s.cur, page) := Pte(f, true, writable, true, false)])
  {
    hide FirstFree;
    assert s.data[f := ZERO_PAGE] == s.data;
  }

  lemma SbrkMeans(mm: Mm, size: nat)
    requires HEAP < |mm.vmas|
    ensures var r := Sbrk(mm, size);
            && (Heap.HeapOk(mm) && 0 < size < BRK_LIMIT && mm.brk + size + 0xfff < 0x1_0000_0000 ==>
                  r.Grown? && r.at == mm.brk && r.at + size <= r.mm.brk && Heap.HeapOk(r.mm))
            && (Heap.HeapOk(mm) && (size == 0 || size >= BRK_LIMIT) ==> !r.Grown?)
  {
    hide Mask32, Heap.RoundUp, Sbrk;
    if Heap.HeapOk(mm) && 0 < size < BRK_LIMIT && mm.brk + size + 0xfff < 0x1_0000_0000 {
      Heap.RoundUpAligned(size);
      Heap.SbrkWithinMask(mm, size);
      Heap.MaskAligned(mm.brk, size);
      Heap.MaskBelow(mm.brk + size + 0xfff);
    }
    if Heap.HeapOk(mm) && (size == 0 || size >= BRK_LIMIT) {
      NoGrowth(mm, size);
    }
  }

  lemma NoGrowth(mm: Mm, size: nat)
    requires HEAP < |mm.vmas| && (size == 0 || size >= BRK_LIMIT)
    ensures !Sbrk(mm, size).Grown?
  {
    hide Mask32;
  }

  lemma PageRangeEmpty(from: nat, limit: nat)
    requires from >= limit
    ensures PageRange(from, limit) == []
  {
  }

  lemma PageRangeSnoc(from: nat, v: nat)
    requires from <= v
    ensures PageRange(from, v + 1) == PageRange(from, v) + [v]
  {
  }

  lemma ForkPagesFront(vmas: seq<Vma>, i: nat, pages: seq<nat>)
    requires i < |vmas| && pages == PageRange(vmas[i].start / PAGE_SIZE, PageLimit(vmas[i], i + 1 == |vmas|))
    ensures ForkPages(vmas[i..]) == pages + ForkPages(vmas[i + 1..])
  {
    assert vmas[i..][0] == vmas[i] && vmas[i..][1..] == vmas[i + 1..];
  }

  lemma EmptyForkLoop(s: State, child: nat)
    requires FramesInRange(s)
    ensures ForkLoop(s, child, []) == s
  {
  }

  lemma ForkLoopSnoc(s: State, child: nat, pages: seq<nat>, v: nat)
    requires FramesInRange(s)
    ensures ForkLoop(s, child, pages + [v]) == ForkPage(ForkLoop(s, child, pages), child, v)
  {
    assert (pages + [v])[..|pages|] == pages;
  }

  lemma {:induction false} ForkLoopConcat(s: State, child: nat, a: seq<nat>, b: seq<nat>)
    requires FramesInRange(s)
    ensures ForkLoop(s, child, a + b) == ForkLoop(ForkLoop(s, child, a), child, b)
    decreases |b|
  {
    if b == [] {
      assert a + b == a;
    } else {
      var front, v := b[..|b| - 1], b[|b| - 1];
      ForkLoopConcat(s, child, a, front);
      assert a + b == (a + front) + [v] && b == front + [v];
      ForkLoopSnoc(s, child, a + front, v);
      ForkLoopSnoc(ForkLoop(s, child, a), child, front, v);
    }
  }
}
