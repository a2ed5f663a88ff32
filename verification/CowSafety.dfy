/** What every step of the copy-on-write protocol keeps: reference counts bound the sharing of each
    frame, a writable frame is mapped once, and the TLB never disagrees with the page tables. */
module CowSafety {
  import opened Addresses
  import opened Options
  import opened CowModel

  // ----- the invariant -----

  /** The entries, of all processes, that map frame f. */
  ghost function Maps(pte: map<Slot, Pte>, f: nat): set<Slot> {
    set k | k in pte && pte[k].frame == f
  }

  ghost predicate Sized(s: State) {
    |s.desc| == |s.data| && FIRST_USER_FRAME <= |s.desc| && s.cur in s.mms
  }

  ghost predicate UserFrame(s: State, f: nat) {
    FIRST_USER_FRAME <= f < |s.desc| && s.desc[f].used && f !in s.tableFrames
  }

  ghost predicate EntryOk(s: State, k: Slot, e: Pte) {
    && k.pid in s.mms && HasTables(s, k.pid, k.page)
    && e.present && e.user && !(e.writable && e.cow)
    && UserFrame(s, e.frame)
  }

  ghost predicate EntriesOk(s: State) {
    forall k {:trigger s.pte[k]} {:trigger k in s.pte} :: k in s.pte ==> EntryOk(s, k, s.pte[k])
  }

  /** Frames are handed out zeroed because a free frame has never been written. */
  ghost predicate FreeZero(s: State)
    requires |s.desc| == |s.data|
  {
    forall f {:trigger s.data[f]} :: FIRST_USER_FRAME <= f < |s.desc| && !s.desc[f].used ==> s.data[f] == ZERO_PAGE
  }

  ghost predicate TablesOk(s: State) {
    forall f {:trigger f in s.tableFrames} :: f in s.tableFrames ==> FIRST_USER_FRAME <= f < |s.desc| && s.desc[f].used
  }

  /** ref_count + 1 is at least the number of entries that map the frame. */
  ghost predicate Counted(s: State) {
    forall f {:trigger s.desc[f]} {:trigger Maps(s.pte, f)} :: FIRST_USER_FRAME <= f < |s.desc| && s.desc[f].used ==>
      s.desc[f].refCount >= 0 && |Maps(s.pte, f)| <= s.desc[f].refCount + 1
  }

  /** A frame that some entry maps writable is mapped by no other entry. */
  ghost predicate Exclusive(s: State) {
    forall k {:trigger s.pte[k]} :: k in s.pte && s.pte[k].writable ==> Maps(s.pte, s.pte[k].frame) == {k}
  }

  ghost predicate Core(s: State) {
    Sized(s) && EntriesOk(s) && FreeZero(s) && TablesOk(s) && Counted(s) && Exclusive(s)
  }

  ghost predicate Coherent(s: State) {
    forall v {:trigger s.tlb[v]} {:trigger v in s.tlb} :: v in s.tlb ==>
      Slot(s.cur, v) in s.pte && s.tlb[v] == s.pte[Slot(s.cur, v)]
  }

  ghost predicate Inv(s: State) {
    Core(s) && Coherent(s)
  }

  /** Reference counts are exact: ref_count + 1 entries map each data frame. */
  ghost predicate Exact(s: State) {
    forall f: nat {:trigger s.desc[f]} {:trigger Maps(s.pte, f)} :: UserFrame(s, f) ==>
        |Maps(s.pte, f)| == s.desc[f].refCount + 1
  }

  // ----- counting entries -----

  lemma MapsSet(pte: map<Slot, Pte>, k: Slot, e: Pte, f: nat)
    ensures Maps(pte[k := e], f) == if f == e.frame then Maps(pte, f) + {k} else Maps(pte, f) - {k}
  {
  }

  lemma UnmappedFrame(s: State, f: nat)
    requires EntriesOk(s) && !UserFrame(s, f)
    ensures Maps(s.pte, f) == {}
  {
  }

  // ----- allocation -----

  lemma AllocationFacts(s: State)
    requires Core(s) && CanAllocate(s)
    ensures !s.desc[NextFrame(s)].used && FIRST_USER_FRAME <= NextFrame(s) < |s.desc|
    ensures s.data[NextFrame(s)] == ZERO_PAGE
    ensures Maps(s.pte, NextFrame(s)) == {}
    ensures NextFrame(s) !in s.tableFrames
  {
    UnmappedFrame(s, NextFrame(s));
  }

  lemma FreeFrameExists(desc: seq<Desc>, i: nat)
    requires FIRST_USER_FRAME <= i <= |desc|
    requires exists f :: f in FreeFrames(desc) && i <= f
    ensures FirstFree(desc, i) < |desc|
  {
  }

  /** One allocation uses up one free frame. */
  lemma AllocationCount(s: State)
    requires |s.desc| == |s.data| && FIRST_USER_FRAME <= |s.desc| && |FreeFrames(s.desc)| >= 1
    ensures CanAllocate(s)
    ensures |FreeFrames(Allocate(s).desc)| == |FreeFrames(s.desc)| - 1
  {
    var f :| f in FreeFrames(s.desc);
    FreeFrameExists(s.desc, FIRST_USER_FRAME);
    assert FreeFrames(Allocate(s).desc) == FreeFrames(s.desc) - {NextFrame(s)};
  }

  lemma EnsureTableFrames(s: State, level: nat, page: nat)
    requires |s.desc| == |s.data| && FIRST_USER_FRAME <= |s.desc| && |FreeFrames(s.desc)| >= 1
    ensures CanAllocate(s)
    ensures var t := EnsureTable(s, level, page);
            && |t.desc| == |t.data| && FIRST_USER_FRAME <= |t.desc| && t.cur == s.cur && t.mms == s.mms
            && |FreeFrames(t.desc)| >= |FreeFrames(s.desc)| - 1
  {
    AllocationCount(s);
  }

  /** Four free frames are enough for a fault. */
  lemma FaultCanAllocate(s: State, page: nat)
    requires RoomForFault(s)
    ensures CanAllocate(s) && RoomForTables(s, page)
  {
    EnsureTableFrames(s, 4, page);
    var t1 := EnsureTable(s, 4, page);
    EnsureTableFrames(t1, 3, page);
    var t2 := EnsureTable(t1, 3, page);
    EnsureTableFrames(t2, 2, page);
    var t3 := EnsureTable(t2, 2, page);
    EnsureTableFrames(t3, 2, page);
    hide EnsureTable, CanAllocate, FreeFrames;
  }

  // ----- each primitive keeps the invariant -----

  lemma EnsureTableKeepsCore(s: State, level: nat, page: nat)
    requires Core(s) && CanAllocate(s)
    ensures Core(EnsureTable(s, level, page))
    ensures Exact(s) ==> Exact(EnsureTable(s, level, page))
    ensures var t := EnsureTable(s, level, page);
            && t.dirs == s.dirs + {DirOf(s.cur, level, page)}
            && t.pte == s.pte && t.cur == s.cur && t.mms == s.mms && t.data == s.data && t.tlb == s.tlb
  {
    AllocationFacts(s);
    EnsureTableKeepsEntries(s, level, page);
    hide FirstFree, Maps, DirIndex, EntriesOk, FreeZero, TablesOk;
    assert Counted(EnsureTable(s, level, page));
  }

  lemma EnsureTableKeepsEntries(s: State, level: nat, page: nat)
    requires Core(s) && CanAllocate(s)
    ensures var t := EnsureTable(s, level, page); Sized(t) && EntriesOk(t) && FreeZero(t) && TablesOk(t)
  {
    AllocationFacts(s);
    hide FirstFree, Maps, DirIndex, Counted, Exclusive;
  }

  /** Overwriting one entry: what the new entry must satisfy for the counts to stay right. */
  lemma CountsAfterSet(s: State, t: State, k: Slot, e: Pte)
    requires t.pte == s.pte[k := e]
    ensures Maps(t.pte, e.frame) == Maps(s.pte, e.frame) + {k}
    ensures forall f {:trigger Maps(t.pte, f)} :: f != e.frame ==> Maps(t.pte, f) == Maps(s.pte, f) - {k}
    ensures forall f {:trigger Maps(t.pte, f)} :: f != e.frame ==> |Maps(t.pte, f)| <= |Maps(s.pte, f)|
    ensures forall f {:trigger Maps(t.pte, f)} :: f != e.frame && k !in Maps(s.pte, f) ==>
              Maps(t.pte, f) == Maps(s.pte, f)
    ensures forall f {:trigger Maps(t.pte, f)} :: f != e.frame && k in Maps(s.pte, f) ==>
              |Maps(t.pte, f)| == |Maps(s.pte, f)| - 1
  {
    MapsSet(s.pte, k, e, e.frame);
    forall f: nat | f != e.frame
      ensures Maps(t.pte, f) == Maps(s.pte, f) - {k}
      ensures |Maps(t.pte, f)| <= |Maps(s.pte, f)|
    {
      MapsSet(s.pte, k, e, f);
    }
  }

  lemma MapFreshKeepsEntries(s: State, page: nat, content: Page, writable: bool)
    requires Core(s) && CanAllocate(s) && HasTables(s, s.cur, page)
    ensures var t := MapFresh(s, page, content, writable); Sized(t) && EntriesOk(t) && FreeZero(t) && TablesOk(t)
  {
    AllocationFacts(s);
    hide Counted, Exclusive, Maps;
  }

  lemma MapFreshKeepsCore(s: State, page: nat, content: Page, writable: bool)
    requires Core(s) && CanAllocate(s) && HasTables(s, s.cur, page)
    ensures Core(MapFresh(s, page, content, writable))
    ensures Exact(s) && Slot(s.cur, page) !in s.pte ==> Exact(MapFresh(s, page, content, writable))
  {
    AllocationFacts(s);
    MapFreshKeepsEntries(s, page, content, writable);
    var t := MapFresh(s, page, content, writable);
    MapFreshCounts(s, page, content, writable);
    MapFreshIsExclusive(s, page, content, writable);
    hide *;
    CoreIs(t);
  }

  lemma CoreIs(s: State)
    ensures Core(s) <==> Sized(s) && EntriesOk(s) && FreeZero(s) && TablesOk(s) && Counted(s) && Exclusive(s)
  {
    hide EntriesOk, FreeZero, TablesOk, Counted, Exclusive;
  }

  lemma MapFreshCounts(s: State, page: nat, content: Page, writable: bool)
    requires Core(s) && CanAllocate(s)
    ensures Counted(MapFresh(s, page, content, writable))
    ensures Exact(s) && Slot(s.cur, page) !in s.pte ==> Exact(MapFresh(s, page, content, writable))
  {
    AllocationFacts(s);
    var t := MapFresh(s, page, content, writable);
    var k, f0 := Slot(s.cur, page), NextFrame(s);
    CountsAfterSet(s, t, k, t.pte[k]);
    assert Maps(t.pte, f0) == {k};
    if k !in s.pte {
      NewSlotUnmapped(s, k);
    }
    hide FirstFree, Maps, EntriesOk, FreeZero, TablesOk, Exclusive;
  }

  lemma MapFreshIsExclusive(s: State, page: nat, content: Page, writable: bool)
    requires Core(s) && CanAllocate(s)
    ensures Exclusive(MapFresh(s, page, content, writable))
  {
    AllocationFacts(s);
    var t := MapFresh(s, page, content, writable);
    var k, f0 := Slot(s.cur, page), NextFrame(s);
    CountsAfterSet(s, t, k, t.pte[k]);
    assert Maps(t.pte, f0) == {k};
    hide FirstFree, Maps, EntriesOk, FreeZero, TablesOk, Counted;
  }

  lemma SingletonSet(a: set<Slot>, k: Slot)
    requires k in a && |a| <= 1
    ensures a == {k}
  {
    assert |a - {k}| == |a| - 1;
  }

  lemma RegrantKeepsMaps(s: State, t: State, k: Slot, e: Pte)
    requires k in s.pte && t.pte == s.pte[k := e] && e.frame == s.pte[k].frame
    ensures forall f: nat {:trigger Maps(t.pte, f)} :: Maps(t.pte, f) == Maps(s.pte, f)
  {
  }

  lemma RegrantKeepsEntries(s: State, page: nat)
    requires Core(s) && CanAllocate(s) && Slot(s.cur, page) in s.pte
    requires s.desc[s.pte[Slot(s.cur, page)].frame].refCount == 0
    ensures var t := BreakCow(s, page); Sized(t) && EntriesOk(t) && FreeZero(t) && TablesOk(t)
  {
    hide Counted, Exclusive, Maps;
    assert EntryOk(s, Slot(s.cur, page), s.pte[Slot(s.cur, page)]);
  }

  lemma RegrantKeepsCore(s: State, page: nat)
    requires Core(s) && CanAllocate(s) && Slot(s.cur, page) in s.pte
    requires s.desc[s.pte[Slot(s.cur, page)].frame].refCount == 0
    ensures Core(BreakCow(s, page))
    ensures Exact(s) ==> Exact(BreakCow(s, page))
  {
    var t := BreakCow(s, page);
    var k := Slot(s.cur, page);
    var f := s.pte[k].frame;
    assert EntryOk(s, k, s.pte[k]);
    assert Maps(s.pte, f) == {k} by {
      assert k in Maps(s.pte, f);
      SingletonSet(Maps(s.pte, f), k);
    }
    RegrantKeepsMaps(s, t, k, t.pte[k]);
    RegrantKeepsEntries(s, page);
    hide EntriesOk, FreeZero, TablesOk, EntryOk, Maps;
    assert Counted(t);
  }

  lemma CopyKeepsEntries(m: State, t: State, src: nat)
    requires Sized(m) && EntriesOk(m) && FreeZero(m) && TablesOk(m) && UserFrame(m, src)
    requires t == m.(desc := m.desc[src := m.desc[src].(refCount := m.desc[src].refCount - 1)])
    ensures Sized(t) && EntriesOk(t) && FreeZero(t) && TablesOk(t)
  {
    hide Maps;
  }

  lemma DecrementKeepsCounts(m: State, t: State, src: nat)
    requires Core(m) && UserFrame(m, src)
    requires m.desc[src].refCount >= 1 && |Maps(m.pte, src)| <= m.desc[src].refCount
    requires t == m.(desc := m.desc[src := m.desc[src].(refCount := m.desc[src].refCount - 1)])
    ensures Core(t)
  {
    CopyKeepsEntries(m, t, src);
    hide EntriesOk, FreeZero, TablesOk, EntryOk, Maps;
  }

  /** A copy moves one entry from the shared frame to a frame of its own. */
  lemma CopyCounts(s: State, m: State, page: nat)
    requires Core(s) && CanAllocate(s) && Slot(s.cur, page) in s.pte
    requires m == MapFresh(s, page, s.data[s.pte[Slot(s.cur, page)].frame], true)
    ensures var src := s.pte[Slot(s.cur, page)].frame;
            && UserFrame(m, src) && m.desc[src] == s.desc[src]
            && |Maps(m.pte, src)| == |Maps(s.pte, src)| - 1
    ensures |Maps(m.pte, NextFrame(s))| == 1 && m.desc[NextFrame(s)] == Desc(true, 0)
    ensures forall f: nat {:trigger Maps(m.pte, f)} :: f != s.pte[Slot(s.cur, page)].frame && f != NextFrame(s) ==>
              Maps(m.pte, f) == Maps(s.pte, f)
  {
    var k := Slot(s.cur, page);
    var src := s.pte[k].frame;
    assert EntryOk(s, k, s.pte[k]);
    AllocationFacts(s);
    CountsAfterSet(s, m, k, m.pte[k]);
    assert k in Maps(s.pte, src);
    assert Maps(m.pte, NextFrame(s)) == {k};
  }

  lemma CopyKeepsCore(s: State, page: nat)
    requires Core(s) && CanAllocate(s) && Slot(s.cur, page) in s.pte
    requires s.desc[s.pte[Slot(s.cur, page)].frame].refCount != 0
    ensures Core(BreakCow(s, page))
    ensures Exact(s) ==> Exact(BreakCow(s, page))
  {
    var src := s.pte[Slot(s.cur, page)].frame;
    assert EntryOk(s, Slot(s.cur, page), s.pte[Slot(s.cur, page)]);
    var m := MapFresh(s, page, s.data[src], true);
    MapFreshKeepsCore(s, page, s.data[src], true);
    CopyCounts(s, m, page);
    DecrementKeepsCounts(m, BreakCow(s, page), src);
    hide Core, EntryOk, Maps, FirstFree;
    assert Exact(s) ==> Exact(BreakCow(s, page));
  }

  /** Both ways of resolving a copy-on-write fault keep the invariant and exact counts. */
  lemma BreakCowKeepsCore(s: State, page: nat)
    requires Core(s) && CanAllocate(s) && Slot(s.cur, page) in s.pte
    ensures Core(BreakCow(s, page))
    ensures Exact(s) ==> Exact(BreakCow(s, page))
  {
    if s.desc[s.pte[Slot(s.cur, page)].frame].refCount == 0 {
      RegrantKeepsCore(s, page);
    } else {
      CopyKeepsCore(s, page);
    }
  }

  lemma EnsureTablesKeepsCore(s: State, page: nat)
    requires Core(s) && RoomForTables(s, page)
    ensures var t := EnsureTables(s, page);
            && Core(t) && (Exact(s) ==> Exact(t)) && HasTables(t, s.cur, page)
            && t.pte == s.pte && t.cur == s.cur && t.mms == s.mms && t.data == s.data && t.tlb == s.tlb
  {
    EnsureTableKeepsCore(s, 4, page);
    var t1 := EnsureTable(s, 4, page);
    EnsureTableKeepsCore(t1, 3, page);
    var t2 := EnsureTable(t1, 3, page);
    EnsureTableKeepsCore(t2, 2, page);
    hide Core, Exact, EnsureTable, DirIndex;
  }

  lemma DemandPageKeepsCore(s: State, page: nat, writable: bool)
    requires Core(s) && RoomForTables(s, page)
    ensures Core(DemandPage(s, page, writable))
    ensures Exact(s) ==> Exact(DemandPage(s, page, writable))
  {
    EnsureTablesKeepsCore(s, page);
    var t := EnsureTables(s, page);
    if Slot(s.cur, page) !in s.pte {
      MapFreshKeepsCore(t, page, ZERO_PAGE, writable);
    }
  }

  lemma FlushKeepsCore(s: State)
    requires Core(s)
    ensures Inv(Flush(s)) && (Exact(s) ==> Exact(Flush(s)))
  {
  }

  /** The handler, whatever the address and the error code. */
  lemma FaultKeepsInv(s: State, a: nat, err: PfErr)
    requires Core(s) && Ready(s, a)
    ensures Inv(Fault(s, a, err).0)
    ensures Exact(s) ==> Exact(Fault(s, a, err).0)
  {
    var page := a / PAGE_SIZE;
    FlushKeepsCore(s);
    match InVma(s.mms[s.cur].vmas, a) {
      case None =>
      case Some(vma) =>
        if !err.present {
          DemandPageKeepsCore(s, page, vma.writable);
          FlushKeepsCore(DemandPage(s, page, vma.writable));
        } else if err.write && vma.writable && Slot(s.cur, page) in s.pte && s.pte[Slot(s.cur, page)].cow {
          BreakCowKeepsCore(s, page);
          FlushKeepsCore(BreakCow(s, page));
        }
    }
  }

  /** A granted access uses the entry the tables hold, with the rights the access needs. */
  ghost predicate Grants(t: State, a: nat, write: bool, e: Pte) {
    && Slot(t.cur, a / PAGE_SIZE) in t.pte && e == t.pte[Slot(t.cur, a / PAGE_SIZE)]
    && e.user && (write ==> e.writable)
  }

  lemma HitIsGranted(s: State, a: nat, write: bool)
    requires Inv(s) && Try(s, a, write).Hit?
    ensures Grants(s, a, write, Try(s, a, write).entry)
  {
  }

  lemma {:induction false} AccessKeepsInv(s: State, a: nat, write: bool, faults: nat)
    requires Inv(s) && faults <= 2
    ensures var r := Access(s, a, write, faults);
            Inv(r.s) && (Exact(s) ==> Exact(r.s)) && (r.Granted? ==> Grants(r.s, a, write, r.entry))
    decreases 2 - faults
  {
    if Try(s, a, write).Hit? {
      HitIsGranted(s, a, write);
    }
    hide Core, Coherent, Exact, Fault, Try, RoomForTables, CanAllocate, FramesInRange, Grants;
    match Try(s, a, write) {
      case Hit(e) =>
      case Miss(err) =>
        if faults < 2 && Ready(s, a) {
          FaultKeepsInv(s, a, err);
          if Fault(s, a, err).1 == Resolved {
            AccessKeepsInv(Fault(s, a, err).0, a, write, faults + 1);
          }
        }
    }
  }

  // ----- fork -----

  ghost predicate NoEntries(s: State, pid: nat) {
    forall k {:trigger k in s.pte} :: k in s.pte ==> k.pid != pid
  }

  lemma ForkPageKeepsEntries(s: State, child: nat, page: nat)
    requires Core(s) && child in s.mms
    ensures var t := ForkPage(s, child, page); Sized(t) && EntriesOk(t) && FreeZero(t) && TablesOk(t)
  {
    hide Counted, Exclusive, Maps;
    var k := Slot(s.cur, page);
    if k in s.pte {
      assert EntryOk(s, k, s.pte[k]);
    }
  }

  /** Fork's entry is one more mapping of the parent's frame. */
  lemma ForkPageMaps(s: State, child: nat, page: nat)
    requires Core(s) && child != s.cur && Slot(s.cur, page) in s.pte
    ensures var t, f, k := ForkPage(s, child, page), s.pte[Slot(s.cur, page)].frame, Slot(child, page);
            && Maps(t.pte, f) == Maps(s.pte, f) + {k}
            && forall g: nat {:trigger Maps(t.pte, g)} :: g != f ==> Maps(t.pte, g) == Maps(s.pte, g) - {k}
  {
    var k, c := Slot(s.cur, page), Slot(child, page);
    var e := MarkCow(s.pte[k]);
    var m := s.(pte := s.pte[k := e]);
    RegrantKeepsMaps(s, m, k, e);
    var t := ForkPage(s, child, page);
    CountsAfterSet(m, t, c, e);
  }

  lemma ForkPageKeepsExclusive(s: State, child: nat, page: nat)
    requires Core(s) && child != s.cur && Slot(s.cur, page) in s.pte
    ensures Exclusive(ForkPage(s, child, page))
  {
    var t := ForkPage(s, child, page);
    var p, c := Slot(s.cur, page), Slot(child, page);
    ForkPageMaps(s, child, page);
    forall k | k in t.pte && t.pte[k].writable
      ensures Maps(t.pte, t.pte[k].frame) == {k}
    {
      assert k != p && k != c && t.pte[k] == s.pte[k];
      assert p in Maps(s.pte, s.pte[p].frame) && k in Maps(s.pte, s.pte[k].frame);
      if s.pte[k].frame == s.pte[p].frame {
        assert false;
      }
    }
  }

  lemma NewSlotUnmapped(s: State, k: Slot)
    requires k !in s.pte
    ensures forall g: nat {:trigger Maps(s.pte, g)} :: k !in Maps(s.pte, g)
  {
  }

  lemma ForkPageKeepsCore(s: State, child: nat, page: nat)
    requires Core(s) && child in s.mms && child != s.cur
    ensures Core(ForkPage(s, child, page))
    ensures Exact(s) && Slot(child, page) !in s.pte ==> Exact(ForkPage(s, child, page))
  {
    if Slot(s.cur, page) in s.pte {
      assert EntryOk(s, Slot(s.cur, page), s.pte[Slot(s.cur, page)]);
      ForkPageKeepsEntries(s, child, page);
      ForkPageMaps(s, child, page);
      ForkPageKeepsExclusive(s, child, page);
      if Slot(child, page) !in s.pte {
        NewSlotUnmapped(s, Slot(child, page));
      }
      ForkPageCounts(s, child, page);
      hide EntriesOk, FreeZero, TablesOk, EntryOk, Maps, Exclusive, Counted, Exact, ForkPage;
    }
  }

  lemma ForkPageCounts(s: State, child: nat, page: nat)
    requires Core(s) && child != s.cur && Slot(s.cur, page) in s.pte
    requires UserFrame(s, s.pte[Slot(s.cur, page)].frame)
    requires Slot(child, page) !in s.pte ==>
               forall g: nat {:trigger Maps(s.pte, g)} :: Slot(child, page) !in Maps(s.pte, g)
    ensures Counted(ForkPage(s, child, page))
    ensures Exact(s) && Slot(child, page) !in s.pte ==> Exact(ForkPage(s, child, page))
  {
    ForkPageMaps(s, child, page);
    hide EntriesOk, FreeZero, TablesOk, Maps, Exclusive, WithTables;
  }

  lemma {:induction false} ForkLoopKeepsCore(s: State, child: nat, pages: seq<nat>)
    requires Core(s) && child in s.mms && child != s.cur
    ensures Core(ForkLoop(s, child, pages))
    decreases |pages|
  {
    if pages != [] {
      ForkLoopKeepsCore(s, child, pages[..|pages| - 1]);
      ForkPageKeepsCore(ForkLoop(s, child, pages[..|pages| - 1]), child, pages[|pages| - 1]);
    }
  }

  /** What the loops of set_child_pt leave behind: the visited parent entries are marked, and the
      child has a copy of each, whatever order and however often the pages were visited. */
  ghost predicate Forked(s: State, t: State, child: nat, pages: seq<nat>) {
    && (forall k {:trigger k in t.pte} :: k in t.pte <==>
          k in s.pte || (k.pid == child && k.page in pages && Slot(s.cur, k.page) in s.pte))
    && (forall k {:trigger t.pte[k]} :: k in s.pte ==>
          t.pte[k] == if k.pid == s.cur && k.page in pages then MarkCow(s.pte[k]) else s.pte[k])
    && (forall v {:trigger Slot(child, v)} :: v in pages && Slot(s.cur, v) in s.pte ==>
          t.pte[Slot(child, v)] == MarkCow(s.pte[Slot(s.cur, v)]))
  }

  lemma ForkPageExtends(s: State, t: State, child: nat, pages: seq<nat>, v: nat)
    requires FramesInRange(t) && s.cur == t.cur && child != s.cur && NoEntries(s, child)
    requires Forked(s, t, child, pages)
    ensures Forked(s, ForkPage(t, child, v), child, pages + [v])
  {
    var u := ForkPage(t, child, v);
    var k, c := Slot(s.cur, v), Slot(child, v);
    if k in t.pte {
      assert k in s.pte;
      assert u.pte == t.pte[k := MarkCow(t.pte[k])][c := MarkCow(t.pte[k])];
      assert MarkCow(t.pte[k]) == MarkCow(s.pte[k]);
    } else {
      assert k !in s.pte;
    }
  }

  lemma {:induction false} ForkLoopForks(s: State, child: nat, pages: seq<nat>)
    requires FramesInRange(s) && child != s.cur && NoEntries(s, child)
    ensures Forked(s, ForkLoop(s, child, pages), child, pages)
    decreases |pages|
  {
    if pages != [] {
      var front, v := pages[..|pages| - 1], pages[|pages| - 1];
      ForkLoopForks(s, child, front);
      ForkPageExtends(s, ForkLoop(s, child, front), child, front, v);
      assert front + [v] == pages;
    }
  }

  /** No page that the process has mapped occurs twice. */
  ghost predicate MappedOnce(s: State, pages: seq<nat>) {
    forall i, j {:trigger pages[i], pages[j]} :: 0 <= i < j < |pages| && pages[i] == pages[j] ==>
        Slot(s.cur, pages[i]) !in s.pte
  }

  /** If no mapped page is visited twice the reference counts stay exact. */
  lemma {:induction false} ForkLoopKeepsExact(s: State, child: nat, pages: seq<nat>)
    requires Core(s) && Exact(s) && child in s.mms && child != s.cur && NoEntries(s, child)
    requires MappedOnce(s, pages)
    ensures Exact(ForkLoop(s, child, pages))
    decreases |pages|
  {
    if pages != [] {
      var front, v := pages[..|pages| - 1], pages[|pages| - 1];
      ForkLoopKeepsExact(s, child, front);
      ForkLoopKeepsCore(s, child, front);
      ForkLoopForks(s, child, front);
      var t := ForkLoop(s, child, front);
      if Slot(s.cur, v) in t.pte {
        assert Slot(child, v) !in t.pte;
        ForkPageKeepsCore(t, child, v);
      }
    }
  }

  lemma AddProcessKeepsCore(s: State, child: nat, mm: Mm)
    requires Core(s)
    ensures Core(s.(mms := s.mms[child := mm]))
    ensures Exact(s) ==> Exact(s.(mms := s.mms[child := mm]))
  {
  }

  /** Where global_PML4 points is no concern of the invariant. */
  lemma RootKeepsCore(s: State, pid: nat)
    ensures Core(s.(target := pid)) == Core(s) && Exact(s.(target := pid)) == Exact(s)
  {
  }

  lemma ForkKeepsInv(s: State, child: nat)
    requires Core(s) && child !in s.mms
    ensures Inv(Fork(s, child))
    ensures Exact(s) && MappedOnce(s, ForkPages(s.mms[s.cur].vmas)) ==> Exact(Fork(s, child))
  {
    var mm := s.mms[s.cur];
    var t := s.(mms := s.mms[child := mm], target := child);
    AddProcessKeepsCore(s, child, mm);
    RootKeepsCore(s.(mms := s.mms[child := mm]), child);
    ForkLoopKeepsCore(t, child, ForkPages(mm.vmas));
    if Exact(s) && MappedOnce(s, ForkPages(mm.vmas)) {
      forall k | k in s.pte
        ensures k.pid != child
      {
        assert EntryOk(s, k, s.pte[k]);
      }
      ForkLoopKeepsExact(t, child, ForkPages(mm.vmas));
    }
    FlushKeepsCore(ForkLoop(t, child, ForkPages(mm.vmas)));
  }

  // ----- exec, sbrk, switch, reap, store -----

  lemma AddTablesKeepsCore(s: State, page: nat)
    requires Core(s)
    ensures Core(s.(dirs := WithTables(s.dirs, s.cur, page)))
  {
  }

  /** The pages are distinct and the process has none of them mapped. */
  ghost predicate Unmapped(s: State, image: seq<(nat, Page)>) {
    && (forall i {:trigger image[i]} :: 0 <= i < |image| ==> Slot(s.cur, image[i].0) !in s.pte)
    && (forall i, j {:trigger image[i], image[j]} :: 0 <= i < j < |image| ==> image[i].0 != image[j].0)
  }

  lemma UnmappedCons(s: State, image: seq<(nat, Page)>)
    requires image != [] && CanAllocate(s)
    ensures var t := MapFresh(s, image[0].0, image[0].1, true);
            Unmapped(s, image) <==> Slot(s.cur, image[0].0) !in s.pte && Unmapped(t, image[1..])
  {
    var t, rest := MapFresh(s, image[0].0, image[0].1, true), image[1..];
    assert forall i {:trigger rest[i]} :: 0 <= i < |rest| ==> rest[i] == image[i + 1];
    assert forall i {:trigger image[i]} :: 0 < i < |image| ==> image[i] == rest[i - 1];
    forall page: nat
      ensures Slot(s.cur, page) in t.pte <==> Slot(s.cur, page) in s.pte || page == image[0].0
    {
    }
    hide MapFresh;
  }

  /** Exec overwrites entries without decrementing any count: the counts stay upper bounds, and exact
      if no page of the image was mapped. */
  lemma {:induction false} MapImageKeepsCore(s: State, image: seq<(nat, Page)>)
    requires Core(s)
    ensures Core(MapImage(s, image))
    ensures MapImage(s, image).cur == s.cur && MapImage(s, image).mms == s.mms
    ensures Exact(s) && Unmapped(s, image) ==> Exact(MapImage(s, image))
    decreases |image|
  {
    if image != [] && CanAllocate(s) {
      var page, content := image[0].0, image[0].1;
      AddTablesKeepsCore(s, page);
      MapFreshKeepsCore(s.(dirs := WithTables(s.dirs, s.cur, page)), page, content, true);
      var t := MapFresh(s, page, content, true).(dirs := WithTables(s.dirs, s.cur, page));
      assert t == MapFresh(s.(dirs := WithTables(s.dirs, s.cur, page)), page, content, true);
      UnmappedCons(s, image);
      hide Core, Exact, MapFresh, CanAllocate, WithTables;
      MapImageKeepsCore(t, image[1..]);
      assert Unmapped(t, image[1..]) == Unmapped(MapFresh(s, page, content, true), image[1..]);
      ExactIgnoresTables(s, s.(dirs := WithTables(s.dirs, s.cur, page)));
    }
  }

  lemma ExactIgnoresTables(s: State, t: State)
    requires t == s.(dirs := t.dirs)
    ensures Exact(t) == Exact(s)
  {
  }

  lemma SwitchKeepsCore(s: State, pid: nat)
    requires Core(s) && pid in s.mms
    ensures Core(s.(cur := pid)) && Exact(s.(cur := pid)) == Exact(s)
  {
  }

  /** umalloc touches one process's entries only. */
  lemma {:induction false} MapImageOthers(s: State, image: seq<(nat, Page)>, k: Slot)
    requires |s.desc| == |s.data| && FIRST_USER_FRAME <= |s.desc| && k.pid != s.cur
    ensures var t := MapImage(s, image);
            && (k in t.pte <==> k in s.pte) && (k in s.pte ==> t.pte[k] == s.pte[k])
            && t.tlb == s.tlb && t.cur == s.cur && t.mms == s.mms && t.target == s.target
            && |t.desc| == |t.data| && FIRST_USER_FRAME <= |t.desc|
    decreases |image|
  {
    if image != [] && CanAllocate(s) {
      var t := MapFresh(s, image[0].0, image[0].1, true).(dirs := WithTables(s.dirs, s.cur, image[0].0));
      MapImageOthers(t, image[1..], k);
    }
  }

  /** Mapping into another process's tables keeps the invariant, TLB coherence included. */
  lemma MapForKeepsInv(s: State, pid: nat, image: seq<(nat, Page)>)
    requires Inv(s) && pid in s.mms && pid != s.cur
    ensures var t := MapFor(s, pid, image);
            && Inv(t) && t.cur == s.cur && t.mms == s.mms && t.target == s.target
            && (Exact(s) && Unmapped(s.(cur := pid), image) ==> Exact(t))
  {
    var u := s.(cur := pid);
    SwitchKeepsCore(s, pid);
    MapImageKeepsCore(u, image);
    var m := MapImage(u, image);
    SwitchKeepsCore(m, s.cur);
    MapForCoherent(s, pid, image);
    hide Core, Exact, MapImage, Unmapped, Coherent;
  }

  lemma MapForCoherent(s: State, pid: nat, image: seq<(nat, Page)>)
    requires Coherent(s) && pid != s.cur && |s.desc| == |s.data| && FIRST_USER_FRAME <= |s.desc|
    ensures var t := MapFor(s, pid, image); Coherent(t) && t.cur == s.cur && t.mms == s.mms && t.target == s.target
  {
    var u := s.(cur := pid);
    MapImageOthers(u, image, Slot(s.cur, 0));
    hide MapImage;
    forall v: nat | v in s.tlb
      ensures Slot(s.cur, v) in MapImage(u, image).pte && MapImage(u, image).pte[Slot(s.cur, v)] == s.tlb[v]
    {
      MapImageOthers(u, image, Slot(s.cur, v));
    }
  }

  lemma MapElsewhereKeepsInv(s: State, pages: seq<nat>)
    requires Inv(s) && s.target != s.cur
    ensures Inv(MapElsewhere(s, pages))
    ensures Exact(s) && (if s.target in s.mms then Unmapped(s.(cur := s.target), ZeroImage(pages)) else pages == []) ==>
              Exact(MapElsewhere(s, pages))
  {
    if s.target in s.mms {
      MapForKeepsInv(s, s.target, ZeroImage(pages));
    } else {
      var mm := s.mms[s.cur];
      var a := s.(mms := s.mms[s.target := mm]);
      AddProcessKeepsCore(s, s.target, mm);
      assert Inv(a);
      MapForKeepsInv(a, s.target, ZeroImage(pages));
      var t := MapFor(a, s.target, ZeroImage(pages));
      ReapKeepsInv(t, s.target);
      if Exact(s) && pages == [] {
        NoEntriesOutside(s, s.target);
        assert ZeroImage([]) == [] && t.pte == s.pte;
        ReapKeepsExact(t, s.target);
      }
    }
  }

  lemma NoEntriesOutside(s: State, pid: nat)
    requires Core(s) && pid !in s.mms
    ensures NoEntries(s, pid)
  {
    forall k | k in s.pte
      ensures k.pid != pid
    {
      assert EntryOk(s, k, s.pte[k]);
    }
  }

  lemma ReapKeepsInv(s: State, pid: nat)
    requires Inv(s) && pid != s.cur
    ensures Inv(ReapProcess(s, pid))
  {
    var t := ReapProcess(s, pid);
    ReapKeepsEntries(s, pid);
    forall f: nat
      ensures Maps(t.pte, f) <= Maps(s.pte, f) && |Maps(t.pte, f)| <= |Maps(s.pte, f)|
    {
      SubsetSize(Maps(t.pte, f), Maps(s.pte, f));
    }
    forall k | k in t.pte && t.pte[k].writable
      ensures Maps(t.pte, t.pte[k].frame) == {k}
    {
      assert Maps(t.pte, t.pte[k].frame) <= Maps(s.pte, s.pte[k].frame);
    }
    hide EntriesOk, FreeZero, TablesOk, Maps;
    assert Counted(t);
  }

  lemma ReapKeepsEntries(s: State, pid: nat)
    requires Inv(s) && pid != s.cur
    ensures var t := ReapProcess(s, pid);
            Sized(t) && EntriesOk(t) && FreeZero(t) && TablesOk(t) && Coherent(t)
  {
    hide Counted, Exclusive, Maps;
    var t := ReapProcess(s, pid);
    forall k | k in t.pte
      ensures EntryOk(t, k, t.pte[k])
    {
      assert EntryOk(s, k, s.pte[k]);
    }
  }

  lemma ReapKeepsExact(s: State, pid: nat)
    requires Exact(s) && NoEntries(s, pid)
    ensures Exact(ReapProcess(s, pid))
  {
    assert ReapProcess(s, pid).pte == s.pte;
  }

  lemma SubsetSize(a: set<Slot>, b: set<Slot>)
    requires a <= b
    ensures |a| <= |b|
  {
    if a != {} {
      var k :| k in a;
      SubsetSize(a - {k}, b - {k});
    }
  }

  lemma PutKeepsInv(s: State, f: nat, content: Page)
    requires Inv(s) && UserFrame(s, f)
    ensures Inv(s.(data := s.data[f := content]))
    ensures Exact(s) ==> Exact(s.(data := s.data[f := content]))
  {
  }

  lemma CacheKeepsInv(s: State, a: nat, write: bool, e: Pte, cache: bool)
    requires Inv(s) && Grants(s, a, write, e)
    ensures var t := MayCache(s, a / PAGE_SIZE, e, cache); Inv(t) && (Exact(s) ==> Exact(t))
  {
  }

  // ----- steps and runs -----

  /** set_child_pt reads every page's entry through the window without checking the tables above it. */
  ghost predicate ForkTablesPresent(s: State)
    requires s.cur in s.mms
  {
    forall v :: v in ForkPages(s.mms[s.cur].vmas) ==> HasTables(s, s.cur, v)
  }

  /** What a step asks of its caller: fresh pids for fork, live ones for a switch, and for exec that
      global_PML4 points at the caller's root and the tables on the way lie in the direct map; the stack
      page, which comes first, goes through the window instead and needs its tables. */
  ghost predicate Allowed(s: State, step: Step) {
    match step
    case DoFork(child) => child !in s.mms && s.cur in s.mms && ForkTablesPresent(s)
    case Switch(pid) => pid in s.mms
    case Reap(pid) => pid != s.cur
    case DoExec(image, _) =>
      && s.target == s.cur
      && forall i {:trigger image[i]} :: 0 <= i < |image| ==>
           DirectPath(s.high, s.cur, image[i].0) || (i == 0 && HasTables(s, s.cur, image[i].0))
    case MapElse(pages) => s.target != s.cur && forall v :: v in pages ==> DirectPath(s.high, s.target, v)
    case Remap(page, _) => HasTables(s, s.cur, page)
    case _ => true
  }

  /** Steps that keep the counts exact: no mapped page is shared twice, exec replaces no page, and a
      process is reaped only without pages. */
  ghost predicate CountsExactly(s: State, step: Step) {
    match step
    case DoFork(child) => s.cur in s.mms && MappedOnce(s, ForkPages(s.mms[s.cur].vmas))
    case DoExec(image, _) => Unmapped(s, image)
    case Reap(pid) => NoEntries(s, pid)
    case Remap(page, _) => Slot(s.cur, page) !in s.pte
    case MapElse(pages) =>
      if s.target in s.mms then Unmapped(s.(cur := s.target), ZeroImage(pages)) else pages == []
    case _ => true
  }

  lemma InvIsRunnable(s: State)
    requires Core(s)
    ensures Runnable(s)
  {
    forall k | k in s.pte
      ensures s.pte[k].frame < |s.desc|
    {
      assert EntryOk(s, k, s.pte[k]);
    }
  }

  lemma LoadKeepsInv(s: State, a: nat, cache: bool)
    requires Inv(s) && Runnable(s)
    ensures Inv(Next(s, Load(a, cache)).0)
    ensures Exact(s) ==> Exact(Next(s, Load(a, cache)).0)
  {
    hide Inv, Exact, Access, Grants, MayCache;
    AccessKeepsInv(s, a, false, 0);
    var r := Access(s, a, false, 0);
    if r.Granted? {
      CacheKeepsInv(r.s, a, false, r.entry, cache);
    }
  }

  lemma GrantedFrame(t: State, a: nat, write: bool, e: Pte)
    requires Inv(t) && Grants(t, a, write, e)
    ensures UserFrame(t, e.frame) && e.frame < |t.data|
  {
    assert EntryOk(t, Slot(t.cur, a / PAGE_SIZE), e);
  }

  lemma StoreKeepsInv(s: State, a: nat, b: Byte, cache: bool)
    requires Inv(s) && Runnable(s)
    ensures Inv(Next(s, Store(a, b, cache)).0)
    ensures Exact(s) ==> Exact(Next(s, Store(a, b, cache)).0)
  {
    hide Inv, Exact, Access, Grants;
    AccessKeepsInv(s, a, true, 0);
    var r := Access(s, a, true, 0);
    if r.Granted? {
      GrantedFrame(r.s, a, true, r.entry);
      CacheKeepsInv(r.s, a, true, r.entry, cache);
      var f := r.entry.frame;
      PutKeepsInv(MayCache(r.s, a / PAGE_SIZE, r.entry, cache), f, Put(r.s.data[f], a % PAGE_SIZE, b));
    }
  }

  lemma ExecKeepsInv(s: State, image: seq<(nat, Page)>, mm: Mm)
    requires Inv(s) && Runnable(s)
    ensures Inv(Next(s, DoExec(image, mm)).0)
    ensures Exact(s) && Unmapped(s, image) ==> Exact(Next(s, DoExec(image, mm)).0)
  {
    MapImageKeepsCore(s, image);
    hide Core, Exact, MapImage, Unmapped, Coherent;
    AddProcessKeepsCore(MapImage(s, image), s.cur, mm);
    FlushKeepsCore(MapImage(s, image).(mms := s.mms[s.cur := mm]));
  }

  lemma SwitchKeepsInv(s: State, pid: nat)
    requires Inv(s) && pid in s.mms
    ensures var t := s.(cur := pid, tlb := map[]); Inv(t) && (Exact(s) ==> Exact(t))
  {
    SwitchKeepsCore(s, pid);
    FlushKeepsCore(s.(cur := pid));
  }

  lemma RegionsKeepInv(s: State, mm: Mm)
    requires Inv(s)
    ensures var t := s.(mms := s.mms[s.cur := mm]); Inv(t) && (Exact(s) ==> Exact(t))
  {
    AddProcessKeepsCore(s, s.cur, mm);
  }

  lemma RemapUnmapped(s: State, page: nat, content: Page)
    ensures Slot(s.cur, page) !in s.pte ==> Unmapped(s, [(page, content)])
  {
  }

  lemma StepKeepsInv(s: State, step: Step)
    requires Inv(s) && Allowed(s, step) && Runnable(s)
    ensures Inv(Next(s, step).0)
    ensures Exact(s) && CountsExactly(s, step) ==> Exact(Next(s, step).0)
  {
    hide Core, Coherent, Exact, MapImage, Access, ForkPages, Fork, ReapProcess, MapElsewhere, Unmapped, NoEntries,
      MappedOnce, ZeroImage, MayCache, ForkTablesPresent, HasTables, DirectPath;
    match step {
      case Load(a, cache) => LoadKeepsInv(s, a, cache);
      case Store(a, b, cache) => StoreKeepsInv(s, a, b, cache);
      case DoFork(child) => ForkKeepsInv(s, child);
      case Switch(pid) => SwitchKeepsInv(s, pid);
      case DoSbrk(size) =>
        if HEAP < |s.mms[s.cur].vmas| && Sbrk(s.mms[s.cur], size).Grown? {
          RegionsKeepInv(s, Sbrk(s.mms[s.cur], size).mm);
        }
      case DoExec(image, mm) => ExecKeepsInv(s, image, mm);
      case Reap(pid) =>
        ReapKeepsInv(s, pid);
        if Exact(s) && NoEntries(s, pid) {
          ReapKeepsExact(s, pid);
        }
      case Remap(page, content) =>
        MapImageKeepsCore(s, [(page, content)]);
        FlushKeepsCore(MapImage(s, [(page, content)]));
        RemapUnmapped(s, page, content);
      case MapElse(pages) => MapElsewhereKeepsInv(s, pages);
      case SetRegions(mm) => RegionsKeepInv(s, mm);
    }
  }

  ghost predicate AllAllowed(s: State, steps: seq<Step>)
    decreases |steps|
  {
    steps == [] || (Allowed(s, steps[0]) && (Runnable(s) ==> AllAllowed(Next(s, steps[0]).0, steps[1..])))
  }

  ghost predicate AllCountExactly(s: State, steps: seq<Step>)
    decreases |steps|
  {
    steps == [] || (CountsExactly(s, steps[0]) && (Runnable(s) ==> AllCountExactly(Next(s, steps[0]).0, steps[1..])))
  }

  /** Safety over whole runs, exec, exit and reaping included. */
  lemma {:induction false} RunKeepsInv(s: State, steps: seq<Step>)
    requires Inv(s) && AllAllowed(s, steps)
    ensures Inv(Run(s, steps))
    ensures Exact(s) && AllCountExactly(s, steps) ==> Exact(Run(s, steps))
    decreases |steps|
  {
    if steps != [] {
      InvIsRunnable(s);
      StepKeepsInv(s, steps[0]);
      RunKeepsInv(Next(s, steps[0]).0, steps[1..]);
    }
  }

  /** Write exclusivity in every reachable state: two processes, or two pages of one process, never
      share a frame that either may write. */
  lemma WritersAreAlone(s: State, steps: seq<Step>, k: Slot, m: Slot)
    requires Inv(s) && AllAllowed(s, steps)
    ensures var t := Run(s, steps);
            k in t.pte && m in t.pte && k != m && t.pte[k].frame == t.pte[m].frame ==>
              !t.pte[k].writable && !t.pte[m].writable
  {
    RunKeepsInv(s, steps);
    var t := Run(s, steps);
    if k in t.pte && m in t.pte && k != m && t.pte[k].frame == t.pte[m].frame {
      assert k in Maps(t.pte, t.pte[k].frame) && m in Maps(t.pte, t.pte[k].frame);
    }
  }
}
