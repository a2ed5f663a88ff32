/** Reference counting over every run. The surplus of a state is what the counts promise beyond the mappings
    that exist; each step adds to it exactly the references it forgets. */
module CowCounts {
  import opened Addresses
  import opened Options
  import opened CowModel
  import opened CowSafety
  import opened CowTransparency
  import opened CowLimits

  // ----- the sum of the counts -----

  /** The mappings that frame f's descriptor promises; table frames and free frames promise none. */
  ghost function Weight(s: State, f: nat): int {
    if UserFrame(s, f) then s.desc[f].refCount + 1 else 0
  }

  /** The sum of ref_count + 1 over the data frames below n. */
  ghost function SumRefs(s: State, n: nat): int {
    if n == 0 then 0 else SumRefs(s, n - 1) + Weight(s, n - 1)
  }

  ghost function MapsBelow(pte: map<Slot, Pte>, n: nat): set<Slot> {
    set k | k in pte && pte[k].frame < n
  }

  /** How many more mappings the counts promise than there are. */
  ghost function Surplus(s: State): int {
    SumRefs(s, |s.desc|) - |s.pte|
  }

  ghost predicate ExactBelow(s: State, n: nat) {
    forall f: nat {:trigger UserFrame(s, f)} {:trigger Maps(s.pte, f)} :: f < n && UserFrame(s, f) ==>
        |Maps(s.pte, f)| == s.desc[f].refCount + 1
  }

  lemma FrameCounts(s: State, f: nat)
    requires Core(s)
    ensures Weight(s, f) >= |Maps(s.pte, f)|
    ensures Weight(s, f) == |Maps(s.pte, f)| <==> (UserFrame(s, f) ==> |Maps(s.pte, f)| == s.desc[f].refCount + 1)
  {
    if !UserFrame(s, f) {
      UnmappedFrame(s, f);
    }
  }

  lemma MapsBelowNext(pte: map<Slot, Pte>, f: nat)
    ensures |MapsBelow(pte, f + 1)| == |MapsBelow(pte, f)| + |Maps(pte, f)|
  {
    assert MapsBelow(pte, f + 1) == MapsBelow(pte, f) + Maps(pte, f);
    assert MapsBelow(pte, f) !! Maps(pte, f);
  }

  lemma {:induction false} SumRefsCounts(s: State, n: nat)
    requires Core(s) && n <= |s.desc|
    ensures SumRefs(s, n) >= |MapsBelow(s.pte, n)|
    ensures SumRefs(s, n) == |MapsBelow(s.pte, n)| <==> ExactBelow(s, n)
  {
    hide Core, UserFrame, Maps, Weight;
    if n == 0 {
      assert MapsBelow(s.pte, 0) == {};
    } else {
      hide MapsBelow;
      SumRefsCounts(s, n - 1);
      FrameCounts(s, n - 1);
      MapsBelowNext(s.pte, n - 1);
    }
  }

  /** The counts never promise too little, and they are exact if and only if the sum of ref_count + 1 over
      the data frames is the number of user mappings. */
  lemma ExactIffNoSurplus(s: State)
    requires Core(s)
    ensures Surplus(s) >= 0
    ensures Exact(s) <==> Surplus(s) == 0
  {
    SumRefsCounts(s, |s.desc|);
    InvIsRunnable(s);
    assert MapsBelow(s.pte, |s.desc|) == s.pte.Keys;
    assert Exact(s) <==> ExactBelow(s, |s.desc|);
  }

  // ----- what changes the sum -----

  /** Two states that differ at frame f's descriptor at most. */
  ghost predicate SameElsewhere(s: State, t: State, f: nat) {
    |t.desc| == |s.desc| && forall g: nat {:trigger Weight(t, g)} :: g != f ==> Weight(t, g) == Weight(s, g)
  }

  lemma {:induction false} SumRefsPoint(s: State, t: State, f: nat, n: nat)
    requires SameElsewhere(s, t, f)
    ensures SumRefs(t, n) - SumRefs(s, n) == if f < n then Weight(t, f) - Weight(s, f) else 0
  {
    hide Weight;
    if n > 0 {
      SumRefsPoint(s, t, f, n - 1);
    }
  }

  lemma SurplusPoint(s: State, t: State, f: nat)
    requires SameElsewhere(s, t, f) && f < |s.desc|
    ensures Surplus(t) == Surplus(s) + Weight(t, f) - Weight(s, f) - (|t.pte| - |s.pte|)
  {
    SumRefsPoint(s, t, f, |s.desc|);
  }

  /** The process table, the page contents, the TLB and the upper-level entries have no part in it. */
  lemma SameSurplus(s: State, t: State)
    requires t.desc == s.desc && t.tableFrames == s.tableFrames && t.pte == s.pte
    ensures Surplus(t) == Surplus(s)
  {
    SumRefsPoint(s, t, |s.desc|, |s.desc|);
  }

  lemma EnsureTableSurplus(s: State, level: nat, page: nat)
    requires Core(s) && CanAllocate(s)
    ensures Surplus(EnsureTable(s, level, page)) == Surplus(s)
  {
    AllocationFacts(s);
    var t := EnsureTable(s, level, page);
    hide Core;
    if t != s {
      SurplusPoint(s, t, NextFrame(s));
    }
  }

  lemma MapFreshSurplus(s: State, page: nat, content: Page, writable: bool)
    requires Core(s) && CanAllocate(s)
    ensures Surplus(MapFresh(s, page, content, writable)) ==
            Surplus(s) + (if Slot(s.cur, page) in s.pte then 1 else 0)
  {
    AllocationFacts(s);
    hide Core;
    SurplusPoint(s, MapFresh(s, page, content, writable), NextFrame(s));
  }

  lemma DemandPageSurplus(s: State, page: nat, writable: bool)
    requires Core(s) && RoomForTables(s, page)
    ensures Surplus(DemandPage(s, page, writable)) == Surplus(s)
  {
    EnsureTableKeepsCore(s, 4, page);
    EnsureTableSurplus(s, 4, page);
    var t1 := EnsureTable(s, 4, page);
    EnsureTableKeepsCore(t1, 3, page);
    EnsureTableSurplus(t1, 3, page);
    var t2 := EnsureTable(t1, 3, page);
    EnsureTableKeepsCore(t2, 2, page);
    EnsureTableSurplus(t2, 2, page);
    hide Core, EnsureTable, MapFresh, Surplus;
    if Slot(s.cur, page) !in s.pte {
      MapFreshSurplus(EnsureTables(s, page), page, ZERO_PAGE, writable);
    }
  }

  /** Breaking copy-on-write moves a reference, at most, from one frame to another. */
  lemma BreakCowSurplus(s: State, page: nat)
    requires Core(s) && CanAllocate(s) && Slot(s.cur, page) in s.pte
    ensures s.pte[Slot(s.cur, page)].frame < |s.desc| && Surplus(BreakCow(s, page)) == Surplus(s)
  {
    var k := Slot(s.cur, page);
    var src, t := s.pte[k].frame, BreakCow(s, page);
    assert EntryOk(s, k, s.pte[k]);
    AllocationFacts(s);
    MapFreshSurplus(s, page, s.data[src], true);
    hide Core, EntryOk;
    if s.desc[src].refCount == 0 {
      SurplusPoint(s, t, src);
    } else {
      SurplusPoint(MapFresh(s, page, s.data[src], true), t, src);
    }
  }

  lemma FaultSurplus(s: State, a: nat, err: PfErr)
    requires Core(s) && Ready(s, a)
    ensures Surplus(Fault(s, a, err).0) == Surplus(s)
  {
    var page := a / PAGE_SIZE;
    SameSurplus(s, Flush(s));
    match InVma(s.mms[s.cur].vmas, a) {
      case None =>
      case Some(vma) =>
        if !err.present {
          DemandPageSurplus(s, page, vma.writable);
          SameSurplus(DemandPage(s, page, vma.writable), Flush(DemandPage(s, page, vma.writable)));
        } else if err.write && vma.writable && Slot(s.cur, page) in s.pte && s.pte[Slot(s.cur, page)].cow {
          BreakCowSurplus(s, page);
          SameSurplus(BreakCow(s, page), Flush(BreakCow(s, page)));
        }
    }
  }

  lemma {:induction false} AccessSurplus(s: State, a: nat, write: bool, faults: nat)
    requires Inv(s) && faults <= 2
    ensures Surplus(Access(s, a, write, faults).s) == Surplus(s)
    decreases 2 - faults
  {
    match Try(s, a, write) {
      case Hit(e) =>
      case Miss(err) =>
        if faults < 2 && Ready(s, a) {
          FaultKeepsInv(s, a, err);
          FaultSurplus(s, a, err);
          hide Fault, Inv, Surplus;
          if Fault(s, a, err).1 == Resolved {
            AccessSurplus(Fault(s, a, err).0, a, write, faults + 1);
          }
        }
    }
  }

  // ----- fork -----

  /** The visits that share a mapped page again: each raises a count that has no new mapping. */
  function Repeats(s: State, pages: seq<nat>): nat {
    if pages == [] then 0
    else
      var front, v := pages[..|pages| - 1], pages[|pages| - 1];
      Repeats(s, front) + (if Slot(s.cur, v) in s.pte && v in front then 1 else 0)
  }

  lemma {:induction false} NoRepeatsIff(s: State, pages: seq<nat>)
    ensures Repeats(s, pages) == 0 <==> MappedOnce(s, pages)
    decreases |pages|
  {
    if pages != [] {
      var front, v := pages[..|pages| - 1], pages[|pages| - 1];
      NoRepeatsIff(s, front);
      if v in front {
        var i :| 0 <= i < |front| && front[i] == v;
        assert pages[i] == pages[|pages| - 1];
      }
      assert forall i {:trigger front[i]} :: 0 <= i < |front| ==> front[i] == pages[i];
    }
  }

  lemma ForkPageSurplus(s: State, child: nat, page: nat)
    requires Core(s) && child != s.cur
    ensures Surplus(ForkPage(s, child, page)) ==
            Surplus(s) + (if Slot(s.cur, page) in s.pte && Slot(child, page) in s.pte then 1 else 0)
  {
    var k := Slot(s.cur, page);
    if k in s.pte {
      assert EntryOk(s, k, s.pte[k]);
      hide Core, EntryOk;
      SurplusPoint(s, ForkPage(s, child, page), s.pte[k].frame);
    }
  }

  lemma {:induction false} ForkLoopSurplus(s: State, child: nat, pages: seq<nat>)
    requires Core(s) && child in s.mms && child != s.cur && NoEntries(s, child)
    ensures Surplus(ForkLoop(s, child, pages)) == Surplus(s) + Repeats(s, pages)
    decreases |pages|
  {
    if pages != [] {
      var front, v := pages[..|pages| - 1], pages[|pages| - 1];
      ForkLoopSurplus(s, child, front);
      ForkLoopKeepsCore(s, child, front);
      ForkLoopForks(s, child, front);
      var t := ForkLoop(s, child, front);
      ForkPageSurplus(t, child, v);
      hide Core, Surplus, NoEntries;
      assert Slot(child, v) in t.pte <==> Slot(child, v) in s.pte || (v in front && Slot(s.cur, v) in s.pte);
    }
  }

  lemma ForkSurplus(s: State, child: nat)
    requires Core(s) && child !in s.mms
    ensures FramesInRange(s) && Surplus(Fork(s, child)) == Surplus(s) + Repeats(s, ForkPages(s.mms[s.cur].vmas))
  {
    InvIsRunnable(s);
    var mm := s.mms[s.cur];
    var t := s.(mms := s.mms[child := mm], target := child);
    NoEntriesOutside(s, child);
    AddProcessKeepsCore(s, child, mm);
    RootKeepsCore(s.(mms := s.mms[child := mm]), child);
    ForkLoopSurplus(t, child, ForkPages(mm.vmas));
    SameRepeats(s, t, ForkPages(mm.vmas));
    SameSurplus(s, t);
    SameSurplus(ForkLoop(t, child, ForkPages(mm.vmas)), Fork(s, child));
  }

  lemma {:induction false} SameRepeats(s: State, t: State, pages: seq<nat>)
    requires t.cur == s.cur && t.pte == s.pte
    ensures Repeats(t, pages) == Repeats(s, pages)
    decreases |pages|
  {
    if pages != [] {
      SameRepeats(s, t, pages[..|pages| - 1]);
    }
  }

  /** Fork keeps the counts exact if and only if it visits no mapped page twice. */
  lemma ForkKeepsExactIff(s: State, child: nat)
    requires Core(s) && Exact(s) && child !in s.mms
    ensures Exact(Fork(s, child)) <==> MappedOnce(s, ForkPages(s.mms[s.cur].vmas))
  {
    ForkKeepsInv(s, child);
    ForkSurplus(s, child);
    NoRepeatsIff(s, ForkPages(s.mms[s.cur].vmas));
    ExactIffNoSurplus(s);
    ExactIffNoSurplus(Fork(s, child));
  }

  // ----- fork, region by region -----

  ghost predicate Once(pages: seq<nat>, x: nat) {
    forall i, j {:trigger pages[i], pages[j]} :: 0 <= i < j < |pages| && pages[i] == x ==> pages[j] != x
  }

  /** No two regions of the chain visit the page. */
  ghost predicate VisitedOnce(vmas: seq<Vma>, x: nat) {
    forall i, j {:trigger Visits(vmas, i, x), Visits(vmas, j, x)} :: 0 <= i < j < |vmas| ==>
      !(Visits(vmas, i, x) && Visits(vmas, j, x))
  }

  lemma {:induction false} RangeOnce(from: nat, limit: nat, x: nat)
    ensures Once(PageRange(from, limit), x)
    decreases limit
  {
    if from < limit {
      RangeOnce(from, limit - 1, x);
      var front := PageRange(from, limit - 1);
      assert forall i {:trigger front[i]} :: 0 <= i < |front| ==> front[i] in front;
    }
  }

  lemma OnceConcat(a: seq<nat>, b: seq<nat>, x: nat)
    requires Once(a, x)
    ensures Once(a + b, x) <==> Once(b, x) && !(x in a && x in b)
  {
    var c := a + b;
    assert forall j {:trigger b[j]} :: 0 <= j < |b| ==> c[|a| + j] == b[j];
    assert forall j {:trigger a[j]} :: 0 <= j < |a| ==> c[j] == a[j];
    if !Once(c, x) {
      var i, j :| 0 <= i < j < |c| && c[i] == x && c[j] == x;
      if |a| <= i {
        assert b[i - |a|] == x && b[j - |a|] == x;
      } else if |a| <= j {
        assert a[i] == x && b[j - |a|] == x;
      }
    }
    if x in a && x in b {
      var i, j :| 0 <= i < |a| && a[i] == x && 0 <= j < |b| && b[j] == x;
      assert c[i] == x && c[|a| + j] == x;
    }
  }

  lemma VisitedOnceCons(vmas: seq<Vma>, x: nat)
    requires vmas != []
    ensures VisitedOnce(vmas, x) <==> VisitedOnce(vmas[1..], x) && !(Visits(vmas, 0, x) && x in ForkPages(vmas[1..]))
  {
    var rest := vmas[1..];
    InForkPages(rest, x);
    hide ForkPages;
    assert forall i: nat {:trigger Visits(rest, i, x)} :: i < |rest| ==> Visits(rest, i, x) == Visits(vmas, i + 1, x);
    assert forall i {:trigger Visits(vmas, i, x)} :: 0 < i < |vmas| ==> Visits(vmas, i, x) == Visits(rest, i - 1, x);
    hide Visits;
    if !VisitedOnce(rest, x) {
      var i, j :| 0 <= i < j < |rest| && Visits(rest, i, x) && Visits(rest, j, x);
      assert Visits(vmas, i + 1, x) && Visits(vmas, j + 1, x);
    }
  }

  lemma {:induction false} OnceIffVisitedOnce(vmas: seq<Vma>, x: nat)
    ensures Once(ForkPages(vmas), x) <==> VisitedOnce(vmas, x)
    decreases |vmas|
  {
    if vmas != [] {
      var from, limit := vmas[0].start / PAGE_SIZE, PageLimit(vmas[0], |vmas| == 1);
      OnceIffVisitedOnce(vmas[1..], x);
      RangeOnce(from, limit, x);
      assert ForkPages(vmas) == PageRange(from, limit) + ForkPages(vmas[1..]);
      OnceConcat(PageRange(from, limit), ForkPages(vmas[1..]), x);
      VisitedOnceCons(vmas, x);
      assert x in PageRange(from, limit) <==> Visits(vmas, 0, x);
      hide Once, VisitedOnce, PageRange, ForkPages, PageLimit;
    }
  }

  /** The same in terms of regions: the rounded ranges of two regions share no page that is mapped. */
  lemma ForkKeepsExactIffRegions(s: State, child: nat)
    requires Core(s) && Exact(s) && child !in s.mms
    ensures Exact(Fork(s, child)) <==>
            forall x: nat {:trigger VisitedOnce(s.mms[s.cur].vmas, x)} ::
              Slot(s.cur, x) in s.pte ==> VisitedOnce(s.mms[s.cur].vmas, x)
  {
    var pages, vmas := ForkPages(s.mms[s.cur].vmas), s.mms[s.cur].vmas;
    ForkKeepsExactIff(s, child);
    forall x: nat
      ensures Once(pages, x) <==> VisitedOnce(vmas, x)
    {
      OnceIffVisitedOnce(vmas, x);
    }
    hide VisitedOnce, Core, Exact, ForkPages, Fork;
    if MappedOnce(s, pages) {
      forall x: nat | Slot(s.cur, x) in s.pte
        ensures Once(pages, x)
      {
      }
    } else {
      var i, j :| 0 <= i < j < |pages| && pages[i] == pages[j] && Slot(s.cur, pages[i]) in s.pte;
      assert !Once(pages, pages[i]);
    }
  }

  // ----- exec -----

  /** The pages of an image that already have an entry when their turn comes. */
  function Replaced(mapped: set<Slot>, pid: nat, image: seq<(nat, Page)>): nat
    decreases |image|
  {
    if image == [] then 0
    else
      var k := Slot(pid, image[0].0);
      (if k in mapped then 1 else 0) + Replaced(mapped + {k}, pid, image[1..])
  }

  lemma {:induction false} NoneReplacedIff(s: State, image: seq<(nat, Page)>)
    requires Core(s) && |FreeFrames(s.desc)| >= |image|
    ensures Replaced(s.pte.Keys, s.cur, image) == 0 <==> Unmapped(s, image)
    decreases |image|
  {
    if image != [] {
      AllocationCount(s);
      UnmappedCons(s, image);
      OneRound(s, image[0].0, image[0].1);
      var m := MapFresh(s, image[0].0, image[0].1, true);
      var t := m.(dirs := WithTables(s.dirs, s.cur, image[0].0));
      assert t.pte.Keys == s.pte.Keys + {Slot(s.cur, image[0].0)};
      assert Unmapped(t, image[1..]) == Unmapped(m, image[1..]);
      hide Core, FreeFrames, MapFresh, Unmapped;
      NoneReplacedIff(t, image[1..]);
    }
  }

  /** One page of an image. */
  lemma OneRound(s: State, page: nat, content: Page)
    requires Core(s) && CanAllocate(s)
    ensures var t := MapFresh(s, page, content, true).(dirs := WithTables(s.dirs, s.cur, page));
            && Core(t) && t.cur == s.cur && t.pte.Keys == s.pte.Keys + {Slot(s.cur, page)}
            && Surplus(t) == Surplus(s) + (if Slot(s.cur, page) in s.pte then 1 else 0)
            && |FreeFrames(t.desc)| == |FreeFrames(s.desc)| - 1
  {
    AddTablesKeepsCore(s, page);
    var d := s.(dirs := WithTables(s.dirs, s.cur, page));
    MapFreshKeepsCore(d, page, content, true);
    var m := MapFresh(s, page, content, true);
    var t := m.(dirs := WithTables(s.dirs, s.cur, page));
    assert t == MapFresh(d, page, content, true);
    MapFreshSurplus(s, page, content, true);
    SameSurplus(m, t);
    assert NextFrame(s) in FreeFrames(s.desc);
    AllocationCount(s);
  }

  lemma {:induction false} ImageSurplus(s: State, image: seq<(nat, Page)>)
    requires Core(s) && |FreeFrames(s.desc)| >= |image|
    ensures Surplus(MapImage(s, image)) == Surplus(s) + Replaced(s.pte.Keys, s.cur, image)
    decreases |image|
  {
    if image != [] {
      AllocationCount(s);
      OneRound(s, image[0].0, image[0].1);
      var t := MapFresh(s, image[0].0, image[0].1, true).(dirs := WithTables(s.dirs, s.cur, image[0].0));
      assert MapImage(s, image) == MapImage(t, image[1..]);
      hide Core, FreeFrames, MapFresh, Surplus, MapImage;
      ImageSurplus(t, image[1..]);
    }
  }

  /** Exec keeps the counts exact if and only if its pages are distinct and none was mapped. */
  lemma ExecKeepsExactIff(s: State, image: seq<(nat, Page)>)
    requires Core(s) && Exact(s) && |FreeFrames(s.desc)| >= |image|
    ensures Exact(MapImage(s, image)) <==> Unmapped(s, image)
  {
    MapImageKeepsCore(s, image);
    ImageSurplus(s, image);
    NoneReplacedIff(s, image);
    ExactIffNoSurplus(s);
    ExactIffNoSurplus(MapImage(s, image));
  }

  /** An exec whose umalloc edits another process's tables: a living one's entries are overwritten, a reaped
      one's mappings count for nothing. */
  lemma ElsewhereSurplus(s: State, pages: seq<nat>)
    requires Inv(s) && s.target != s.cur && |FreeFrames(s.desc)| >= |pages|
    ensures Surplus(MapElsewhere(s, pages)) == Surplus(s) + Lost(s, pages)
  {
    var pid, image := s.target, ZeroImage(pages);
    if pid in s.mms {
      SwitchKeepsCore(s, pid);
      ImageSurplus(s.(cur := pid), image);
      SameSurplus(s, s.(cur := pid));
      SameSurplus(MapImage(s.(cur := pid), image), MapElsewhere(s, pages));
    } else {
      var a := s.(mms := s.mms[pid := s.mms[s.cur]]);
      AddProcessKeepsCore(s, pid, s.mms[s.cur]);
      SwitchKeepsCore(a, pid);
      NoEntriesOutside(s, pid);
      var u := a.(cur := pid);
      ImageSurplus(u, image);
      SameSurplus(s, u);
      var m := MapFor(a, pid, image);
      SameSurplus(MapImage(u, image), m);
      ReapSurplus(m, pid);
      OwnedAfter(u, image);
      assert Owned(s.pte.Keys, pid) == {};
      hide Inv, MapImage, Surplus;
    }
  }

  lemma {:induction false} OwnedAfter(s: State, image: seq<(nat, Page)>)
    requires Core(s) && |FreeFrames(s.desc)| >= |image|
    ensures |Owned(MapImage(s, image).pte.Keys, s.cur)| + Replaced(s.pte.Keys, s.cur, image) ==
            |Owned(s.pte.Keys, s.cur)| + |image|
    decreases |image|
  {
    if image != [] {
      AllocationCount(s);
      var k := Slot(s.cur, image[0].0);
      OneRound(s, image[0].0, image[0].1);
      var t := MapFresh(s, image[0].0, image[0].1, true).(dirs := WithTables(s.dirs, s.cur, image[0].0));
      assert MapImage(s, image) == MapImage(t, image[1..]);
      hide *;
      OwnedAfter(t, image[1..]);
      OwnedGrows(s.pte.Keys, k);
      ReplacedFront(s.pte.Keys, s.cur, image);
    }
  }

  lemma OwnedGrows(keys: set<Slot>, k: Slot)
    ensures |Owned(keys + {k}, k.pid)| == |Owned(keys, k.pid)| + (if k in keys then 0 else 1)
  {
    if k in keys {
      assert keys + {k} == keys;
    } else {
      assert Owned(keys + {k}, k.pid) == Owned(keys, k.pid) + {k};
    }
  }

  lemma ReplacedFront(mapped: set<Slot>, pid: nat, image: seq<(nat, Page)>)
    requires image != []
    ensures var k := Slot(pid, image[0].0);
            Replaced(mapped, pid, image) == (if k in mapped then 1 else 0) + Replaced(mapped + {k}, pid, image[1..])
  {
  }

  // ----- reaping -----

  function Owned(keys: set<Slot>, pid: nat): set<Slot> {
    set k | k in keys && k.pid == pid
  }

  lemma ReapSurplus(s: State, pid: nat)
    ensures Surplus(ReapProcess(s, pid)) == Surplus(s) + |Owned(s.pte.Keys, pid)|
  {
    var t := ReapProcess(s, pid);
    SumRefsPoint(s, t, |s.desc|, |s.desc|);
    assert s.pte.Keys == t.pte.Keys + Owned(s.pte.Keys, pid) && t.pte.Keys !! Owned(s.pte.Keys, pid);
    assert |t.pte| == |t.pte.Keys|;
  }

  /** Reaping keeps the counts exact if and only if the process had no page. */
  lemma ReapKeepsExactIff(s: State, pid: nat)
    requires Inv(s) && Exact(s) && pid != s.cur
    ensures Exact(ReapProcess(s, pid)) <==> NoEntries(s, pid)
  {
    ReapKeepsInv(s, pid);
    ReapSurplus(s, pid);
    ExactIffNoSurplus(s);
    ExactIffNoSurplus(ReapProcess(s, pid));
    NobodysEntries(s, pid);
  }

  lemma NobodysEntries(s: State, pid: nat)
    ensures |Owned(s.pte.Keys, pid)| == 0 <==> NoEntries(s, pid)
  {
    assert |Owned(s.pte.Keys, pid)| == 0 <==> Owned(s.pte.Keys, pid) == {};
    assert forall k :: k in Owned(s.pte.Keys, pid) <==> k in s.pte && k.pid == pid;
  }

  // ----- any step, any run -----

  function Lost(s: State, pages: seq<nat>): nat {
    if s.target in s.mms then Replaced(s.pte.Keys, s.target, ZeroImage(pages)) else |pages|
  }

  /** The references a step forgets: the mapped pages that fork visits again, the entries that exec
      overwrites, the entries of a reaped process, and the frames mapped for one that is gone. */
  function Forgets(s: State, step: Step): nat
    requires s.cur in s.mms
  {
    match step
    case DoFork(child) => Repeats(s, ForkPages(s.mms[s.cur].vmas))
    case DoExec(image, _) => Replaced(s.pte.Keys, s.cur, image)
    case Remap(page, content) => Replaced(s.pte.Keys, s.cur, [(page, content)])
    case MapElse(pages) => Lost(s, pages)
    case Reap(pid) => |Owned(s.pte.Keys, pid)|
    case _ => 0
  }

  /** A free frame for each page that exec maps. */
  ghost predicate Roomy(s: State, step: Step) {
    match step
    case DoExec(image, _) => |FreeFrames(s.desc)| >= |image|
    case Remap(_, _) => |FreeFrames(s.desc)| >= 1
    case MapElse(pages) => |FreeFrames(s.desc)| >= |pages|
    case _ => true
  }

  /** Every step adds to the surplus exactly the references it forgets. */
  lemma StepSurplus(s: State, step: Step)
    requires Inv(s) && Allowed(s, step) && Roomy(s, step) && Runnable(s)
    ensures Surplus(Next(s, step).0) == Surplus(s) + Forgets(s, step)
  {
    hide Inv, Surplus, Fork, Access, MapImage, ReapProcess, MapElsewhere, Sbrk, FreeFrames, DirectPath, HasTables,
      ForkTablesPresent, FramesInRange;
    assert Core(s) by {
      CoreOfInv(s);
    }
    match step {
      case Load(a, cache) =>
        AccessSurplus(s, a, false, 0);
        var r := Access(s, a, false, 0);
        SameSurplus(r.s, Next(s, step).0);
      case Store(a, b, cache) =>
        AccessSurplus(s, a, true, 0);
        var r := Access(s, a, true, 0);
        SameSurplus(r.s, Next(s, step).0);
      case DoFork(child) =>
        ForkSurplus(s, child);
      case DoExec(image, mm) =>
        ImageSurplus(s, image);
        SameSurplus(MapImage(s, image), Next(s, step).0);
      case Reap(pid) =>
        ReapSurplus(s, pid);
      case Remap(page, content) =>
        ImageSurplus(s, [(page, content)]);
        SameSurplus(MapImage(s, [(page, content)]), Next(s, step).0);
      case MapElse(pages) =>
        ElsewhereSurplus(s, pages);
      case _ =>
        SameSurplus(s, Next(s, step).0);
    }
  }

  /** Every step of the machine keeps exact counts exact if and only if CountsExactly says so. */
  lemma StepKeepsExactIff(s: State, step: Step)
    requires Inv(s) && Exact(s) && Allowed(s, step) && Roomy(s, step) && Runnable(s)
    ensures Exact(Next(s, step).0) <==> CountsExactly(s, step)
  {
    StepKeepsInv(s, step);
    StepSurplus(s, step);
    ExactIffNoSurplus(s);
    ExactIffNoSurplus(Next(s, step).0);
    ForgetsNothingIff(s, step);
  }

  lemma ForgetsNothingIff(s: State, step: Step)
    requires Inv(s) && Roomy(s, step)
    ensures Forgets(s, step) == 0 <==> CountsExactly(s, step)
  {
    match step {
      case DoFork(child) =>
        NoRepeatsIff(s, ForkPages(s.mms[s.cur].vmas));
      case DoExec(image, _) =>
        NoneReplacedIff(s, image);
      case Reap(pid) =>
        NobodysEntries(s, pid);
      case Remap(page, content) =>
        NoneReplacedIff(s, [(page, content)]);
      case MapElse(pages) =>
        if s.target in s.mms {
          SwitchKeepsCore(s, s.target);
          NoneReplacedIff(s.(cur := s.target), ZeroImage(pages));
        }
      case _ =>
    }
  }

  ghost predicate AllRoomy(s: State, steps: seq<Step>)
    decreases |steps|
  {
    steps == [] || (Roomy(s, steps[0]) && (Runnable(s) ==> AllRoomy(Next(s, steps[0]).0, steps[1..])))
  }

  /** The references forgotten along a run. */
  function Forgotten(s: State, steps: seq<Step>): nat
    decreases |steps|
  {
    if steps == [] || !Runnable(s) then 0
    else Forgets(s, steps[0]) + Forgotten(Next(s, steps[0]).0, steps[1..])
  }

  lemma {:induction false} RunSurplus(s: State, steps: seq<Step>)
    requires Inv(s) && AllAllowed(s, steps) && AllRoomy(s, steps)
    ensures Surplus(Run(s, steps)) == Surplus(s) + Forgotten(s, steps)
    decreases |steps|
  {
    if steps != [] {
      InvIsRunnable(s);
      StepKeepsInv(s, steps[0]);
      StepSurplus(s, steps[0]);
      hide Inv, Allowed, Roomy, Surplus, Next, Runnable, Forgets;
      RunSurplus(Next(s, steps[0]).0, steps[1..]);
    }
  }

  /** Reference conservation over every run from exact counts: they add up to the user mappings of all
      processes together plus the references the steps have forgotten, and are exact again exactly if
      nothing was forgotten. */
  lemma ReferencesConserved(s: State, steps: seq<Step>)
    requires Inv(s) && Exact(s) && AllAllowed(s, steps) && AllRoomy(s, steps)
    ensures var t := Run(s, steps);
            && SumRefs(t, |t.desc|) == |t.pte| + Forgotten(s, steps)
            && (Exact(t) <==> Forgotten(s, steps) == 0)
  {
    RunKeepsInv(s, steps);
    RunSurplus(s, steps);
    ExactIffNoSurplus(s);
    ExactIffNoSurplus(Run(s, steps));
  }
}
