/** Copy-on-write is invisible: user programs observe what they would observe if fork copied every
    page of the parent's regions into private, zero-filled memory. */
module CowTransparency {
  import opened Addresses
  import opened Options
  import opened CowModel
  import opened CowSafety

  // ----- the machine fork is meant to be -----

  /** Private memory: one page per process and virtual page, zero where nothing was written. */
  datatype Eager = Eager(cur: nat, mms: map<nat, Mm>, mem: map<Slot, Page>)

  function PageOf(e: Eager, k: Slot): Page {
    if k in e.mem then e.mem[k] else ZERO_PAGE
  }

  function CopyPages(mem: map<Slot, Page>, from: nat, child: nat, pages: seq<nat>): map<Slot, Page> {
    map v | v in pages && Slot(from, v) in mem :: Slot(child, v) := mem[Slot(from, v)]
  }

  function WithImage(mem: map<Slot, Page>, pid: nat, image: seq<(nat, Page)>): map<Slot, Page>
    decreases |image|
  {
    if image == [] then mem else WithImage(mem[Slot(pid, image[0].0) := image[0].1], pid, image[1..])
  }

  function WithoutProcess(mem: map<Slot, Page>, pid: nat): map<Slot, Page> {
    map k | k in mem && k.pid != pid :: mem[k]
  }

  function EagerNext(e: Eager, step: Step): (Eager, Obs)
    requires e.cur in e.mms
  {
    match step
    case Load(a, _) => (e, Saw(ByteAt(PageOf(e, Slot(e.cur, a / PAGE_SIZE)), a % PAGE_SIZE)))
    case Store(a, b, _) =>
      var k := Slot(e.cur, a / PAGE_SIZE);
      (e.(mem := e.mem[k := Put(PageOf(e, k), a % PAGE_SIZE, b)]), Done)
    case DoFork(child) =>
      (Eager(e.cur, e.mms[child := e.mms[e.cur]],
             e.mem + CopyPages(e.mem, e.cur, child, ForkPages(e.mms[e.cur].vmas))), Done)
    case Switch(pid) => (e.(cur := pid), Done)
    case DoSbrk(size) =>
      if HEAP >= |e.mms[e.cur].vmas| then (e, Hang)
      else
        (match Sbrk(e.mms[e.cur], size)
         case Grown(_, mm) => (e.(mms := e.mms[e.cur := mm]), Done)
         case _ => (e, Done))
    case DoExec(image, mm) =>
      (e.(mms := e.mms[e.cur := mm], mem := WithImage(e.mem, e.cur, image)), Done)
    case Reap(pid) => (e.(mms := e.mms - {pid}, mem := WithoutProcess(e.mem, pid)), Done)
    case Remap(page, content) => (e.(mem := e.mem[Slot(e.cur, page) := content]), Done)
    case MapElse(_) => (e, Done)
    case SetRegions(mm) => (e.(mms := e.mms[e.cur := mm]), Done)
  }

  function EagerTrace(e: Eager, steps: seq<Step>): seq<Obs>
    decreases |steps|
  {
    if steps == [] || e.cur !in e.mms then []
    else [EagerNext(e, steps[0]).1] + EagerTrace(EagerNext(e, steps[0]).0, steps[1..])
  }

  // ----- the relation -----

  /** The content a process would find at a page if it could always reach it. */
  ghost function View(s: State, k: Slot): Page {
    if k in s.pte && s.pte[k].frame < |s.data| then s.data[s.pte[k].frame] else ZERO_PAGE
  }

  ghost predicate SameViews(s: State, t: State) {
    forall k {:trigger View(t, k)} :: View(t, k) == View(s, k)
  }

  ghost predicate Simulates(s: State, e: Eager) {
    && e.cur == s.cur && e.mms == s.mms
    && (forall k {:trigger View(s, k)} {:trigger PageOf(e, k)} :: View(s, k) == PageOf(e, k))
    && (forall k {:trigger k in e.mem} :: k in e.mem ==> k.pid in e.mms)
  }

  /** The private memory a copy-on-write state stands for. */
  ghost function Privatised(s: State): Eager
    requires Runnable(s)
  {
    Eager(s.cur, s.mms, PrivateMemory(s))
  }

  ghost function PrivateMemory(s: State): map<Slot, Page>
    requires Runnable(s)
  {
    map k | k in s.pte :: s.data[s.pte[k].frame]
  }

  // ----- legal accesses resolve -----

  /** No page holds addresses of both a writable and a read-only region. */
  ghost predicate Separated(vmas: seq<Vma>) {
    forall v, w, page {:trigger Meets(v, page), Meets(w, page)} ::
      v in vmas && w in vmas && v.writable && !w.writable ==>
      !(Meets(v, page) && Meets(w, page))
  }

  ghost predicate MeetsReadOnly(vmas: seq<Vma>, page: nat) {
    exists w :: w in vmas && !w.writable && Meets(w, page)
  }

  /** An entry that is neither writable nor copy-on-write belongs to a read-only region. */
  ghost predicate Resolvable(s: State) {
    && (forall pid {:trigger s.mms[pid]} :: pid in s.mms ==> Separated(s.mms[pid].vmas))
    && (forall k {:trigger s.pte[k]} :: k in s.pte && k.pid in s.mms && !s.pte[k].writable && !s.pte[k].cow ==>
          MeetsReadOnly(s.mms[k.pid].vmas, k.page))
  }

  /** The address lies in a region of the process, in a writable one for a write. */
  ghost predicate LegalAccess(s: State, a: nat, write: bool) {
    && s.cur in s.mms
    && InVma(s.mms[s.cur].vmas, a).Some?
    && (write ==> InVma(s.mms[s.cur].vmas, a).value.writable)
  }

  lemma ContainsMeets(vma: Vma, a: nat)
    requires Contains(vma, a)
    ensures Meets(vma, a / PAGE_SIZE)
  {
  }

  lemma DemandPageResolves(s: State, page: nat, writable: bool)
    requires Core(s) && RoomForTables(s, page) && Slot(s.cur, page) !in s.pte
    ensures var t, k := DemandPage(s, page, writable), Slot(s.cur, page);
            t.cur == s.cur && k in t.pte && t.pte[k].present && t.pte[k].user && t.pte[k].writable == writable
  {
    EnsureTablesKeepsCore(s, page);
    hide Core, EnsureTables, FirstFree;
  }

  /** In a writable region a present page is writable or copy-on-write. */
  lemma WritableOrCow(s: State, a: nat)
    requires Core(s) && Resolvable(s) && LegalAccess(s, a, true) && Slot(s.cur, a / PAGE_SIZE) in s.pte
    ensures var e := s.pte[Slot(s.cur, a / PAGE_SIZE)]; e.writable != e.cow
  {
    var page, vmas := a / PAGE_SIZE, s.mms[s.cur].vmas;
    var vma := InVma(vmas, a).value;
    ContainsMeets(vma, a);
    assert EntryOk(s, Slot(s.cur, page), s.pte[Slot(s.cur, page)]);
  }

  lemma TryAfterFlush(t: State, a: nat, write: bool)
    requires var k := Slot(t.cur, a / PAGE_SIZE);
             k in t.pte && t.pte[k].present && t.pte[k].user && (write ==> t.pte[k].writable)
    ensures Try(Flush(t), a, write).Hit?
  {
  }

  /** A legal access that misses is resolved by one run of the handler. */
  lemma LegalFaultResolves(s: State, a: nat, write: bool)
    requires Inv(s) && Resolvable(s) && Ready(s, a) && LegalAccess(s, a, write) && Try(s, a, write).Miss?
    ensures var (t, outcome) := Fault(s, a, Try(s, a, write).err); outcome == Resolved && Try(t, a, write).Hit?
  {
    if Slot(s.cur, a / PAGE_SIZE) in s.pte {
      CowFaultResolves(s, a, write);
    } else {
      var page, vma := a / PAGE_SIZE, InVma(s.mms[s.cur].vmas, a).value;
      DemandPageResolves(s, page, vma.writable);
      hide Core, Resolvable, FirstFree, EnsureTables, DemandPage, BreakCow, RoomForTables, CanAllocate;
      TryAfterFlush(DemandPage(s, page, vma.writable), a, write);
    }
  }

  lemma CowFaultResolves(s: State, a: nat, write: bool)
    requires Inv(s) && Resolvable(s) && Ready(s, a) && LegalAccess(s, a, write) && Try(s, a, write).Miss?
    requires Slot(s.cur, a / PAGE_SIZE) in s.pte
    ensures var (t, outcome) := Fault(s, a, Try(s, a, write).err); outcome == Resolved && Try(t, a, write).Hit?
  {
    var k := Slot(s.cur, a / PAGE_SIZE);
    assert EntryOk(s, k, s.pte[k]);
    WritableOrCow(s, a);
    hide Core, Resolvable, FirstFree, DemandPage, RoomForTables, CanAllocate;
    TryAfterFlush(BreakCow(s, a / PAGE_SIZE), a, write);
  }

  lemma ViewOfMapped(s: State, k: Slot)
    requires Core(s) && k in s.pte
    ensures s.pte[k].frame < |s.data| && View(s, k) == s.data[s.pte[k].frame] && UserFrame(s, s.pte[k].frame)
  {
    assert EntryOk(s, k, s.pte[k]);
  }

  /** Mapping a fresh frame changes what that page shows and nothing else. */
  lemma MapFreshViews(s: State, page: nat, content: Page, writable: bool)
    requires Core(s) && CanAllocate(s)
    ensures var t := MapFresh(s, page, content, writable);
            forall k {:trigger View(t, k)} :: View(t, k) == if k == Slot(s.cur, page) then content else View(s, k)
  {
    AllocationFacts(s);
    var t := MapFresh(s, page, content, writable);
    forall k
      ensures View(t, k) == if k == Slot(s.cur, page) then content else View(s, k)
    {
      if k in s.pte && k != Slot(s.cur, page) {
        assert EntryOk(s, k, s.pte[k]);
      }
    }
  }

  lemma DemandPageViews(s: State, page: nat, writable: bool)
    requires Core(s) && RoomForTables(s, page) && Slot(s.cur, page) !in s.pte
    ensures SameViews(s, DemandPage(s, page, writable))
    ensures DemandPage(s, page, writable).cur == s.cur && DemandPage(s, page, writable).mms == s.mms
  {
    EnsureTablesKeepsCore(s, page);
    var t := EnsureTables(s, page);
    MapFreshViews(t, page, ZERO_PAGE, writable);
    hide Core, EnsureTables, FirstFree;
  }

  lemma BreakCowViews(s: State, page: nat)
    requires Core(s) && CanAllocate(s) && Slot(s.cur, page) in s.pte
    ensures s.pte[Slot(s.cur, page)].frame < |s.desc| && SameViews(s, BreakCow(s, page))
  {
    ViewOfMapped(s, Slot(s.cur, page));
    MapFreshViews(s, page, s.data[s.pte[Slot(s.cur, page)].frame], true);
    hide Core, FirstFree;
  }

  lemma FlushKeepsViews(s: State, t: State)
    requires SameViews(s, t)
    ensures SameViews(s, Flush(t))
  {
    forall k
      ensures View(Flush(t), k) == View(s, k)
    {
      assert View(t, k) == View(s, k);
    }
  }

  /** The handler never changes what any process sees. */
  lemma FaultKeepsViews(s: State, a: nat, err: PfErr)
    requires Core(s) && Ready(s, a) && (!err.present ==> Slot(s.cur, a / PAGE_SIZE) !in s.pte)
    ensures SameViews(s, Fault(s, a, err).0)
    ensures Fault(s, a, err).0.cur == s.cur && Fault(s, a, err).0.mms == s.mms
  {
    var page := a / PAGE_SIZE;
    FlushKeepsViews(s, s);
    match InVma(s.mms[s.cur].vmas, a) {
      case None =>
      case Some(vma) =>
        if !err.present {
          DemandPageViews(s, page, vma.writable);
          FlushKeepsViews(s, DemandPage(s, page, vma.writable));
        } else if err.write && vma.writable && Slot(s.cur, page) in s.pte && s.pte[Slot(s.cur, page)].cow {
          BreakCowViews(s, page);
          FlushKeepsViews(s, BreakCow(s, page));
        }
    }
  }

  /** Everything an access leaves to the caller: the same views, the same process. */
  lemma FaultKeepsResolvable(s: State, a: nat, err: PfErr)
    requires Core(s) && Ready(s, a) && Resolvable(s)
    ensures Resolvable(Fault(s, a, err).0)
  {
    var page := a / PAGE_SIZE;
    match InVma(s.mms[s.cur].vmas, a) {
      case None =>
      case Some(vma) =>
        ContainsMeets(vma, a);
        if !err.present {
          DemandPageKeepsResolvable(s, a, vma);
        } else if err.write && vma.writable && Slot(s.cur, page) in s.pte && s.pte[Slot(s.cur, page)].cow {
          BreakCowKeepsResolvable(s, page);
        }
        hide Core, Separated, MeetsReadOnly, DemandPage, BreakCow, Ready;
    }
  }

  lemma DemandPageKeepsResolvable(s: State, a: nat, vma: Vma)
    requires Core(s) && Resolvable(s) && s.cur in s.mms && RoomForTables(s, a / PAGE_SIZE)
    requires vma in s.mms[s.cur].vmas && Meets(vma, a / PAGE_SIZE)
    ensures Resolvable(DemandPage(s, a / PAGE_SIZE, vma.writable))
  {
    var page := a / PAGE_SIZE;
    EnsureTablesKeepsCore(s, page);
    var u := DemandPage(s, page, vma.writable);
    DemandPageEntry(s, page, vma.writable);
    hide Core, Separated, DemandPage, RoomForTables, Meets;
    if !vma.writable {
      assert MeetsReadOnly(s.mms[s.cur].vmas, page);
    }
    hide MeetsReadOnly;
    forall k | k in u.pte && k.pid in u.mms && !u.pte[k].writable && !u.pte[k].cow
      ensures MeetsReadOnly(u.mms[k.pid].vmas, k.page)
    {
      assert k != Slot(s.cur, page) ==> k in s.pte && u.pte[k] == s.pte[k];
    }
  }

  lemma DemandPageEntry(s: State, page: nat, writable: bool)
    requires Core(s) && RoomForTables(s, page)
    ensures var u, k := DemandPage(s, page, writable), Slot(s.cur, page);
            && u.cur == s.cur && u.mms == s.mms && k in u.pte && u.pte == s.pte[k := u.pte[k]]
            && (k in s.pte ==> u.pte[k] == s.pte[k]) && (k !in s.pte ==> u.pte[k].writable == writable)
  {
    EnsureTablesKeepsCore(s, page);
    hide Core, EnsureTables, FirstFree;
  }

  lemma BreakCowKeepsResolvable(s: State, page: nat)
    requires Core(s) && Resolvable(s) && CanAllocate(s) && Slot(s.cur, page) in s.pte
    ensures s.pte[Slot(s.cur, page)].frame < |s.desc| && Resolvable(BreakCow(s, page))
  {
    ViewOfMapped(s, Slot(s.cur, page));
    hide Core, Separated, FirstFree, MeetsReadOnly;
  }

  lemma MissMeansAbsent(s: State, a: nat, write: bool)
    requires Inv(s) && Try(s, a, write).Miss? && !Try(s, a, write).err.present
    ensures Slot(s.cur, a / PAGE_SIZE) !in s.pte
  {
  }

  /** A legal access is granted after at most one fault, and no process sees a difference. */
  lemma LegalAccessGranted(s: State, a: nat, write: bool)
    requires Inv(s) && Resolvable(s) && Ready(s, a) && LegalAccess(s, a, write)
    ensures var r := Access(s, a, write, 0);
            && r.Granted? && r.faults <= 1
            && Inv(r.s) && Resolvable(r.s) && SameViews(s, r.s) && r.s.cur == s.cur && r.s.mms == s.mms
            && Grants(r.s, a, write, r.entry)
  {
    AccessKeepsInv(s, a, write, 0);
    match Try(s, a, write) {
      case Hit(e) =>
      case Miss(err) =>
        LegalFaultResolves(s, a, write);
        if !err.present {
          MissMeansAbsent(s, a, write);
        }
        FaultKeepsViews(s, a, err);
        FaultKeepsResolvable(s, a, err);
        assert Access(Fault(s, a, err).0, a, write, 1).Granted?;
    }
  }

  // ----- one step -----

  /** What a step needs for the guarantee: user accesses are legal and find free frames; fork, exec
      and sbrk leave regions that do not mix writable and read-only addresses on a page. */
  ghost predicate Enabled(s: State, step: Step) {
    && Allowed(s, step)
    && match step
       case Load(a, _) => LegalAccess(s, a, false) && Ready(s, a)
       case Store(a, _, _) => LegalAccess(s, a, true) && Ready(s, a)
       case DoSbrk(size) => s.cur in s.mms && GrowsCleanly(s.mms[s.cur], size)
       case DoExec(image, mm) => |FreeFrames(s.desc)| >= |image| && Separated(mm.vmas) && CoversReadOnly(s, mm)
       case Remap(_, _) => |FreeFrames(s.desc)| >= 1
       case MapElse(pages) => |FreeFrames(s.desc)| >= |pages| && Unseen(s, pages)
       case SetRegions(mm) => s.cur in s.mms && Separated(mm.vmas) && CoversReadOnly(s, mm)
       case _ => true
  }

  /** The pages that umalloc takes from another process's address space held nothing. */
  ghost predicate Unseen(s: State, pages: seq<nat>) {
    s.target in s.mms ==> forall v :: v in pages ==> View(s, Slot(s.target, v)) == ZERO_PAGE
  }

  ghost predicate GrowsCleanly(mm: Mm, size: nat) {
    && HEAP < |mm.vmas| && mm.vmas[HEAP].writable
    && (Sbrk(mm, size).Grown? ==> Separated(Sbrk(mm, size).mm.vmas))
  }

  /** The read-only pages left by the old program stay in read-only regions of the new one. */
  ghost predicate CoversReadOnly(s: State, mm: Mm) {
    forall k {:trigger s.pte[k]} :: k in s.pte && k.pid == s.cur && !s.pte[k].writable && !s.pte[k].cow ==>
      MeetsReadOnly(mm.vmas, k.page)
  }

  lemma LoadSimulates(s: State, e: Eager, a: nat, cache: bool)
    requires Inv(s) && Resolvable(s) && Simulates(s, e) && LegalAccess(s, a, false) && Ready(s, a) && Runnable(s)
    ensures var (t, obs) := Next(s, Load(a, cache));
            Resolvable(t) && Simulates(t, e) && obs == EagerNext(e, Load(a, cache)).1
  {
    LegalAccessGranted(s, a, false);
    var r := Access(s, a, false, 0);
    var k := Slot(s.cur, a / PAGE_SIZE);
    assert Core(r.s) by {
      CoreOfInv(r.s);
    }
    ViewOfMapped(r.s, k);
    hide Inv, Core, Resolvable, Access, Ready, LegalAccess, View, MayCache;
    assert View(r.s, k) == View(s, k) == PageOf(e, k);
    var t := Next(s, Load(a, cache)).0;
    CacheChangesTlbOnly(r.s, a, r.entry, cache);
    SameTablesResolve(r.s, t);
    forall m
      ensures View(t, m) == PageOf(e, m)
    {
      SameMemoryView(r.s, t, m);
      assert View(r.s, m) == View(s, m) == PageOf(e, m);
    }
  }

  /** A granted store reaches a frame no other entry maps. */
  lemma StoreViews(t: State, a: nat, e: Pte, content: Page)
    requires Core(t) && Grants(t, a, true, e)
    ensures e.frame < |t.data|
    ensures var u, k := t.(data := t.data[e.frame := content]), Slot(t.cur, a / PAGE_SIZE);
            forall m {:trigger View(u, m)} :: View(u, m) == if m == k then content else View(t, m)
  {
    var u, k := t.(data := t.data[e.frame := content]), Slot(t.cur, a / PAGE_SIZE);
    ViewOfMapped(t, k);
    forall m
      ensures View(u, m) == if m == k then content else View(t, m)
    {
      assert m in t.pte ==> m in Maps(t.pte, t.pte[m].frame);
    }
  }

  lemma StoreObserved(s: State, a: nat, b: Byte, cache: bool)
    requires Inv(s) && Resolvable(s) && LegalAccess(s, a, true) && Ready(s, a) && Runnable(s)
    ensures var ((t, obs), k) := (Next(s, Store(a, b, cache)), Slot(s.cur, a / PAGE_SIZE));
            && obs == Done && t.cur == s.cur && t.mms == s.mms && Resolvable(t)
            && forall m {:trigger View(t, m)} ::
                 View(t, m) == if m == k then Put(View(s, k), a % PAGE_SIZE, b) else View(s, m)
  {
    var page, o := a / PAGE_SIZE, a % PAGE_SIZE;
    hide *;
    LegalAccessGranted(s, a, true);
    var r := Access(s, a, true, 0);
    var k := Slot(s.cur, page);
    CoreOfInv(r.s);
    GrantedView(s, r.s, k, r.entry);
    CacheKeepsInv(r.s, a, true, r.entry, cache);
    NextOfStore(s, a, b, cache, r);
    var c := MayCache(r.s, page, r.entry, cache);
    CacheChangesTlbOnly(r.s, a, r.entry, cache);
    CoreOfInv(c);
    StoreViews(c, a, r.entry, Put(r.s.data[r.entry.frame], o, b));
    var t := Next(s, Store(a, b, cache)).0;
    SameTablesResolve(r.s, t);
    forall m
      ensures View(t, m) == if m == k then Put(View(s, k), o, b) else View(s, m)
    {
      SeenView(s, r.s, c, m);
    }
  }

  lemma CoreOfInv(s: State)
    requires Inv(s)
    ensures Core(s)
  {
  }

  /** What a granted access reaches is what the process sees. */
  lemma GrantedView(s: State, t: State, k: Slot, e: Pte)
    requires Core(t) && k in t.pte && e == t.pte[k] && SameViews(s, t)
    ensures e.frame < |t.data| && View(s, k) == t.data[e.frame]
  {
    ViewOfMapped(t, k);
    hide Core;
    assert View(t, k) == View(s, k);
  }

  lemma SeenView(s: State, t: State, c: State, m: Slot)
    requires SameViews(s, t) && c.pte == t.pte && c.data == t.data
    ensures View(c, m) == View(s, m)
  {
    assert View(c, m) == View(t, m);
  }

  lemma CacheChangesTlbOnly(t: State, a: nat, e: Pte, cache: bool)
    ensures var c := MayCache(t, a / PAGE_SIZE, e, cache);
            && c.pte == t.pte && c.data == t.data && c.cur == t.cur && c.mms == t.mms
            && (Grants(t, a, true, e) ==> Grants(c, a, true, e))
  {
  }

  lemma NextOfStore(s: State, a: nat, b: Byte, cache: bool, r: Result)
    requires Runnable(s) && r == Access(s, a, true, 0) && r.Granted? && r.entry.frame < |r.s.data|
    ensures var c := MayCache(r.s, a / PAGE_SIZE, r.entry, cache);
            && |c.data| == |r.s.data|
            && Next(s, Store(a, b, cache)) ==
               (c.(data := c.data[r.entry.frame := Put(r.s.data[r.entry.frame], a % PAGE_SIZE, b)]), Done)
  {
    hide Access;
  }

  lemma SameTablesResolve(s: State, t: State)
    requires Resolvable(s) && t.pte == s.pte && t.mms == s.mms
    ensures Resolvable(t)
  {
    hide Separated, MeetsReadOnly;
  }

  lemma StoreSimulates(s: State, e: Eager, a: nat, b: Byte, cache: bool)
    requires Inv(s) && Resolvable(s) && Simulates(s, e) && LegalAccess(s, a, true) && Ready(s, a) && Runnable(s)
    ensures var ((t, obs), (f, eobs)) := (Next(s, Store(a, b, cache)), EagerNext(e, Store(a, b, cache)));
            Resolvable(t) && Simulates(t, f) && obs == eobs
  {
    StoreObserved(s, a, b, cache);
    hide Next, Inv, Resolvable, Ready;
    var t, f, k := Next(s, Store(a, b, cache)).0, EagerNext(e, Store(a, b, cache)).0, Slot(s.cur, a / PAGE_SIZE);
    assert View(s, k) == PageOf(e, k);
    forall m
      ensures View(t, m) == PageOf(f, m)
    {
      assert View(s, m) == PageOf(e, m);
    }
  }

  /** After fork the child sees the parent's pages, and every other view is as before. */
  lemma ForkViews(s: State, child: nat)
    requires Core(s) && child !in s.mms && Runnable(s)
    ensures var t, pages := Fork(s, child), ForkPages(s.mms[s.cur].vmas);
            forall k {:trigger View(t, k)} :: View(t, k) ==
              if k.pid != child then View(s, k)
              else if k.page in pages then View(s, Slot(s.cur, k.page)) else ZERO_PAGE
  {
    var pages := ForkPages(s.mms[s.cur].vmas);
    var c := s.(mms := s.mms[child := s.mms[s.cur]], target := child);
    forall k | k in s.pte
      ensures k.pid != child
    {
      assert EntryOk(s, k, s.pte[k]);
    }
    ForkLoopForks(c, child, pages);
    var t := Fork(s, child);
    assert Forked(c, t, child, pages);
    forall k
      ensures View(t, k) ==
              if k.pid != child then View(s, k)
              else if k.page in pages then View(s, Slot(s.cur, k.page)) else ZERO_PAGE
    {
      assert k in s.pte ==> t.pte[k].frame == s.pte[k].frame;
      assert k.pid == child && k in t.pte ==> t.pte[k] == MarkCow(s.pte[Slot(s.cur, k.page)]) by {
        if k.pid == child && k in t.pte {
          assert k == Slot(child, k.page);
        }
      }
    }
  }

  /** The entries of a page that fork shares, and what fork leaves alone. */
  lemma ForkedEntries(s: State, child: nat, v: nat)
    requires Core(s) && child !in s.mms && Runnable(s)
    requires v in ForkPages(s.mms[s.cur].vmas) && Slot(s.cur, v) in s.pte
    ensures var t := Fork(s, child);
            && t.cur == s.cur && t.target == child && t.mms == s.mms[child := s.mms[s.cur]]
            && t.high == s.high && t.data == s.data
            && Slot(s.cur, v) in t.pte && t.pte[Slot(s.cur, v)] == MarkCow(s.pte[Slot(s.cur, v)])
            && Slot(child, v) in t.pte && t.pte[Slot(child, v)] == MarkCow(s.pte[Slot(s.cur, v)])
  {
    var pages := ForkPages(s.mms[s.cur].vmas);
    var c := s.(mms := s.mms[child := s.mms[s.cur]], target := child);
    NoEntriesOutside(s, child);
    ForkLoopForks(c, child, pages);
    hide Core, ForkPages, ForkLoop;
    assert Forked(c, ForkLoop(c, child, pages), child, pages);
  }

  lemma ForkKeepsResolvable(s: State, child: nat)
    requires Core(s) && Resolvable(s) && child !in s.mms && Runnable(s)
    ensures Resolvable(Fork(s, child))
  {
    var pages := ForkPages(s.mms[s.cur].vmas);
    var c := s.(mms := s.mms[child := s.mms[s.cur]], target := child);
    LivePids(s);
    hide Core, ForkPages, ForkLoop, Separated, MeetsReadOnly, Forked;
    NoEntriesOutside(s, child);
    ForkLoopForks(c, child, pages);
    ForkMms(s, child);
    var t := Fork(s, child);
    assert Forked(c, t, child, pages) by {
      FlushForked(c, ForkLoop(c, child, pages), child, pages);
    }
    hide Fork, Runnable;
    forall k | k in t.pte && k.pid in t.mms && !t.pte[k].writable && !t.pte[k].cow
      ensures MeetsReadOnly(t.mms[k.pid].vmas, k.page)
    {
      UnmarkedEntry(c, t, child, pages, k);
    }
  }

  lemma LivePids(s: State)
    requires Core(s)
    ensures forall k {:trigger k in s.pte} :: k in s.pte ==> k.pid in s.mms
  {
    forall k | k in s.pte
      ensures k.pid in s.mms
    {
      assert EntryOk(s, k, s.pte[k]);
    }
  }

  lemma FlushForked(s: State, t: State, child: nat, pages: seq<nat>)
    requires Forked(s, t, child, pages)
    ensures Forked(s, Flush(t), child, pages)
  {
  }

  /** An entry without the copy-on-write bit is not of fork's making. */
  lemma UnmarkedEntry(s: State, t: State, child: nat, pages: seq<nat>, k: Slot)
    requires Forked(s, t, child, pages) && k in t.pte && !t.pte[k].cow
    ensures k in s.pte && t.pte[k] == s.pte[k]
  {
    assert k == Slot(k.pid, k.page);
  }

  lemma ForkMms(s: State, child: nat)
    requires Runnable(s)
    ensures Fork(s, child).cur == s.cur && Fork(s, child).mms == s.mms[child := s.mms[s.cur]]
  {
    hide ForkPages;
  }

  lemma EagerForkPages(e: Eager, child: nat, k: Slot)
    requires e.cur in e.mms && child != e.cur && forall m {:trigger m in e.mem} :: m in e.mem ==> m.pid != child
    ensures var f, pages := EagerNext(e, DoFork(child)).0, ForkPages(e.mms[e.cur].vmas);
            && PageOf(f, k) ==
               (if k.pid != child then PageOf(e, k)
                else if k.page in pages then PageOf(e, Slot(e.cur, k.page)) else ZERO_PAGE)
            && (k in f.mem ==> k in e.mem || k.pid == child)
  {
    hide ForkPages;
    var pages := ForkPages(e.mms[e.cur].vmas);
    assert k.pid == child ==> k == Slot(child, k.page);
    assert k in CopyPages(e.mem, e.cur, child, pages) <==>
           k.pid == child && k.page in pages && Slot(e.cur, k.page) in e.mem;
  }

  lemma ForkSimulates(s: State, e: Eager, child: nat)
    requires Inv(s) && Resolvable(s) && Simulates(s, e) && Allowed(s, DoFork(child)) && Runnable(s)
    ensures Resolvable(Fork(s, child)) && Simulates(Fork(s, child), EagerNext(e, DoFork(child)).0)
  {
    assert Core(s) by {
      CoreOfInv(s);
    }
    ForkKeepsResolvable(s, child);
    ForkViews(s, child);
    ForkMms(s, child);
    hide Inv, Core, Resolvable, View, Fork, ForkPages, ForkTablesPresent, PageOf, CopyPages, Runnable;
    var t, f := Fork(s, child), EagerNext(e, DoFork(child)).0;
    forall k: Slot
      ensures View(t, k) == PageOf(f, k) && (k in f.mem ==> k in e.mem || k.pid == child)
    {
      EagerForkPages(e, child, k);
      assert View(s, k) == PageOf(e, k);
      assert View(s, Slot(s.cur, k.page)) == PageOf(e, Slot(s.cur, k.page));
    }
  }

  ghost predicate Shows(s: State, mem: map<Slot, Page>) {
    forall k {:trigger View(s, k)} :: View(s, k) == if k in mem then mem[k] else ZERO_PAGE
  }

  lemma MapPageShows(s: State, mem: map<Slot, Page>, page: nat, content: Page)
    requires Core(s) && CanAllocate(s) && Shows(s, mem)
    ensures var t := MapFresh(s, page, content, true).(dirs := WithTables(s.dirs, s.cur, page));
            Core(t) && Shows(t, mem[Slot(s.cur, page) := content])
  {
    var m := MapFresh(s, page, content, true);
    var t := m.(dirs := WithTables(s.dirs, s.cur, page));
    MapFreshViews(s, page, content, true);
    AddTablesKeepsCore(s, page);
    MapFreshKeepsCore(s.(dirs := WithTables(s.dirs, s.cur, page)), page, content, true);
    assert t == MapFresh(s.(dirs := WithTables(s.dirs, s.cur, page)), page, content, true);
    forall k
      ensures View(t, k) ==
              if k in mem[Slot(s.cur, page) := content] then mem[Slot(s.cur, page) := content][k] else ZERO_PAGE
    {
      assert View(t, k) == View(m, k);
    }
  }

  lemma {:induction false} ImageViews(s: State, mem: map<Slot, Page>, image: seq<(nat, Page)>)
    requires Core(s) && |FreeFrames(s.desc)| >= |image| && Shows(s, mem)
    ensures Shows(MapImage(s, image), WithImage(mem, s.cur, image))
    decreases |image|
  {
    if image != [] {
      AllocationCount(s);
      var page, content := image[0].0, image[0].1;
      MapPageShows(s, mem, page, content);
      var t := MapFresh(s, page, content, true).(dirs := WithTables(s.dirs, s.cur, page));
      ImageViews(t, mem[Slot(s.cur, page) := content], image[1..]);
    }
  }

  lemma {:induction false} ImageEntries(s: State, image: seq<(nat, Page)>)
    requires Core(s)
    ensures forall k {:trigger MapImage(s, image).pte[k]} :: k in MapImage(s, image).pte ==>
              MapImage(s, image).pte[k].writable || (k in s.pte && MapImage(s, image).pte[k] == s.pte[k])
    decreases |image|
  {
    if image != [] && CanAllocate(s) {
      var page, content := image[0].0, image[0].1;
      AddTablesKeepsCore(s, page);
      MapFreshKeepsCore(s.(dirs := WithTables(s.dirs, s.cur, page)), page, content, true);
      var t := MapFresh(s, page, content, true).(dirs := WithTables(s.dirs, s.cur, page));
      assert t == MapFresh(s.(dirs := WithTables(s.dirs, s.cur, page)), page, content, true);
      ImageEntries(t, image[1..]);
    }
  }

  lemma {:induction false} ImageKeys(mem: map<Slot, Page>, pid: nat, image: seq<(nat, Page)>)
    ensures forall k :: k in WithImage(mem, pid, image) ==> k in mem || k.pid == pid
    decreases |image|
  {
    if image != [] {
      ImageKeys(mem[Slot(pid, image[0].0) := image[0].1], pid, image[1..]);
    }
  }

  lemma ExecViews(s: State, e: Eager, image: seq<(nat, Page)>)
    requires Core(s) && Simulates(s, e) && |FreeFrames(s.desc)| >= |image|
    ensures Shows(MapImage(s, image), WithImage(e.mem, s.cur, image))
  {
    forall k
      ensures View(s, k) == if k in e.mem then e.mem[k] else ZERO_PAGE
    {
      assert View(s, k) == PageOf(e, k);
    }
    hide Core, View, MapImage, WithImage, FreeFrames;
    ImageViews(s, e.mem, image);
  }

  lemma ExecKeepsResolvable(s: State, image: seq<(nat, Page)>, mm: Mm)
    requires Core(s) && Resolvable(s) && Separated(mm.vmas) && CoversReadOnly(s, mm) && s.cur in s.mms
    ensures Resolvable(Flush(MapImage(s, image)).(mms := s.mms[s.cur := mm]))
  {
    ImageEntries(s, image);
    var i := MapImage(s, image);
    hide Core, MapImage, Separated, MeetsReadOnly;
    forall k | k in i.pte && k.pid in s.mms[s.cur := mm] && !i.pte[k].writable && !i.pte[k].cow
      ensures MeetsReadOnly(s.mms[s.cur := mm][k.pid].vmas, k.page)
    {
      assert k in s.pte && i.pte[k] == s.pte[k];
    }
  }

  lemma ExecSimulates(s: State, e: Eager, image: seq<(nat, Page)>, mm: Mm)
    requires Inv(s) && Resolvable(s) && Simulates(s, e) && Enabled(s, DoExec(image, mm)) && Runnable(s)
    ensures var t := Next(s, DoExec(image, mm)).0;
            Resolvable(t) && Simulates(t, EagerNext(e, DoExec(image, mm)).0)
  {
    ExecViews(s, e, image);
    ExecKeepsResolvable(s, image, mm);
    ImageKeys(e.mem, s.cur, image);
    MapImageKeepsCore(s, image);
    hide MapImage, WithImage, Core, Resolvable, Separated, CoversReadOnly, Coherent;
    var i, t, f := MapImage(s, image), Next(s, DoExec(image, mm)).0, EagerNext(e, DoExec(image, mm)).0;
    forall k
      ensures View(t, k) == PageOf(f, k)
    {
      assert View(t, k) == View(i, k);
    }
  }

  lemma RemapSimulates(s: State, e: Eager, page: nat, content: Page)
    requires Inv(s) && Resolvable(s) && Simulates(s, e) && Enabled(s, Remap(page, content)) && Runnable(s)
    ensures var t := Next(s, Remap(page, content)).0;
            Resolvable(t) && Simulates(t, EagerNext(e, Remap(page, content)).0)
  {
    var image, mm := [(page, content)], s.mms[s.cur];
    ExecViews(s, e, image);
    ExecKeepsResolvable(s, image, mm);
    MapImageKeepsCore(s, image);
    assert image[1..] == [] && WithImage(e.mem, s.cur, image) == e.mem[Slot(s.cur, page) := content];
    assert s.mms[s.cur := mm] == s.mms;
    ImageKeys(e.mem, s.cur, image);
    hide MapImage, WithImage, Core, Resolvable, Separated, CoversReadOnly, Coherent, View, FreeFrames;
    var i, t, f := MapImage(s, image), Next(s, Remap(page, content)).0, EagerNext(e, Remap(page, content)).0;
    forall k
      ensures View(t, k) == PageOf(f, k)
    {
      SameMemoryView(i, t, k);
    }
  }

  lemma SwitchedView(s: State, pid: nat, pages: seq<nat>, k: Slot)
    requires Core(s) && pid in s.mms && |FreeFrames(s.desc)| >= |pages|
    ensures View(MapFor(s, pid, ZeroImage(pages)), k) ==
            if k.pid == pid && k.page in pages then ZERO_PAGE else View(s, k)
  {
    SwitchKeepsCore(s, pid);
    InvIsRunnable(s);
    var u, image, mem := s.(cur := pid), ZeroImage(pages), PrivateMemory(s);
    MemoryShows(s, u);
    hide Core, View, MapImage, WithImage, FreeFrames, PrivateMemory;
    ImageViews(u, mem, image);
    ZeroImageMemory(mem, pid, pages);
    SameMemoryView(MapFor(s, pid, image), MapImage(u, image), k);
    SameMemoryView(s, u, k);
    assert View(u, k) == if k in mem then mem[k] else ZERO_PAGE;
  }

  lemma MemoryShows(s: State, u: State)
    requires Runnable(s) && u.pte == s.pte && u.data == s.data
    ensures Shows(u, PrivateMemory(s))
  {
  }

  lemma SameMemoryView(s: State, u: State, k: Slot)
    requires u.pte == s.pte && u.data == s.data
    ensures View(u, k) == View(s, k)
  {
  }

  lemma {:induction false} ZeroImageMemory(mem: map<Slot, Page>, pid: nat, pages: seq<nat>)
    ensures var m := WithImage(mem, pid, ZeroImage(pages));
            forall k :: (k in m <==> k in mem || (k.pid == pid && k.page in pages))
              && (k in m ==> m[k] == if k.pid == pid && k.page in pages then ZERO_PAGE else mem[k])
    decreases |pages|
  {
    if pages != [] {
      assert ZeroImage(pages)[1..] == ZeroImage(pages[1..]);
      ZeroImageMemory(mem[Slot(pid, pages[0]) := ZERO_PAGE], pid, pages[1..]);
    }
  }

  /** What an exec does to the process global_PML4 names when that is not the caller: the pages it asked
      for read zero there, and no other view changes. */
  lemma ElsewhereView(s: State, pages: seq<nat>, k: Slot)
    requires Inv(s) && s.target != s.cur && |FreeFrames(s.desc)| >= |pages|
    ensures View(MapElsewhere(s, pages), k) ==
            if s.target in s.mms && k.pid == s.target && k.page in pages then ZERO_PAGE else View(s, k)
  {
    InvIsRunnable(s);
    if s.target in s.mms {
      hide MapFor, Inv;
      SwitchedView(s, s.target, pages, k);
    } else {
      var a := s.(mms := s.mms[s.target := s.mms[s.cur]]);
      AddProcessKeepsCore(s, s.target, s.mms[s.cur]);
      NoEntriesOutside(s, s.target);
      hide MapFor, Inv, View, NoEntries;
      SwitchedView(a, s.target, pages, k);
      ReapedView(MapFor(a, s.target, ZeroImage(pages)), s.target, k);
      SameMemoryView(s, a, k);
      if k.pid == s.target {
        UnmappedView(s, k);
      }
    }
  }

  lemma ReapedView(t: State, pid: nat, k: Slot)
    ensures View(ReapProcess(t, pid), k) == if k.pid == pid then ZERO_PAGE else View(t, k)
  {
  }

  lemma UnmappedView(s: State, k: Slot)
    requires NoEntries(s, k.pid)
    ensures View(s, k) == ZERO_PAGE
  {
  }

  /** No program notices such an exec's mappings if and only if the pages read zero before. */
  lemma ElsewhereUnseenIff(s: State, pages: seq<nat>)
    requires Inv(s) && s.target != s.cur && |FreeFrames(s.desc)| >= |pages|
    ensures SameBytes(s, MapElsewhere(s, pages)) <==>
            (s.target in s.mms ==> forall v, i: nat :: v in pages ==> ByteAt(View(s, Slot(s.target, v)), i) == 0)
  {
    var t := MapElsewhere(s, pages);
    forall k
      ensures View(t, k) ==
              if s.target in s.mms && k.pid == s.target && k.page in pages then ZERO_PAGE else View(s, k)
    {
      ElsewhereView(s, pages, k);
    }
    hide Inv, MapElsewhere, View;
    if SameBytes(s, t) && s.target in s.mms {
      forall v, i: nat | v in pages
        ensures ByteAt(View(s, Slot(s.target, v)), i) == 0
      {
        assert ByteAt(View(t, Slot(s.target, v)), i) == ByteAt(View(s, Slot(s.target, v)), i);
      }
    } else if s.target in s.mms ==> forall v, i: nat :: v in pages ==> ByteAt(View(s, Slot(s.target, v)), i) == 0 {
      forall k, i: nat
        ensures ByteAt(View(t, k), i) == ByteAt(View(s, k), i)
      {
        assert k == Slot(k.pid, k.page);
      }
    }
  }

  ghost predicate SameBytes(s: State, t: State) {
    forall k, i: nat {:trigger ByteAt(View(t, k), i)} :: ByteAt(View(t, k), i) == ByteAt(View(s, k), i)
  }

  lemma ElsewhereEntries(s: State, pages: seq<nat>)
    requires Inv(s) && s.target != s.cur
    ensures var t := MapElsewhere(s, pages);
            && t.cur == s.cur && t.mms == s.mms
            && forall k {:trigger t.pte[k]} :: k in t.pte ==> t.pte[k].writable || (k in s.pte && t.pte[k] == s.pte[k])
  {
    var image := ZeroImage(pages);
    if s.target in s.mms {
      SwitchKeepsCore(s, s.target);
      ImageEntries(s.(cur := s.target), image);
      MapForKeepsInv(s, s.target, image);
    } else {
      var a := s.(mms := s.mms[s.target := s.mms[s.cur]]);
      AddProcessKeepsCore(s, s.target, s.mms[s.cur]);
      SwitchKeepsCore(a, s.target);
      ImageEntries(a.(cur := s.target), image);
      MapForKeepsInv(a, s.target, image);
    }
  }

  lemma ElsewhereSimulates(s: State, e: Eager, pages: seq<nat>)
    requires Inv(s) && Resolvable(s) && Simulates(s, e) && Enabled(s, MapElse(pages)) && Runnable(s)
    ensures var t := Next(s, MapElse(pages)).0; Resolvable(t) && Simulates(t, e)
  {
    ElsewhereEntries(s, pages);
    var t := MapElsewhere(s, pages);
    hide Inv, MapElsewhere, Separated, MeetsReadOnly, View;
    forall k
      ensures View(t, k) == PageOf(e, k)
    {
      ElsewhereView(s, pages, k);
      assert k == Slot(k.pid, k.page);
      assert View(s, k) == PageOf(e, k);
    }
  }

  lemma RegionsSimulate(s: State, e: Eager, mm: Mm)
    requires Inv(s) && Resolvable(s) && Simulates(s, e) && Enabled(s, SetRegions(mm)) && Runnable(s)
    ensures var t := Next(s, SetRegions(mm)).0;
            Resolvable(t) && Simulates(t, EagerNext(e, SetRegions(mm)).0)
  {
    hide Inv, Separated, MeetsReadOnly;
    var t, f := Next(s, SetRegions(mm)).0, EagerNext(e, SetRegions(mm)).0;
    forall k
      ensures View(t, k) == PageOf(f, k)
    {
      assert View(t, k) == View(s, k) == PageOf(e, k);
    }
  }

  lemma ReapSimulates(s: State, e: Eager, pid: nat)
    requires Inv(s) && Resolvable(s) && Simulates(s, e) && pid != s.cur
    ensures Resolvable(ReapProcess(s, pid)) && Simulates(ReapProcess(s, pid), EagerNext(e, Reap(pid)).0)
  {
    var t, f := ReapProcess(s, pid), EagerNext(e, Reap(pid)).0;
    hide Inv, Separated, MeetsReadOnly, View;
    forall k
      ensures View(t, k) == PageOf(f, k)
    {
      ReapedView(s, pid, k);
      assert View(s, k) == PageOf(e, k);
    }
  }

  lemma GrowthKeepsReadOnly(mm: Mm, size: nat, page: nat)
    requires GrowsCleanly(mm, size) && Sbrk(mm, size).Grown? && MeetsReadOnly(mm.vmas, page)
    ensures MeetsReadOnly(Sbrk(mm, size).mm.vmas, page)
  {
    hide Mask32;
    var w :| w in mm.vmas && !w.writable && Meets(w, page);
    var i :| 0 <= i < |mm.vmas| && mm.vmas[i] == w;
    assert Sbrk(mm, size).mm.vmas[i] == w;
  }

  lemma SbrkKeepsResolvable(s: State, size: nat)
    requires Inv(s) && Resolvable(s) && Enabled(s, DoSbrk(size)) && Runnable(s)
    ensures Resolvable(Next(s, DoSbrk(size)).0)
  {
    hide Inv, Separated, Meets, Sbrk;
    if Sbrk(s.mms[s.cur], size).Grown? {
      forall k | k in s.pte && k.pid == s.cur && !s.pte[k].writable && !s.pte[k].cow
        ensures MeetsReadOnly(Sbrk(s.mms[s.cur], size).mm.vmas, k.page)
      {
        GrowthKeepsReadOnly(s.mms[s.cur], size, k.page);
      }
    }
    hide MeetsReadOnly;
  }

  lemma SbrkSimulates(s: State, e: Eager, size: nat)
    requires Inv(s) && Resolvable(s) && Simulates(s, e) && Enabled(s, DoSbrk(size)) && Runnable(s)
    ensures var ((t, obs), (f, eobs)) := (Next(s, DoSbrk(size)), EagerNext(e, DoSbrk(size)));
            Resolvable(t) && Simulates(t, f) && obs == eobs
  {
    SbrkKeepsResolvable(s, size);
    SbrkAgrees(s, e, size);
    hide Inv, Resolvable, View, GrowsCleanly, Next, EagerNext, PageOf;
    var t, f := Next(s, DoSbrk(size)).0, EagerNext(e, DoSbrk(size)).0;
    forall k
      ensures View(t, k) == PageOf(f, k)
    {
      SameMemoryView(s, t, k);
      assert View(s, k) == PageOf(e, k);
      assert PageOf(f, k) == PageOf(e, k) by {
        SamePages(e, f, k);
      }
    }
  }

  lemma SamePages(e: Eager, f: Eager, k: Slot)
    requires f.mem == e.mem
    ensures PageOf(f, k) == PageOf(e, k)
  {
  }

  lemma SbrkAgrees(s: State, e: Eager, size: nat)
    requires Runnable(s) && e.cur == s.cur && e.mms == s.mms
    ensures var ((t, obs), (f, eobs)) := (Next(s, DoSbrk(size)), EagerNext(e, DoSbrk(size)));
            && t.pte == s.pte && t.data == s.data && f.mem == e.mem && obs == eobs
            && f.cur == t.cur && f.mms == t.mms && f.mms.Keys == s.mms.Keys
  {
    hide Mask32, FramesInRange;
  }

  lemma SwitchSimulates(s: State, e: Eager, pid: nat)
    requires Inv(s) && Resolvable(s) && Simulates(s, e) && pid in s.mms && Runnable(s)
    ensures var t := Next(s, Switch(pid)).0; Resolvable(t) && Simulates(t, EagerNext(e, Switch(pid)).0)
  {
    var t := Next(s, Switch(pid)).0;
    forall k
      ensures View(t, k) == PageOf(e, k)
    {
      assert View(t, k) == View(s, k);
    }
  }

  /** Every enabled step: same observation, and the states stay related. */
  lemma StepSimulates(s: State, e: Eager, step: Step)
    requires Inv(s) && Resolvable(s) && Simulates(s, e) && Enabled(s, step) && Runnable(s)
    ensures var ((t, obs), (f, eobs)) := (Next(s, step), EagerNext(e, step));
            Resolvable(t) && Simulates(t, f) && obs == eobs
  {
    hide Inv, Resolvable, Simulates, Fork, Access, Sbrk, MapImage, ReapProcess;
    match step {
      case Load(a, cache) => LoadSimulates(s, e, a, cache);
      case Store(a, b, cache) => StoreSimulates(s, e, a, b, cache);
      case DoFork(child) => ForkSimulates(s, e, child);
      case Switch(pid) => SwitchSimulates(s, e, pid);
      case DoSbrk(size) => SbrkSimulates(s, e, size);
      case DoExec(image, mm) => ExecSimulates(s, e, image, mm);
      case Reap(pid) => ReapSimulates(s, e, pid);
      case Remap(page, content) => RemapSimulates(s, e, page, content);
      case MapElse(pages) => ElsewhereSimulates(s, e, pages);
      case SetRegions(mm) => RegionsSimulate(s, e, mm);
    }
  }

  // ----- whole runs -----

  ghost predicate AllEnabled(s: State, steps: seq<Step>)
    decreases |steps|
  {
    steps == [] || (Enabled(s, steps[0]) && (Runnable(s) ==> AllEnabled(Next(s, steps[0]).0, steps[1..])))
  }

  lemma {:induction false} RunSimulates(s: State, e: Eager, steps: seq<Step>)
    requires Inv(s) && Resolvable(s) && Simulates(s, e) && AllEnabled(s, steps)
    ensures Trace(s, steps) == EagerTrace(e, steps)
    decreases |steps|
  {
    if steps != [] {
      InvIsRunnable(s);
      StepSimulates(s, e, steps[0]);
      StepKeepsInv(s, steps[0]);
      RunSimulates(Next(s, steps[0]).0, EagerNext(e, steps[0]).0, steps[1..]);
    }
  }

  lemma PrivatisedSimulates(s: State)
    requires Inv(s) && Runnable(s)
    ensures Simulates(s, Privatised(s))
  {
    forall k | k in s.pte
      ensures k.pid in s.mms
    {
      assert EntryOk(s, k, s.pte[k]);
    }
  }

  /** Copy-on-write transparency over every run of loads, stores, forks, switches, sbrk, exec and
      reaping: the programs observe what private eager copies would have shown them. */
  lemma CowIsTransparent(s: State, steps: seq<Step>)
    requires Inv(s) && Resolvable(s) && Runnable(s) && AllEnabled(s, steps)
    ensures Trace(s, steps) == EagerTrace(Privatised(s), steps)
  {
    PrivatisedSimulates(s);
    RunSimulates(s, Privatised(s), steps);
  }
}
