/** Copy-on-write memory as values: the state and one function for each kernel or hardware step.

    Frames are named by the index of their descriptor in the `page` array; `page_index`, which the
    allocator adds and `get_page_frame_descriptor` subtracts, cancels. The page tables of all
    processes are one map from (process, virtual page) to entry: module PteWords shows that the kernel's
    edits of page-table words are updates of such a map. */
module CowModel {
  import opened Addresses
  import opened Options

  type Byte = bv8
  /** A page's bytes by offset; an offset without an entry holds zero. */
  type Page = map<nat, Byte>

  const ZERO_PAGE: Page := map[]
  /** Frames below 32 MB belong to the kernel's direct map. */
  const FIRST_USER_FRAME: nat := 8192
  const HEAP: nat := 2

  /** A leaf entry: frame number and the bits PTE_P, PTE_W, PTE_U and PTE_COW. */
  datatype Pte = Pte(frame: nat, present: bool, writable: bool, user: bool, cow: bool)
  datatype Slot = Slot(pid: nat, page: nat)
  /** A present upper-level entry: level 4 is a PML4 entry, 3 a PDPT entry, 2 a PDT entry. */
  datatype Dir = Dir(pid: nat, level: nat, index: nat)
  datatype Vma = Vma(start: nat, end: nat, writable: bool)
  datatype Mm = Mm(vmas: seq<Vma>, brk: nat)
  datatype Desc = Desc(used: bool, refCount: int)

  datatype State = State(
    cur: nat,
    mms: map<nat, Mm>,
    pte: map<Slot, Pte>,
    dirs: set<Dir>,
    desc: seq<Desc>,
    data: seq<Page>,
    tlb: map<nat, Pte>,
    tableFrames: set<nat>,
    /** Upper-level entries whose tables the fault handler took from above the kernel's direct map. */
    high: set<Dir>,
    /** The process whose PML4 global_PML4 points at: map_virmem_to_phymem edits its tables. */
    target: nat)

  function ByteAt(p: Page, i: nat): Byte {
    if i in p then p[i] else 0
  }

  function Put(p: Page, i: nat, b: Byte): Page {
    p[i := b]
  }

  // ----- frames -----

  /** The first free descriptor at or after i. */
  function FirstFree(desc: seq<Desc>, i: nat): (r: nat)
    requires i <= |desc|
    ensures i <= r <= |desc|
    ensures r < |desc| ==> !desc[r].used
    ensures forall k {:trigger desc[k]} :: i <= k < r ==> desc[k].used
    decreases |desc| - i
  {
    if i == |desc| || !desc[i].used then i else FirstFree(desc, i + 1)
  }

  function FreeFrames(desc: seq<Desc>): set<nat> {
    set i | FIRST_USER_FRAME <= i < |desc| && !desc[i].used
  }

  function NextFrame(s: State): nat
    requires FIRST_USER_FRAME <= |s.desc|
  {
    FirstFree(s.desc, FIRST_USER_FRAME)
  }

  predicate CanAllocate(s: State) {
    && |s.desc| == |s.data|
    && FIRST_USER_FRAME <= |s.desc|
    && NextFrame(s) < |s.desc|
  }

  /** allocate_page_user: mark the first free frame used, with reference count 0. */
  function Allocate(s: State): State
    requires CanAllocate(s)
  {
    s.(desc := s.desc[NextFrame(s) := Desc(true, 0)])
  }

  // ----- regions -----

  predicate Contains(vma: Vma, a: nat) {
    vma.start <= a < vma.end
  }

  /** The page holds an address of the region. */
  predicate Meets(vma: Vma, page: nat) {
    vma.start < vma.end && vma.start / PAGE_SIZE <= page <= (vma.end - 1) / PAGE_SIZE
  }

  /** in_vma: the first region of the chain that contains the address. */
  function InVma(vmas: seq<Vma>, a: nat): (r: Option<Vma>)
    ensures r.Some? ==> r.value in vmas && Contains(r.value, a)
    ensures r.None? ==> forall vma :: vma in vmas ==> !Contains(vma, a)
  {
    if vmas == [] then None
    else if Contains(vmas[0], a) then Some(vmas[0])
    else InVma(vmas[1..], a)
  }

  /** One past the last page that set_child_pt visits for a region: the region's end rounded up,
      and one page more for the last region, whose guard page lies above the stack. */
  function PageLimit(vma: Vma, last: bool): nat {
    (vma.end + PAGE_SIZE - 1) / PAGE_SIZE + (if last then 1 else 0)
  }

  function PageRange(from: nat, limit: nat): (r: seq<nat>)
    ensures forall v :: v in r <==> from <= v < limit
    decreases limit
  {
    if from >= limit then [] else PageRange(from, limit - 1) + [limit - 1]
  }

  /** The pages set_child_pt visits, in order. */
  function ForkPages(vmas: seq<Vma>): seq<nat> {
    if vmas == [] then []
    else PageRange(vmas[0].start / PAGE_SIZE, PageLimit(vmas[0], |vmas| == 1)) + ForkPages(vmas[1..])
  }

  // ----- page tables -----

  function DirIndex(level: nat, page: nat): nat {
    if level == 2 then page / 0x200 else if level == 3 then page / 0x4_0000 else page / 0x800_0000
  }

  function DirOf(pid: nat, level: nat, page: nat): Dir {
    Dir(pid, level, DirIndex(level, page))
  }

  predicate HasTables(s: State, pid: nat, page: nat) {
    DirOf(pid, 4, page) in s.dirs && DirOf(pid, 3, page) in s.dirs && DirOf(pid, 2, page) in s.dirs
  }

  function WithTables(dirs: set<Dir>, pid: nat, page: nat): set<Dir> {
    dirs + {DirOf(pid, 4, page), DirOf(pid, 3, page), DirOf(pid, 2, page)}
  }

  /** The handler's test-and-allocate for one upper level, through the recursive window. */
  function EnsureTable(s: State, level: nat, page: nat): State
    requires CanAllocate(s)
  {
    var d := DirOf(s.cur, level, page);
    if d in s.dirs then s
    else
      Allocate(s).(dirs := s.dirs + {d}, tableFrames := s.tableFrames + {NextFrame(s)}, high := s.high + {d})
  }

  /** A new frame with the given content, mapped present, user and as writable as asked. */
  function MapFresh(s: State, page: nat, content: Page, writable: bool): State
    requires CanAllocate(s)
  {
    var f := NextFrame(s);
    Allocate(s).(
      data := s.data[f := content],
      pte := s.pte[Slot(s.cur, page) := Pte(f, true, writable, true, false)])
  }

  // ----- the page fault handler -----

  /** Bits 0, 1 and 2 of the page-fault error code. */
  datatype PfErr = PfErr(present: bool, write: bool, user: bool)
  datatype Outcome = Resolved | Killed | Panic

  /** Three upper levels at most, each taking a frame. */
  predicate RoomForFault(s: State) {
    |s.desc| == |s.data| && FIRST_USER_FRAME <= |s.desc| && |FreeFrames(s.desc)| >= 4
  }

  function Flush(s: State): State {
    s.(tlb := map[])
  }

  function EnsureTables(s: State, page: nat): State
    requires CanAllocate(s)
    requires CanAllocate(EnsureTable(s, 4, page))
    requires CanAllocate(EnsureTable(EnsureTable(s, 4, page), 3, page))
  {
    EnsureTable(EnsureTable(EnsureTable(s, 4, page), 3, page), 2, page)
  }

  predicate RoomForTables(s: State, page: nat) {
    && CanAllocate(s)
    && CanAllocate(EnsureTable(s, 4, page))
    && CanAllocate(EnsureTable(EnsureTable(s, 4, page), 3, page))
    && CanAllocate(EnsureTables(s, page))
  }

  /** Not present: build the missing tables, then map a zero frame as the region permits. */
  function DemandPage(s: State, page: nat, writable: bool): State
    requires RoomForTables(s, page)
  {
    var t := EnsureTables(s, page);
    if Slot(s.cur, page) in s.pte then t
    else MapFresh(t, page, ZERO_PAGE, writable)
  }

  /** A write to a copy-on-write page: re-grant it if the frame is not shared any more, else copy. */
  function BreakCow(s: State, page: nat): State
    requires CanAllocate(s) && Slot(s.cur, page) in s.pte
    requires s.pte[Slot(s.cur, page)].frame < |s.desc|
  {
    var src := s.pte[Slot(s.cur, page)].frame;
    if s.desc[src].refCount == 0 then
      s.(pte := s.pte[Slot(s.cur, page) := Pte(src, true, true, true, false)])
    else
      var t := MapFresh(s, page, s.data[src], true);
      t.(desc := t.desc[src := t.desc[src].(refCount := t.desc[src].refCount - 1)])
  }

  predicate FramesInRange(s: State) {
    forall k {:trigger s.pte[k]} :: k in s.pte ==> s.pte[k].frame < |s.desc|
  }

  function Fault(s: State, a: nat, err: PfErr): (State, Outcome)
    requires s.cur in s.mms && FramesInRange(s)
    requires CanAllocate(s) && RoomForTables(s, a / PAGE_SIZE)
  {
    var page := a / PAGE_SIZE;
    match InVma(s.mms[s.cur].vmas, a)
    case None => (Flush(s), if err.user then Killed else Panic)
    case Some(vma) =>
      if !err.present then
        (Flush(DemandPage(s, page, vma.writable)), Resolved)
      else if err.write && vma.writable && Slot(s.cur, page) in s.pte && s.pte[Slot(s.cur, page)].cow then
        (Flush(BreakCow(s, page)), Resolved)
      else
        (Flush(s), Killed)
  }

  // ----- user accesses through the TLB -----

  function Translate(s: State, page: nat): Option<Pte> {
    if page in s.tlb then Some(s.tlb[page])
    else if Slot(s.cur, page) in s.pte && s.pte[Slot(s.cur, page)].present then Some(s.pte[Slot(s.cur, page)])
    else None
  }

  datatype Attempt = Hit(entry: Pte) | Miss(err: PfErr)

  /** One user-mode attempt to reach an address. */
  function Try(s: State, a: nat, write: bool): Attempt {
    match Translate(s, a / PAGE_SIZE)
    case None => Miss(PfErr(false, write, true))
    case Some(e) =>
      if e.user && (write ==> e.writable) then Hit(e) else Miss(PfErr(true, write, true))
  }

  datatype Result = Granted(s: State, entry: Pte, faults: nat) | Denied(s: State, faults: nat) | Stuck(s: State)

  /** The access and its faults: the instruction is retried after each fault the handler resolves. */
  function Access(s: State, a: nat, write: bool, faults: nat): Result
    requires faults <= 2
    decreases 2 - faults
  {
    match Try(s, a, write)
    case Hit(e) => Granted(s, e, faults)
    case Miss(err) =>
      if faults == 2 || !Ready(s, a) then Stuck(s)
      else
        var (t, outcome) := Fault(s, a, err);
        if outcome == Resolved then Access(t, a, write, faults + 1) else Denied(t, faults + 1)
  }

  /** What the handler needs to run: a current process and a free frame for each allocation. */
  predicate Ready(s: State, a: nat) {
    s.cur in s.mms && FramesInRange(s) && CanAllocate(s) && RoomForTables(s, a / PAGE_SIZE)
  }

  // ----- fork -----

  function MarkCow(e: Pte): Pte {
    e.(writable := false, cow := true)
  }

  /** One round of set_child_pt's inner loop. */
  function ForkPage(s: State, child: nat, page: nat): State
    requires FramesInRange(s)
  {
    var k := Slot(s.cur, page);
    if k !in s.pte then s
    else
      var e := MarkCow(s.pte[k]);
      s.(pte := s.pte[k := e][Slot(child, page) := e],
         dirs := WithTables(s.dirs, child, page),
         desc := s.desc[e.frame := s.desc[e.frame].(refCount := s.desc[e.frame].refCount + 1)])
  }

  function ForkLoop(s: State, child: nat, pages: seq<nat>): (t: State)
    requires FramesInRange(s)
    ensures FramesInRange(t) && t.cur == s.cur && t.mms == s.mms && t.data == s.data && |t.desc| == |s.desc|
    ensures t.tlb == s.tlb && t.tableFrames == s.tableFrames && t.high == s.high && t.target == s.target
  {
    if pages == [] then s
    else ForkPage(ForkLoop(s, child, pages[..|pages| - 1]), child, pages[|pages| - 1])
  }

  /** copy_mm and set_child_pt, which leaves global_PML4 at the child's root. */
  function Fork(s: State, child: nat): State
    requires s.cur in s.mms && FramesInRange(s)
  {
    var t := s.(mms := s.mms[child := s.mms[s.cur]], target := child);
    Flush(ForkLoop(t, child, ForkPages(s.mms[s.cur].vmas)))
  }

  // ----- sbrk -----

  /** The 32-bit page mask 0xfffff000 applied to a 64-bit sum. */
  function Mask32(x: nat): nat {
    x % 0x1_0000_0000 / PAGE_SIZE * PAGE_SIZE
  }

  datatype SbrkResult = Unchanged(at: nat) | Grown(at: nat, mm: Mm) | Refused

  /** do_sbrk. Sums are uint64_t sums. */
  function Sbrk(mm: Mm, size: nat): SbrkResult
    requires HEAP < |mm.vmas|
  {
    var oldbrk := Mask32((mm.brk + 0xfff) % 0x1_0000_0000_0000_0000);
    var newbrk := Mask32((mm.brk + size + 0xfff) % 0x1_0000_0000_0000_0000);
    if oldbrk == newbrk then Unchanged(oldbrk)
    else if size < BRK_LIMIT then
      Grown(mm.brk, Mm(mm.vmas[HEAP := mm.vmas[HEAP].(end := newbrk)], newbrk))
    else Refused
  }

  // ----- exec -----

  /** Pages replaced by fresh frames with given contents: umalloc and the copies of load_elf, and
      the new stack page. */
  function MapImage(s: State, image: seq<(nat, Page)>): State
    requires |s.desc| == |s.data| && FIRST_USER_FRAME <= |s.desc|
    decreases |image|
  {
    if image == [] || !CanAllocate(s) then s
    else MapImage(MapFresh(s, image[0].0, image[0].1, true).(dirs := WithTables(s.dirs, s.cur, image[0].0)), image[1..])
  }

  /** map_virmem_to_phymem reaches the tables on the page's path through the direct map. */
  predicate DirectPath(high: set<Dir>, pid: nat, page: nat) {
    DirOf(pid, 4, page) !in high && DirOf(pid, 3, page) !in high && DirOf(pid, 2, page) !in high
  }

  /** umalloc for the process global_PML4 names: another one than the running process, perhaps. */
  function MapFor(s: State, pid: nat, image: seq<(nat, Page)>): State
    requires |s.desc| == |s.data| && FIRST_USER_FRAME <= |s.desc|
  {
    MapImage(s.(cur := pid), image).(cur := s.cur)
  }

  function ZeroImage(pages: seq<nat>): (r: seq<(nat, Page)>)
    ensures |r| == |pages|
    ensures forall i {:trigger r[i]} :: 0 <= i < |r| ==> r[i] == (pages[i], ZERO_PAGE)
  {
    if pages == [] then [] else [(pages[0], ZERO_PAGE)] + ZeroImage(pages[1..])
  }

  /** umalloc with global_PML4 at another process's root. If that process has been reaped, its tables are
      no one's any more and the frames are lost. */
  function MapElsewhere(s: State, pages: seq<nat>): State
    requires |s.desc| == |s.data| && FIRST_USER_FRAME <= |s.desc| && s.cur in s.mms
  {
    if s.target in s.mms then MapFor(s, s.target, ZeroImage(pages))
    else ReapProcess(MapFor(s.(mms := s.mms[s.target := s.mms[s.cur]]), s.target, ZeroImage(pages)), s.target)
  }

  // ----- reap -----

  function EntriesExcept(pte: map<Slot, Pte>, pid: nat): map<Slot, Pte> {
    map k | k in pte && k.pid != pid :: pte[k]
  }

  function DirsExcept(dirs: set<Dir>, pid: nat): set<Dir> {
    set d | d in dirs && d.pid != pid
  }

  /** clean_dead frees the mm and the region chain; tables and frames are forgotten, not recycled. */
  function ReapProcess(s: State, pid: nat): State {
    s.(mms := s.mms - {pid}, pte := EntriesExcept(s.pte, pid), dirs := DirsExcept(s.dirs, pid),
       high := DirsExcept(s.high, pid))
  }

  // ----- runs -----

  /** DoExec is an exec whose umalloc edits the running process's tables. Remap, MapElse and SetRegions are
      the parts of one whose umalloc edits another's: the stack page, the mappings, and the regions in the
      end; what memcpy and memset then write goes to the caller's old pages and is a series of stores. */
  datatype Step =
    | Load(a: nat, cache: bool)
    | Store(a: nat, b: Byte, cache: bool)
    | DoFork(child: nat)
    | Switch(pid: nat)
    | DoSbrk(size: nat)
    | DoExec(image: seq<(nat, Page)>, mm: Mm)
    | Reap(pid: nat)
    | Remap(page: nat, content: Page)
    | MapElse(pages: seq<nat>)
    | SetRegions(mm: Mm)

  datatype Obs = Saw(b: Byte) | Done | Segv | Hang

  /** After an access the TLB may have kept the translation or dropped it. */
  function MayCache(s: State, page: nat, e: Pte, cache: bool): State {
    if cache then s.(tlb := s.tlb[page := e]) else s.(tlb := s.tlb - {page})
  }

  predicate Runnable(s: State) {
    FramesInRange(s) && |s.desc| == |s.data| && FIRST_USER_FRAME <= |s.desc| && s.cur in s.mms
  }

  function Next(s: State, step: Step): (State, Obs)
    requires Runnable(s)
  {
    match step
    case Load(a, cache) =>
      (match Access(s, a, false, 0)
       case Granted(t, e, _) =>
         if e.frame < |t.data| then (MayCache(t, a / PAGE_SIZE, e, cache), Saw(ByteAt(t.data[e.frame], a % PAGE_SIZE)))
         else (t, Hang)
       case Denied(t, _) => (t, Segv)
       case Stuck(t) => (t, Hang))
    case Store(a, b, cache) =>
      (match Access(s, a, true, 0)
       case Granted(t, e, _) =>
         if e.frame < |t.data| then
           var data := t.data[e.frame := Put(t.data[e.frame], a % PAGE_SIZE, b)];
           (MayCache(t, a / PAGE_SIZE, e, cache).(data := data), Done)
         else (t, Hang)
       case Denied(t, _) => (t, Segv)
       case Stuck(t) => (t, Hang))
    case DoFork(child) => (Fork(s, child), Done)
    case Switch(pid) => (s.(cur := pid, tlb := map[]), Done)
    case DoSbrk(size) =>
      if HEAP >= |s.mms[s.cur].vmas| then (s, Hang)
      else
        (match Sbrk(s.mms[s.cur], size)
         case Grown(_, mm) => (s.(mms := s.mms[s.cur := mm]), Done)
         case _ => (s, Done))
    case DoExec(image, mm) => (Flush(MapImage(s, image)).(mms := s.mms[s.cur := mm]), Done)
    case Reap(pid) => (ReapProcess(s, pid), Done)
    case Remap(page, content) => (Flush(MapImage(s, [(page, content)])), Done)
    case MapElse(pages) => (MapElsewhere(s, pages), Done)
    case SetRegions(mm) => (s.(mms := s.mms[s.cur := mm]), Done)
  }

  function Run(s: State, steps: seq<Step>): State
    decreases |steps|
  {
    if steps == [] || !Runnable(s) then s else Run(Next(s, steps[0]).0, steps[1..])
  }

  /** What the user programs observe along a run. */
  function Trace(s: State, steps: seq<Step>): seq<Obs>
    decreases |steps|
  {
    if steps == [] || !Runnable(s) then []
    else [Next(s, steps[0]).1] + Trace(Next(s, steps[0]).0, steps[1..])
  }
}
