/** kmalloc's seven pools of kernel pages, and who holds a slot of which pool: tasks in the run ring hold
    a TASK and a KSTACK slot, address spaces an MM slot, regions a VMA slot. */
module Pools {
  import opened Addresses
  import opened Options
  import CowModel

  const KERNPT: nat := 0
  const TASK: nat := 1
  const KSTACK: nat := 2
  const MM: nat := 3
  const USERPT: nat := 4
  const VMA: nat := 5
  const FILE: nat := 6
  const FLAGS: nat := 7
  /** PS_NO: how many tasks do_ps has room for. */
  const PS_NO: nat := 128

  /** The page tables of every new address space: the root, and the tables map_kernel builds below it. */
  const FORK_TABLES: nat := 19

  type Bitmaps = seq<seq<bool>>

  function PoolSize(flag: nat): nat {
    if flag == USERPT || flag == VMA then 1280 else 128
  }

  /** How many pages lie below the pool in the kmalloc area. */
  function PagesBelow(flag: nat): nat {
    if flag == 0 then 0 else PagesBelow(flag - 1) + PoolSize(flag - 1)
  }

  /** get_base. */
  function PoolBase(kernptBase: nat, flag: nat): nat {
    kernptBase + PagesBelow(flag) * PAGE_SIZE
  }

  /** The page of a slot. */
  function PageAt(kernptBase: nat, flag: nat, i: nat): nat {
    PoolBase(kernptBase, flag) + i * PAGE_SIZE
  }

  /** What kmalloc returns for a slot: for a stack the address above its page. */
  function Pointer(kernptBase: nat, flag: nat, i: nat): nat {
    PageAt(kernptBase, flag, i) + (if flag == KSTACK then PAGE_SIZE else 0)
  }

  // ----- pages never overlap -----

  lemma {:induction false} PoolsAreOrdered(f: nat, g: nat)
    requires f < g
    ensures PagesBelow(f) + PoolSize(f) <= PagesBelow(g)
    decreases g
  {
    if f < g - 1 {
      PoolsAreOrdered(f, g - 1);
    }
  }

  /** The seven pools lie end to end and fill 3200 pages: an address belongs to some slot exactly if it lies
      there. */
  lemma PoolsTile(kernptBase: nat, a: nat)
    ensures PoolBase(kernptBase, TASK) == kernptBase + 0x8_0000
            && PoolBase(kernptBase, KSTACK) == kernptBase + 0x10_0000
            && PoolBase(kernptBase, MM) == kernptBase + 0x18_0000
              && PoolBase(kernptBase, USERPT) == kernptBase + 0x20_0000
            && PoolBase(kernptBase, VMA) == kernptBase + 0x70_0000
              && PoolBase(kernptBase, FILE) == kernptBase + 0xC0_0000
    ensures (exists flag, i: nat :: 0 <= flag < FLAGS && i < PoolSize(flag)
               && PageAt(kernptBase, flag, i) <= a < PageAt(kernptBase, flag, i) + PAGE_SIZE)
            <==> kernptBase <= a < kernptBase + 0xC8_0000
  {
    forall flag: nat | flag < FLAGS
      ensures PagesBelow(flag) + PoolSize(flag) <= 3200
    {
      BelowAre();
    }
    BelowAre();
    if kernptBase <= a < kernptBase + 0xC8_0000 {
      var page := (a - kernptBase) / PAGE_SIZE;
      var flag := if page < 128 then 0 else if page < 256 then 1 else if page < 384 then 2 else if page < 512 then 3
                  else if page < 1792 then 4 else if page < 3072 then 5 else 6;
      var i: nat := page - PagesBelow(flag);
      assert PageAt(kernptBase, flag, i) == kernptBase + page * PAGE_SIZE;
      assert i < PoolSize(flag);
    }
  }

  lemma BelowAre()
    ensures PagesBelow(0) == 0 && PagesBelow(1) == 128 && PagesBelow(2) == 256 && PagesBelow(3) == 384
            && PagesBelow(4) == 512 && PagesBelow(5) == 1792 && PagesBelow(6) == 3072 && PagesBelow(7) == 3200
  {
    assert PagesBelow(4) == PagesBelow(3) + 128;
    assert PagesBelow(7) == PagesBelow(6) + 128;
  }

  /** The pages of two slots, of one pool or of two, have no address in common. */
  lemma PagesAreDisjoint(kernptBase: nat, f: nat, i: nat, g: nat, j: nat)
    requires i < PoolSize(f) && j < PoolSize(g) && (f, i) != (g, j)
    ensures var p, q := PageAt(kernptBase, f, i), PageAt(kernptBase, g, j); p + PAGE_SIZE <= q || q + PAGE_SIZE <= p
  {
    if f < g {
      PoolsAreOrdered(f, g);
    } else if g < f {
      PoolsAreOrdered(g, f);
    }
    hide PoolSize, PagesBelow;
  }

  /** kfree's page and bitmap position are the slot that kmalloc returned the pointer for. */
  lemma PointerGivesSlot(kernptBase: nat, flag: nat, i: nat)
    requires flag < FLAGS && i < PoolSize(flag)
    ensures var page := Pointer(kernptBase, flag, i) - (if flag == KSTACK then PAGE_SIZE else 0);
            page == PageAt(kernptBase, flag, i) && (page - PoolBase(kernptBase, flag)) / PAGE_SIZE == i
  {
    hide PagesBelow, PoolSize;
  }

  /** Within a pool the pointer identifies the slot; across pools it need not, for the top of the last
      stack is the address of the first mm_struct. */
  lemma PointersCoincideIff(kernptBase: nat, f: nat, i: nat, g: nat, j: nat)
    requires f < FLAGS && g < FLAGS && f <= g && i < PoolSize(f) && j < PoolSize(g)
    ensures Pointer(kernptBase, f, i) == Pointer(kernptBase, g, j) <==>
            (f == g && i == j) || (f == KSTACK && g == MM && i == PoolSize(KSTACK) - 1 && j == 0)
  {
    assert PagesBelow(MM) == PagesBelow(KSTACK) + PoolSize(KSTACK);
    if f < g {
      PoolsAreOrdered(f, g);
      if g > f + 1 {
        PoolsAreOrdered(f, f + 1);
        PoolsAreOrdered(f + 1, g);
      }
    }
    hide PagesBelow;
  }

  // ----- bitmaps and their holders -----

  ghost predicate Shaped(b: Bitmaps) {
    |b| == FLAGS && forall flag {:trigger b[flag]} :: 0 <= flag < FLAGS ==> |b[flag]| == PoolSize(flag)
  }

  ghost function Held(bits: seq<bool>): set<nat> {
    set i | 0 <= i < |bits| && bits[i]
  }

  /** The occupied slots are those in the list, each once. */
  ghost predicate Accounts(bits: seq<bool>, slots: seq<nat>) {
    multiset(slots) == multiset(Held(bits))
  }

  lemma TakenAccounts(bits: seq<bool>, i: nat, slots: seq<nat>)
    requires i < |bits| && !bits[i] && Accounts(bits, slots)
    ensures Accounts(bits[i := true], slots + [i])
  {
    assert Held(bits[i := true]) == Held(bits) + {i};
    assert i !in Held(bits);
  }

  lemma FreedAccounts(bits: seq<bool>, i: nat, rest: seq<nat>)
    requires i < |bits| && Accounts(bits, [i] + rest)
    ensures bits[i] && Accounts(bits[i := false], rest)
  {
    assert ([i] + rest)[0] == i && i in multiset([i] + rest);
    assert i in multiset(Held(bits));
    assert Held(bits[i := false]) == Held(bits) - {i};
    assert multiset(rest) == multiset([i] + rest) - multiset{i};
    assert multiset(Held(bits) - {i}) == multiset(Held(bits)) - multiset{i};
  }

  lemma {:induction false} HeldIsBounded(n: nat, held: set<nat>)
    requires forall i :: i in held ==> i < n
    ensures |held| <= n
    decreases n
  {
    if n == 0 {
      assert held == {};
    } else {
      HeldIsBounded(n - 1, held - {n - 1});
    }
  }

  lemma AccountedSize(bits: seq<bool>, slots: seq<nat>)
    requires Accounts(bits, slots)
    ensures |slots| == |Held(bits)| <= |bits|
  {
    assert |multiset(slots)| == |slots|;
    assert |multiset(Held(bits))| == |Held(bits)|;
    HeldIsBounded(|bits|, Held(bits));
  }

  // ----- the tasks -----

  /** A task of the ring and the slots it stands for. */
  datatype Proc = Proc(pid: int, dead: bool, task: nat, stack: nat, mm: Option<nat>, vmas: seq<nat>)

  function SlotsOf(p: Proc, flag: nat): seq<nat> {
    if flag == TASK then [p.task]
    else if flag == KSTACK then [p.stack]
    else if flag == MM then (if p.mm.Some? then [p.mm.value] else [])
    else if flag == VMA then p.vmas
    else []
  }

  function AllSlots(ring: seq<Proc>, flag: nat): seq<nat> {
    if ring == [] then [] else SlotsOf(ring[0], flag) + AllSlots(ring[1..], flag)
  }

  /** These four pools are freed by clean_dead; page tables and open files are not its business. */
  predicate Tracked(flag: nat) {
    flag == TASK || flag == KSTACK || flag == MM || flag == VMA
  }

  /** Slot conservation. */
  ghost predicate Conserved(b: Bitmaps, ring: seq<Proc>) {
    Shaped(b) && forall flag {:trigger b[flag]} :: 0 <= flag < FLAGS && Tracked(flag) ==>
        Accounts(b[flag], AllSlots(ring, flag))
  }

  lemma {:induction false} AllSlotsConcat(a: seq<Proc>, b: seq<Proc>, flag: nat)
    ensures AllSlots(a + b, flag) == AllSlots(a, flag) + AllSlots(b, flag)
    decreases |a|
  {
    if a == [] {
      assert a + b == b;
    } else {
      assert (a + b)[1..] == a[1..] + b;
      AllSlotsConcat(a[1..], b, flag);
    }
  }

  /** Wherever a task is linked in, its slots are added. */
  lemma InsertSlots(ring: seq<Proc>, at: nat, p: Proc, flag: nat)
    requires at <= |ring|
    ensures multiset(AllSlots(ring[..at] + [p] + ring[at..], flag)) == multiset(AllSlots(ring, flag) + SlotsOf(p, flag))
  {
    var front, back := ring[..at], ring[at..];
    assert front + back == ring;
    OneTask(p, flag);
    AllSlotsConcat(front, back, flag);
    AllSlotsConcat(front + [p], back, flag);
    AllSlotsConcat(front, [p], flag);
    hide *;
    MoveToEnd(AllSlots(front, flag), SlotsOf(p, flag), AllSlots(back, flag));
  }

  lemma OneTask(p: Proc, flag: nat)
    ensures AllSlots([p], flag) == SlotsOf(p, flag)
  {
    assert AllSlots([p], flag) == SlotsOf(p, flag) + AllSlots([], flag);
  }

  lemma MoveToEnd(a: seq<nat>, b: seq<nat>, c: seq<nat>)
    ensures multiset((a + b) + c) == multiset((a + c) + b)
  {
  }

  lemma {:induction false} CountTasks(ring: seq<Proc>)
    ensures |AllSlots(ring, TASK)| == |ring| == |AllSlots(ring, KSTACK)|
    decreases |ring|
  {
    if ring != [] {
      CountTasks(ring[1..]);
    }
  }

  function SpacesIn(ring: seq<Proc>): nat {
    if ring == [] then 0 else (if ring[0].mm.Some? then 1 else 0) + SpacesIn(ring[1..])
  }

  function RegionsIn(ring: seq<Proc>): nat {
    if ring == [] then 0 else |ring[0].vmas| + RegionsIn(ring[1..])
  }

  lemma {:induction false} CountSpaces(ring: seq<Proc>)
    ensures |AllSlots(ring, MM)| == SpacesIn(ring) && |AllSlots(ring, VMA)| == RegionsIn(ring)
    decreases |ring|
  {
    if ring != [] {
      CountSpaces(ring[1..]);
    }
  }

  /** What conservation says in numbers; a ring of at most 128 tasks is all that do_ps has room for. */
  lemma ConservedCounts(b: Bitmaps, ring: seq<Proc>)
    requires Conserved(b, ring)
    ensures |Held(b[TASK])| == |Held(b[KSTACK])| == |ring| <= PS_NO
    ensures |Held(b[MM])| == SpacesIn(ring) && |Held(b[VMA])| == RegionsIn(ring)
  {
    CountTasks(ring);
    CountSpaces(ring);
    AccountedSize(b[TASK], AllSlots(ring, TASK));
    AccountedSize(b[KSTACK], AllSlots(ring, KSTACK));
    AccountedSize(b[MM], AllSlots(ring, MM));
    AccountedSize(b[VMA], AllSlots(ring, VMA));
  }

  /** Two tasks of the ring never share a slot. */
  lemma {:induction false} SlotsAreDistinct(bits: seq<bool>, slots: seq<nat>, i: nat, j: nat)
    requires Accounts(bits, slots) && i < j < |slots|
    ensures slots[i] != slots[j]
  {
    var a, b, c := slots[..i], slots[i + 1..j], slots[j + 1..];
    assert slots == a + [slots[i]] + b + [slots[j]] + c;
    assert multiset(slots)[slots[i]] >= 1 + (if slots[j] == slots[i] then 1 else 0);
    assert multiset(Held(bits))[slots[i]] <= 1;
  }

  /** The pools keep up with one more task. */
  ghost predicate Extended(b: Bitmaps, ring: seq<Proc>, p: Proc) {
    && Shaped(b)
    && forall flag {:trigger b[flag]} :: 0 <= flag < FLAGS && Tracked(flag) ==>
         Accounts(b[flag], AllSlots(ring, flag) + SlotsOf(p, flag))
  }

  lemma ExtendedIsConserved(b: Bitmaps, ring: seq<Proc>, at: nat, p: Proc)
    requires at <= |ring|
    ensures Extended(b, ring, p) <==> Conserved(b, ring[..at] + [p] + ring[at..])
  {
    forall flag: nat
      ensures multiset(AllSlots(ring[..at] + [p] + ring[at..], flag)) ==
              multiset(AllSlots(ring, flag) + SlotsOf(p, flag))
    {
      InsertSlots(ring, at, p, flag);
    }
    hide AllSlots, SlotsOf, Held, Tracked, Shaped;
  }

  lemma {:induction false} FewRegions(ring: seq<Proc>)
    requires forall p :: p in ring ==> |p.vmas| <= 10
    ensures RegionsIn(ring) <= 10 * |ring| && SpacesIn(ring) <= |ring|
    decreases |ring|
  {
    if ring != [] {
      FewRegions(ring[1..]);
    }
  }

  /** Room for one more task with n regions comes down to the length of the ring. */
  lemma RoomIsRing(b: Bitmaps, ring: seq<Proc>, n: nat)
    requires Conserved(b, ring) && n <= 10 && forall p :: p in ring ==> |p.vmas| <= 10
    ensures |AllSlots(ring, TASK)| == |AllSlots(ring, KSTACK)| == |ring| <= PoolSize(TASK) == PoolSize(KSTACK)
    ensures |ring| < PoolSize(TASK) ==>
              |AllSlots(ring, MM)| < PoolSize(MM) && |AllSlots(ring, VMA)| + n <= PoolSize(VMA)
  {
    ConservedCounts(b, ring);
    CountTasks(ring);
    CountSpaces(ring);
    FewRegions(ring);
  }

  /** The ring without its dead tasks. */
  function Alive(ring: seq<Proc>): seq<Proc> {
    if ring == [] then [] else (if ring[0].dead then [] else [ring[0]]) + Alive(ring[1..])
  }

  // ----- the operations as functions -----

  /** The first free slot at or after i. */
  function FirstClear(bits: seq<bool>, i: nat): (r: nat)
    requires i <= |bits|
    ensures i <= r <= |bits| && (r < |bits| ==> !bits[r])
    ensures forall k {:trigger bits[k]} :: i <= k < r ==> bits[k]
    decreases |bits| - i
  {
    if i == |bits| || !bits[i] then i else FirstClear(bits, i + 1)
  }

  function FreeSlot(b: Bitmaps, flag: nat): nat {
    if flag < |b| then FirstClear(b[flag], 0) else 0
  }

  /** Occupy the first free slot of a pool. */
  function Occupy(b: Bitmaps, flag: nat): Bitmaps {
    if flag < |b| && FreeSlot(b, flag) < |b[flag]| then b[flag := b[flag][FreeSlot(b, flag) := true]] else b
  }

  function Vacate(b: Bitmaps, flag: nat, i: nat): Bitmaps {
    if flag < |b| && i < |b[flag]| then b[flag := b[flag][i := false]] else b
  }

  /** The region slots of a new chain of n, and the bitmaps after taking them. */
  function ChainSlots(b: Bitmaps, n: nat): (r: seq<nat>)
    ensures |r| == n
    decreases n
  {
    if n == 0 then [] else [FreeSlot(b, VMA)] + ChainSlots(Occupy(b, VMA), n - 1)
  }

  function OccupyChain(b: Bitmaps, n: nat): Bitmaps
    decreases n
  {
    if n == 0 then b else OccupyChain(Occupy(b, VMA), n - 1)
  }

  function VacateChain(b: Bitmaps, v: seq<nat>): Bitmaps
    decreases |v|
  {
    if v == [] then b else VacateChain(Vacate(b, VMA, v[0]), v[1..])
  }

  /** The pools and the tasks from current on, in the order of next. */
  datatype Mem = Mem(bits: Bitmaps, ring: seq<Proc>)

  function Linked(m: Mem, p: Proc, at: nat): seq<Proc>
    requires at <= |m.ring|
  {
    m.ring[..at] + [p] + m.ring[at..]
  }

  function Thread(b: Bitmaps, pid: int): Proc {
    Proc(pid, false, FreeSlot(b, TASK), FreeSlot(b, KSTACK), None, [])
  }

  /** create_thread: no address space, until func_init makes one. */
  function CreateThread(m: Mem, pid: int, at: nat): Mem
    requires at <= |m.ring|
  {
    if |m.ring| >= PoolSize(TASK) then m
    else Mem(Occupy(Occupy(m.bits, TASK), KSTACK), Linked(m, Thread(m.bits, pid), at))
  }

  function WithSpace(p: Proc, b: Bitmaps, n: nat): Proc {
    p.(mm := Some(FreeSlot(b, MM)), vmas := ChainSlots(b, n))
  }

  /** set_task_struct: an mm_struct and four regions for the running thread. */
  function SetTaskStruct(m: Mem): Mem
    requires m.ring != []
  {
    Mem(OccupyChain(Occupy(m.bits, MM), 4), [WithSpace(m.ring[0], m.bits, 4)] + m.ring[1..])
  }

  /** The slots of a child: it gets as many regions as its parent. */
  function ChildSlots(b: Bitmaps, n: nat): Bitmaps {
    OccupyChain(Occupy(Occupy(Occupy(b, TASK), KSTACK), MM), n)
  }

  function Child(m: Mem, pid: int): Proc
    requires m.ring != []
  {
    WithSpace(Thread(m.bits, pid), m.bits, |m.ring[0].vmas|)
  }

  /** n page tables, as far as there are any. */
  function TakeTables(b: Bitmaps, n: nat): Bitmaps
    decreases n
  {
    if n == 0 then b else TakeTables(Occupy(b, USERPT), n - 1)
  }

  ghost predicate TablesFit(b: Bitmaps, n: nat)
    requires |b| == FLAGS
  {
    |Held(b[USERPT])| + n <= PoolSize(USERPT)
  }

  /** The slots of do_fork, whose child needs that many page tables. If they run out kmalloc panics: the
      child is not linked in, and what it has taken stays taken. */
  ghost function DoFork(m: Mem, pid: int, at: nat, tables: nat): Mem
    requires |m.bits| == FLAGS && m.ring != [] && at <= |m.ring|
  {
    if |m.ring| >= PoolSize(TASK) then m
    else
      Mem(TakeTables(ChildSlots(m.bits, |m.ring[0].vmas|), tables),
          if TablesFit(m.bits, tables) then Linked(m, Child(m, pid), at) else m.ring)
  }

  /** umalloc's page tables. */
  function WithTables(m: Mem, tables: nat): Mem {
    m.(bits := TakeTables(m.bits, tables))
  }

  /** What clean_dead frees with a task. */
  function Buried(b: Bitmaps, p: Proc): Bitmaps {
    var c := VacateChain(Vacate(b, KSTACK, p.stack), p.vmas);
    Vacate(if p.mm.Some? then Vacate(c, MM, p.mm.value) else c, TASK, p.task)
  }

  /** clean_dead behind position c. */
  function CleanFrom(m: Mem, c: nat): Mem
    decreases |m.ring| - c
  {
    if c + 1 >= |m.ring| then m
    else if m.ring[c + 1].dead then CleanFrom(Mem(Buried(m.bits, m.ring[c + 1]), m.ring[..c + 1] + m.ring[c + 2..]), c)
    else CleanFrom(m, c + 1)
  }

  /** schedule moves current along the ring. */
  function Rotated(m: Mem, k: nat): Mem
    requires k <= |m.ring|
  {
    m.(ring := m.ring[k..] + m.ring[..k])
  }

  /** A task's state becomes DEAD, or something else. */
  function Marked(m: Mem, i: nat, dead: bool): Mem
    requires i < |m.ring|
  {
    m.(ring := m.ring[i := m.ring[i].(dead := dead)])
  }

  // ----- they conserve the slots -----

  lemma OccupyKeeps(b: Bitmaps, flag: nat, slots: seq<nat>)
    requires Shaped(b) && flag < FLAGS && Accounts(b[flag], slots) && |slots| < PoolSize(flag)
    ensures Shaped(Occupy(b, flag)) && FreeSlot(b, flag) < PoolSize(flag)
    ensures Accounts(Occupy(b, flag)[flag], slots + [FreeSlot(b, flag)])
  {
    AccountedSize(b[flag], slots);
    if FreeSlot(b, flag) == |b[flag]| {
      FullSize(b[flag]);
    }
    TakenAccounts(b[flag], FreeSlot(b, flag), slots);
    hide Accounts, Held;
  }

  lemma OccupyElsewhere(b: Bitmaps, flag: nat, g: nat)
    requires Shaped(b) && g < FLAGS && g != flag
    ensures Shaped(Occupy(b, flag)) && Occupy(b, flag)[g] == b[g] && FreeSlot(Occupy(b, flag), g) == FreeSlot(b, g)
  {
  }

  lemma {:induction false} ChainKeeps(b: Bitmaps, n: nat, slots: seq<nat>)
    requires Shaped(b) && Accounts(b[VMA], slots) && |slots| + n <= PoolSize(VMA)
    ensures Shaped(OccupyChain(b, n)) && Accounts(OccupyChain(b, n)[VMA], slots + ChainSlots(b, n))
    decreases n
  {
    if n == 0 {
      NoSlots(slots);
    } else {
      OccupyKeeps(b, VMA, slots);
      hide Accounts, Occupy, FreeSlot, PoolSize, Shaped;
      var c, x := Occupy(b, VMA), FreeSlot(b, VMA);
      ChainKeeps(c, n - 1, slots + [x]);
      assert ChainSlots(b, n) == [x] + ChainSlots(c, n - 1);
      hide ChainSlots, OccupyChain;
      Regroup(slots, [x], ChainSlots(c, n - 1));
      assert OccupyChain(b, n) == OccupyChain(c, n - 1) by {
        ChainUnfolds(b, n);
      }
    }
  }

  lemma ChainUnfolds(b: Bitmaps, n: nat)
    requires n > 0
    ensures OccupyChain(b, n) == OccupyChain(Occupy(b, VMA), n - 1)
  {
  }

  lemma Regroup(a: seq<nat>, b: seq<nat>, c: seq<nat>)
    ensures (a + b) + c == a + (b + c)
  {
  }

  lemma {:induction false} ChainElsewhere(b: Bitmaps, n: nat, g: nat)
    requires Shaped(b) && g < FLAGS && g != VMA
    ensures Shaped(OccupyChain(b, n)) && OccupyChain(b, n)[g] == b[g]
    decreases n
  {
    if n > 0 {
      OccupyElsewhere(b, VMA, g);
      ChainElsewhere(Occupy(b, VMA), n - 1, g);
    }
  }

  /** A chain's slots depend on the region pool only. */
  lemma {:induction false} ChainSlotsAgree(a: Bitmaps, b: Bitmaps, n: nat)
    requires Shaped(a) && Shaped(b) && a[VMA] == b[VMA]
    ensures ChainSlots(a, n) == ChainSlots(b, n)
    decreases n
  {
    if n > 0 {
      ChainSlotsAgree(Occupy(a, VMA), Occupy(b, VMA), n - 1);
    }
  }

  lemma CreateKeeps(m: Mem, pid: int, at: nat)
    requires Conserved(m.bits, m.ring) && at <= |m.ring|
    ensures Conserved(CreateThread(m, pid, at).bits, CreateThread(m, pid, at).ring)
  {
    if |m.ring| < PoolSize(TASK) {
      var b, ring, p := m.bits, m.ring, Thread(m.bits, pid);
      var b1 := Occupy(b, TASK);
      var b2 := Occupy(b1, KSTACK);
      ThreadKeeps(b, ring);
      NoSlots(AllSlots(ring, MM));
      NoSlots(AllSlots(ring, VMA));
      hide Accounts, AllSlots, Occupy, FreeSlot, Shaped, PoolSize;
      IsExtended(b2, ring, p);
      ExtendedIsConserved(b2, ring, at, p);
    }
  }

  /** A task and a stack slot more; the other pools as before. */
  lemma ThreadKeeps(b: Bitmaps, ring: seq<Proc>)
    requires Conserved(b, ring) && |ring| < PoolSize(TASK)
    ensures var c := Occupy(Occupy(b, TASK), KSTACK);
            && Shaped(b) && Shaped(c)
            && Accounts(c[TASK], AllSlots(ring, TASK) + [FreeSlot(b, TASK)])
            && Accounts(c[KSTACK], AllSlots(ring, KSTACK) + [FreeSlot(b, KSTACK)])
            && Accounts(c[MM], AllSlots(ring, MM)) && Accounts(c[VMA], AllSlots(ring, VMA))
            && c[MM] == b[MM] && c[VMA] == b[VMA] && FreeSlot(c, MM) == FreeSlot(b, MM)
  {
    PoolsOf(b, ring);
    ThreadRoom(ring);
    OccupyKeeps(b, TASK, AllSlots(ring, TASK));
    var b1 := Occupy(b, TASK);
    OccupyElsewhere(b, TASK, KSTACK);
    OccupyElsewhere(b, TASK, MM);
    OccupyElsewhere(b, TASK, VMA);
    OccupyKeeps(b1, KSTACK, AllSlots(ring, KSTACK));
    OccupyElsewhere(b1, KSTACK, TASK);
    OccupyElsewhere(b1, KSTACK, MM);
    OccupyElsewhere(b1, KSTACK, VMA);
    hide Accounts, AllSlots, Occupy, FreeSlot, Shaped, Held;
  }

  /** An mm_struct and n regions more; the other pools as before. */
  lemma SpaceKeeps(b: Bitmaps, n: nat, mms: seq<nat>, vmas: seq<nat>)
    requires Shaped(b) && Accounts(b[MM], mms) && Accounts(b[VMA], vmas)
    requires |mms| < PoolSize(MM) && |vmas| + n <= PoolSize(VMA)
    ensures var c := OccupyChain(Occupy(b, MM), n);
            && Shaped(c) && Accounts(c[MM], mms + [FreeSlot(b, MM)]) && Accounts(c[VMA], vmas + ChainSlots(b, n))
            && c[TASK] == b[TASK] && c[KSTACK] == b[KSTACK]
  {
    var b1 := Occupy(b, MM);
    OccupyKeeps(b, MM, mms);
    OccupyElsewhere(b, MM, VMA);
    OccupyElsewhere(b, MM, TASK);
    OccupyElsewhere(b, MM, KSTACK);
    ChainKeeps(b1, n, vmas);
    ChainElsewhere(b1, n, MM);
    ChainElsewhere(b1, n, TASK);
    ChainElsewhere(b1, n, KSTACK);
    ChainSlotsAgree(b, b1, n);
    hide Accounts, Occupy, FreeSlot, OccupyChain, ChainSlots, Held;
  }

  /** No task has more than ten regions. */
  ghost predicate Modest(ring: seq<Proc>) {
    forall p {:trigger p in ring} :: p in ring ==> |p.vmas| <= 10
  }

  // ----- page tables -----

  ghost function Above(level: nat, from: nat, n: nat): set<nat> {
    set p: nat | from <= p < from + n :: CowModel.DirIndex(level, p)
  }

  lemma NextDir(level: nat, p: nat)
    ensures CowModel.DirIndex(level, p) <= CowModel.DirIndex(level, p + 1) <= CowModel.DirIndex(level, p) + 1
  {
  }

  lemma AboveNext(level: nat, from: nat, n: nat)
    ensures Above(level, from, n + 1) == Above(level, from, n) + {CowModel.DirIndex(level, from + n)}
  {
    hide CowModel.DirIndex;
  }

  lemma OneMore(s: set<nat>, last: nat, next: nat)
    requires last in s && last <= next <= last + 1 && forall d :: d in s ==> d <= last
    ensures |s + {next}| == |s| + (next - last) && forall d :: d in s + {next} ==> d <= next
  {
    if next == last {
      assert s + {next} == s;
    }
  }

  lemma {:induction false} AboveCount(level: nat, from: nat, n: nat)
    requires n > 0
    ensures |Above(level, from, n)| == CowModel.DirIndex(level, from + n - 1) - CowModel.DirIndex(level, from) + 1
    ensures forall d :: d in Above(level, from, n) ==> d <= CowModel.DirIndex(level, from + n - 1)
    ensures CowModel.DirIndex(level, from + n - 1) in Above(level, from, n)
    decreases n
  {
    AboveNext(level, from, n - 1);
    if n == 1 {
      assert Above(level, from, 0) == {};
      hide CowModel.DirIndex;
    } else {
      hide Above, CowModel.DirIndex;
      AboveCount(level, from, n - 1);
      NextDir(level, from + n - 2);
      OneMore(Above(level, from, n - 1), CowModel.DirIndex(level, from + n - 2),
              CowModel.DirIndex(level, from + n - 1));
    }
  }

  /** map_kernel maps the 8192 pages of the direct map, from EXEC_SCRATCH on: with the root, 19 tables. */
  lemma KernelMapTables()
    ensures 1 + |Above(4, EXEC_SCRATCH, 8192)| + |Above(3, EXEC_SCRATCH, 8192)| + |Above(2, EXEC_SCRATCH, 8192)| ==
            FORK_TABLES
  {
    AboveCount(4, EXEC_SCRATCH, 8192);
    AboveCount(3, EXEC_SCRATCH, 8192);
    AboveCount(2, EXEC_SCRATCH, 8192);
  }

  lemma OccupyTable(b: Bitmaps)
    requires Shaped(b)
    ensures var c := Occupy(b, USERPT);
            && Shaped(c)
            && (FreeSlot(b, USERPT) < PoolSize(USERPT) <==> |Held(b[USERPT])| < PoolSize(USERPT))
            && |Held(c[USERPT])| == |Held(b[USERPT])| + (if FreeSlot(b, USERPT) < PoolSize(USERPT) then 1 else 0)
            && |Held(b[USERPT])| <= PoolSize(USERPT)
  {
    var bits, i := b[USERPT], FreeSlot(b, USERPT);
    HeldIsBounded(|bits|, Held(bits));
    if i < |bits| {
      assert Held(bits[i := true]) == Held(bits) + {i} && i !in Held(bits);
      HeldIsBounded(|bits|, Held(bits[i := true]));
    } else {
      FullSize(bits);
    }
  }

  /** Taking tables touches their own pool only, and takes as many as there are. */
  lemma {:induction false} TablesTaken(b: Bitmaps, n: nat)
    requires Shaped(b)
    ensures var c := TakeTables(b, n);
            && Shaped(c) && (forall g {:trigger c[g]} :: 0 <= g < FLAGS && g != USERPT ==> c[g] == b[g])
            && |Held(c[USERPT])| == if TablesFit(b, n) then |Held(b[USERPT])| + n else PoolSize(USERPT)
    decreases n
  {
    OccupyTable(b);
    if n > 0 {
      var c := Occupy(b, USERPT);
      TablesTaken(c, n - 1);
      forall g | 0 <= g < FLAGS && g != USERPT
        ensures c[g] == b[g]
      {
        OccupyElsewhere(b, USERPT, g);
      }
      hide Occupy, FreeSlot, Held, Shaped, TakeTables;
      TablesUnfold(b, n);
    }
  }

  lemma TablesUnfold(b: Bitmaps, n: nat)
    requires n > 0
    ensures TakeTables(b, n) == TakeTables(Occupy(b, USERPT), n - 1)
  {
  }

  lemma SameTracked(b: Bitmaps, c: Bitmaps, ring: seq<Proc>)
    requires Shaped(b) && Shaped(c) && forall g {:trigger c[g]} :: 0 <= g < FLAGS && g != USERPT ==> c[g] == b[g]
    ensures Conserved(c, ring) <==> Conserved(b, ring)
  {
    hide AllSlots, Accounts;
    assert forall g {:trigger b[g]} :: 0 <= g < FLAGS && Tracked(g) ==> c[g] == b[g];
  }

  /** umalloc's tables are of no concern to the tracked pools. */
  lemma TablesKeep(m: Mem, tables: nat)
    requires Conserved(m.bits, m.ring)
    ensures Conserved(WithTables(m, tables).bits, m.ring)
  {
    TablesTaken(m.bits, tables);
    SameTracked(m.bits, TakeTables(m.bits, tables), m.ring);
  }

  /** Neither a new thread, nor a new address space, nor clean_dead takes or gives back a page table. */
  lemma ThreadTables(m: Mem, pid: int, at: nat)
    requires Shaped(m.bits) && at <= |m.ring|
    ensures var r := CreateThread(m, pid, at); Shaped(r.bits) && r.bits[USERPT] == m.bits[USERPT]
  {
    OccupyElsewhere(m.bits, TASK, USERPT);
    OccupyElsewhere(Occupy(m.bits, TASK), KSTACK, USERPT);
    hide Occupy;
  }

  lemma SpaceTables(m: Mem)
    requires Shaped(m.bits) && m.ring != []
    ensures var r := SetTaskStruct(m); Shaped(r.bits) && r.bits[USERPT] == m.bits[USERPT]
  {
    OccupyElsewhere(m.bits, MM, USERPT);
    ChainElsewhere(Occupy(m.bits, MM), 4, USERPT);
    hide Occupy, OccupyChain, ChainSlots;
  }

  lemma BuryTables(b: Bitmaps, p: Proc)
    requires Shaped(b)
    ensures Shaped(Buried(b, p)) && Buried(b, p)[USERPT] == b[USERPT]
  {
    var b1 := Vacate(b, KSTACK, p.stack);
    VacateElsewhere(b, KSTACK, p.stack, USERPT);
    VacateChainElsewhere(b1, p.vmas, USERPT);
    var b2 := VacateChain(b1, p.vmas);
    var b3 := if p.mm.Some? then Vacate(b2, MM, p.mm.value) else b2;
    if p.mm.Some? {
      VacateElsewhere(b2, MM, p.mm.value, USERPT);
    }
    VacateElsewhere(b3, TASK, p.task, USERPT);
    hide Vacate, VacateChain;
  }

  lemma {:induction false} CleanTables(m: Mem, c: nat)
    requires Shaped(m.bits)
    ensures var r := CleanFrom(m, c); Shaped(r.bits) && r.bits[USERPT] == m.bits[USERPT]
    decreases |m.ring| - c
  {
    if c + 1 < |m.ring| {
      if m.ring[c + 1].dead {
        BuryTables(m.bits, m.ring[c + 1]);
        hide Buried, Shaped;
        CleanTables(Mem(Buried(m.bits, m.ring[c + 1]), m.ring[..c + 1] + m.ring[c + 2..]), c);
      } else {
        CleanTables(m, c + 1);
      }
    }
  }

  // ----- fork -----

  /** The child's slots, before its page tables. */
  lemma ChildIsExtended(m: Mem, pid: int)
    requires Conserved(m.bits, m.ring) && Modest(m.ring) && m.ring != [] && |m.ring| < PoolSize(TASK)
    ensures Extended(ChildSlots(m.bits, |m.ring[0].vmas|), m.ring, Child(m, pid))
    ensures ChildSlots(m.bits, |m.ring[0].vmas|)[USERPT] == m.bits[USERPT]
  {
    var b, ring, n := m.bits, m.ring, |m.ring[0].vmas|;
    assert ring[0] in ring;
    var c := Occupy(Occupy(b, TASK), KSTACK);
    RoomIsRing(b, ring, n);
    ThreadKeeps(b, ring);
    SpaceKeeps(c, n, AllSlots(ring, MM), AllSlots(ring, VMA));
    ChainSlotsAgree(b, c, n);
    OccupyElsewhere(b, TASK, USERPT);
    OccupyElsewhere(Occupy(b, TASK), KSTACK, USERPT);
    OccupyElsewhere(c, MM, USERPT);
    ChainElsewhere(Occupy(c, MM), n, USERPT);
    hide Accounts, AllSlots, Occupy, FreeSlot, Shaped, PoolSize, OccupyChain, ChainSlots;
    IsExtended(ChildSlots(b, n), ring, Child(m, pid));
  }

  /** Fork keeps the slots those of the ring's tasks, and with tables left it adds one task and its tables. */
  lemma ForkKeeps(m: Mem, pid: int, at: nat, tables: nat)
    requires Conserved(m.bits, m.ring) && Modest(m.ring) && m.ring != [] && at <= |m.ring|
    requires |m.ring| >= PoolSize(TASK) || TablesFit(m.bits, tables)
    ensures var r := DoFork(m, pid, at, tables);
            && Conserved(r.bits, r.ring)
            && |Held(r.bits[USERPT])| ==
               |Held(m.bits[USERPT])| + (if |m.ring| < PoolSize(TASK) then tables else 0)
  {
    if |m.ring| < PoolSize(TASK) {
      var d, p := ChildSlots(m.bits, |m.ring[0].vmas|), Child(m, pid);
      ChildIsExtended(m, pid);
      ExtendedParts(d, m.ring, p);
      ExtendedIsConserved(d, m.ring, at, p);
      TablesTaken(d, tables);
      SameTracked(d, TakeTables(d, tables), Linked(m, p, at));
      hide ChildSlots, Child, Extended, Conserved, TakeTables, Held;
    }
  }

  /** Fork loses slots if and only if there is room in the ring and the page tables run out. */
  lemma ForkKeepsIff(m: Mem, pid: int, at: nat, tables: nat)
    requires Conserved(m.bits, m.ring) && Modest(m.ring) && m.ring != [] && at <= |m.ring|
    ensures var r := DoFork(m, pid, at, tables);
            Conserved(r.bits, r.ring) <==> |m.ring| >= PoolSize(TASK) || TablesFit(m.bits, tables)
  {
    if |m.ring| >= PoolSize(TASK) || TablesFit(m.bits, tables) {
      ForkKeeps(m, pid, at, tables);
    } else {
      var d, p := ChildSlots(m.bits, |m.ring[0].vmas|), Child(m, pid);
      ChildIsExtended(m, pid);
      ExtendedParts(d, m.ring, p);
      TablesTaken(d, tables);
      SameTracked(d, TakeTables(d, tables), m.ring);
      CountTasks(m.ring);
      AccountedSize(d[TASK], AllSlots(m.ring, TASK) + [p.task]);
      hide ChildSlots, Child, Extended, TakeTables, AllSlots, Held;
      if Conserved(d, m.ring) {
        AccountedSize(d[TASK], AllSlots(m.ring, TASK));
      }
    }
  }

  lemma SetTaskStructKeeps(m: Mem)
    requires Conserved(m.bits, m.ring) && Modest(m.ring) && m.ring != [] && m.ring[0].mm.None? && m.ring[0].vmas == []
    ensures Conserved(SetTaskStruct(m).bits, SetTaskStruct(m).ring)
  {
    hide *;
    var b, p, rest := m.bits, m.ring[0], m.ring[1..];
    assert m.ring == rest[..0] + [p] + rest[0..];
    ExtendedIsConserved(b, rest, 0, p);
    ExtendedParts(b, rest, p);
    NoSlots(AllSlots(rest, MM));
    NoSlots(AllSlots(rest, VMA));
    SpaceRoom(b, m.ring);
    SpaceKeeps(b, 4, AllSlots(rest, MM), AllSlots(rest, VMA));
    var q := WithSpace(p, b, 4);
    WithSpaceIs(p, b, 4);
    var c := OccupyChain(Occupy(b, MM), 4);
    IsExtended(c, rest, q);
    ExtendedIsConserved(c, rest, 0, q);
    assert [q] + rest == rest[..0] + [q] + rest[0..];
    SetTaskStructIs(m);
  }

  lemma WithSpaceIs(p: Proc, b: Bitmaps, n: nat)
    ensures WithSpace(p, b, n) == p.(mm := Some(FreeSlot(b, MM)), vmas := ChainSlots(b, n))
  {
  }

  lemma SetTaskStructIs(m: Mem)
    requires m.ring != []
    ensures SetTaskStruct(m) == Mem(OccupyChain(Occupy(m.bits, MM), 4), [WithSpace(m.ring[0], m.bits, 4)] + m.ring[1..])
  {
    hide OccupyChain, Occupy, WithSpace;
  }

  /** There is room for the running thread's address space: the others leave some. */
  lemma SpaceRoom(b: Bitmaps, ring: seq<Proc>)
    requires Conserved(b, ring) && Modest(ring) && ring != [] && ring[0].mm.None?
    ensures |AllSlots(ring[1..], MM)| < PoolSize(MM) && |AllSlots(ring[1..], VMA)| + 4 <= PoolSize(VMA)
  {
    ConservedCounts(b, ring);
    CountSpaces(ring[1..]);
    assert forall p :: p in ring[1..] ==> p in ring;
    FewRegions(ring[1..]);
    hide AllSlots, RegionsIn, SpacesIn, Conserved, Held;
  }

  lemma VacateKeeps(b: Bitmaps, flag: nat, i: nat, rest: seq<nat>)
    requires Shaped(b) && flag < FLAGS && Accounts(b[flag], [i] + rest)
    ensures Shaped(Vacate(b, flag, i)) && Accounts(Vacate(b, flag, i)[flag], rest) && i < PoolSize(flag)
  {
    HeldSlot(b[flag], i, rest);
    FreedAccounts(b[flag], i, rest);
    hide Accounts;
  }

  lemma VacateElsewhere(b: Bitmaps, flag: nat, i: nat, g: nat)
    requires Shaped(b) && g < FLAGS && g != flag
    ensures Shaped(Vacate(b, flag, i)) && Vacate(b, flag, i)[g] == b[g]
  {
  }

  lemma {:induction false} VacateChainKeeps(b: Bitmaps, v: seq<nat>, rest: seq<nat>)
    requires Shaped(b) && Accounts(b[VMA], v + rest)
    ensures Shaped(VacateChain(b, v)) && Accounts(VacateChain(b, v)[VMA], rest)
    decreases |v|
  {
    if v == [] {
      assert v + rest == rest;
    } else {
      assert v + rest == [v[0]] + (v[1..] + rest);
      VacateKeeps(b, VMA, v[0], v[1..] + rest);
      hide Accounts, Vacate;
      VacateChainKeeps(Vacate(b, VMA, v[0]), v[1..], rest);
    }
  }

  lemma {:induction false} VacateChainElsewhere(b: Bitmaps, v: seq<nat>, g: nat)
    requires Shaped(b) && g < FLAGS && g != VMA
    ensures Shaped(VacateChain(b, v)) && VacateChain(b, v)[g] == b[g]
    decreases |v|
  {
    if v != [] {
      VacateElsewhere(b, VMA, v[0], g);
      VacateChainElsewhere(Vacate(b, VMA, v[0]), v[1..], g);
    }
  }

  /** Freeing what a task holds leaves the others accounted for. */
  lemma BuryKeeps(b: Bitmaps, ring: seq<Proc>, p: Proc)
    requires Extended(b, ring, p) && p.mm.Some?
    ensures Conserved(Buried(b, p), ring)
  {
    hide *;
    HeldFirst(b, ring, p);
    PoolNames();
    var b1 := Vacate(b, KSTACK, p.stack);
    VacateKeeps(b, KSTACK, p.stack, AllSlots(ring, KSTACK));
    VacateElsewhere(b, KSTACK, p.stack, TASK);
    VacateElsewhere(b, KSTACK, p.stack, MM);
    VacateElsewhere(b, KSTACK, p.stack, VMA);
    var b2 := VacateChain(b1, p.vmas);
    VacateChainKeeps(b1, p.vmas, AllSlots(ring, VMA));
    VacateChainElsewhere(b1, p.vmas, TASK);
    VacateChainElsewhere(b1, p.vmas, MM);
    VacateChainElsewhere(b1, p.vmas, KSTACK);
    var b3 := Vacate(b2, MM, p.mm.value);
    VacateKeeps(b2, MM, p.mm.value, AllSlots(ring, MM));
    VacateElsewhere(b2, MM, p.mm.value, TASK);
    VacateElsewhere(b2, MM, p.mm.value, VMA);
    VacateElsewhere(b2, MM, p.mm.value, KSTACK);
    var b4 := Vacate(b3, TASK, p.task);
    VacateKeeps(b3, TASK, p.task, AllSlots(ring, TASK));
    VacateElsewhere(b3, TASK, p.task, MM);
    VacateElsewhere(b3, TASK, p.task, VMA);
    VacateElsewhere(b3, TASK, p.task, KSTACK);
    AllAccount(b4, ring);
    BuriedIs(b, p);
  }

  lemma PoolNames()
    ensures TASK < FLAGS && KSTACK < FLAGS && MM < FLAGS && VMA < FLAGS
    ensures TASK != KSTACK && TASK != MM && TASK != VMA && KSTACK != MM && KSTACK != VMA && MM != VMA
  {
  }

  lemma BuriedIs(b: Bitmaps, p: Proc)
    requires p.mm.Some?
    ensures Buried(b, p) == Vacate(Vacate(VacateChain(Vacate(b, KSTACK, p.stack), p.vmas), MM, p.mm.value), TASK,
                                   p.task)
  {
  }

  /** Dead tasks have address spaces: only processes are killed. */
  ghost predicate DeadHaveSpaces(ring: seq<Proc>) {
    forall p {:trigger p in ring} :: p in ring && p.dead ==> p.mm.Some?
  }

  lemma BuryNext(m: Mem, c: nat)
    requires Conserved(m.bits, m.ring) && c + 1 < |m.ring| && m.ring[c + 1].mm.Some?
    ensures Conserved(Buried(m.bits, m.ring[c + 1]), m.ring[..c + 1] + m.ring[c + 2..])
  {
    var p, rest := m.ring[c + 1], m.ring[..c + 1] + m.ring[c + 2..];
    assert m.ring == rest[..c + 1] + [p] + rest[c + 1..];
    hide *;
    ExtendedIsConserved(m.bits, rest, c + 1, p);
    BuryKeeps(m.bits, rest, p);
  }

  lemma CleanSkipsDead(m: Mem, c: nat, r: seq<Proc>)
    requires c + 1 < |m.ring| && m.ring[c + 1].dead && DeadHaveSpaces(m.ring) && r == m.ring[..c + 1] + m.ring[c + 2..]
    ensures m.ring[c + 1].mm.Some? && DeadHaveSpaces(r) && c < |r| < |m.ring|
    ensures CleanFrom(m, c) == CleanFrom(Mem(Buried(m.bits, m.ring[c + 1]), r), c)
    ensures r[..c + 1] + Alive(r[c + 1..]) == m.ring[..c + 1] + Alive(m.ring[c + 1..])
  {
    AliveFront(m.ring, c + 1);
    assert m.ring[c + 1] in m.ring;
    assert r[..c + 1] == m.ring[..c + 1] && r[c + 1..] == m.ring[c + 2..];
    hide Alive, Buried;
    forall p | p in r
      ensures p in m.ring
    {
    }
  }

  lemma CleanKeepsLiving(m: Mem, c: nat)
    requires c + 1 < |m.ring| && !m.ring[c + 1].dead
    ensures CleanFrom(m, c) == CleanFrom(m, c + 1)
    ensures m.ring[..c + 2] + Alive(m.ring[c + 2..]) == m.ring[..c + 1] + Alive(m.ring[c + 1..])
  {
    AliveFront(m.ring, c + 1);
    hide Alive, Buried;
    assert m.ring[..c + 2] == m.ring[..c + 1] + [m.ring[c + 1]];
  }

  lemma {:induction false} CleanKeeps(m: Mem, c: nat)
    requires Conserved(m.bits, m.ring) && DeadHaveSpaces(m.ring) && c < |m.ring|
    ensures Conserved(CleanFrom(m, c).bits, CleanFrom(m, c).ring)
    ensures CleanFrom(m, c).ring == m.ring[..c + 1] + Alive(m.ring[c + 1..])
    decreases |m.ring| - c
  {
    if c + 1 == |m.ring| {
      assert m.ring[c + 1..] == [] && m.ring[..c + 1] == m.ring;
      hide Conserved;
    } else if m.ring[c + 1].dead {
      hide *;
      var r := m.ring[..c + 1] + m.ring[c + 2..];
      CleanSkipsDead(m, c, r);
      BuryNext(m, c);
      CleanKeeps(Mem(Buried(m.bits, m.ring[c + 1]), r), c);
    } else {
      hide *;
      CleanKeepsLiving(m, c);
      CleanKeeps(m, c + 1);
    }
  }

  /** The order of the ring does not matter. */
  lemma RotateKeeps(m: Mem, k: nat)
    requires Conserved(m.bits, m.ring) && k <= |m.ring|
    ensures Conserved(Rotated(m, k).bits, Rotated(m, k).ring)
  {
    forall flag: nat
      ensures multiset(AllSlots(m.ring[k..] + m.ring[..k], flag)) == multiset(AllSlots(m.ring, flag))
    {
      RotatedSlots(m.ring, k, flag);
    }
    hide AllSlots, Held, Shaped;
  }

  lemma RotatedSlots(ring: seq<Proc>, k: nat, flag: nat)
    requires k <= |ring|
    ensures multiset(AllSlots(ring[k..] + ring[..k], flag)) == multiset(AllSlots(ring, flag))
  {
    AllSlotsConcat(ring[k..], ring[..k], flag);
    AllSlotsConcat(ring[..k], ring[k..], flag);
    assert ring[..k] + ring[k..] == ring;
    hide AllSlots;
    SameBag(AllSlots(ring[..k], flag), AllSlots(ring[k..], flag));
  }

  lemma SameBag(a: seq<nat>, b: seq<nat>)
    ensures multiset(a + b) == multiset(b + a)
  {
  }

  lemma {:induction false} MarkedSlots(ring: seq<Proc>, i: nat, dead: bool, flag: nat)
    requires i < |ring|
    ensures AllSlots(ring[i := ring[i].(dead := dead)], flag) == AllSlots(ring, flag)
    decreases |ring|
  {
    var r := ring[i := ring[i].(dead := dead)];
    if i > 0 {
      assert r[1..] == ring[1..][i - 1 := ring[1..][i - 1].(dead := dead)];
      MarkedSlots(ring[1..], i - 1, dead, flag);
    } else {
      assert r[1..] == ring[1..];
    }
  }

  /** A task's death changes nothing until clean_dead comes. */
  lemma MarkKeeps(m: Mem, i: nat, dead: bool)
    requires Conserved(m.bits, m.ring) && i < |m.ring|
    ensures Conserved(Marked(m, i, dead).bits, Marked(m, i, dead).ring)
  {
    forall flag: nat
      ensures AllSlots(Marked(m, i, dead).ring, flag) == AllSlots(m.ring, flag)
    {
      MarkedSlots(m.ring, i, dead, flag);
    }
    hide AllSlots, Held, Shaped;
  }

  /** Conservation, pool by pool. */
  lemma PoolsOf(b: Bitmaps, ring: seq<Proc>)
    requires Conserved(b, ring)
    ensures Shaped(b) && TASK < FLAGS && KSTACK < FLAGS && MM < FLAGS && VMA < FLAGS
    ensures TASK != KSTACK && TASK != MM && TASK != VMA && KSTACK != MM && KSTACK != VMA && MM != VMA
    ensures |b| == FLAGS
    ensures Accounts(b[TASK], AllSlots(ring, TASK)) && Accounts(b[KSTACK], AllSlots(ring, KSTACK))
    ensures Accounts(b[MM], AllSlots(ring, MM)) && Accounts(b[VMA], AllSlots(ring, VMA))
  {
    hide AllSlots, Held, Accounts;
  }

  lemma ThreadRoom(ring: seq<Proc>)
    ensures |AllSlots(ring, TASK)| == |AllSlots(ring, KSTACK)| == |ring| && PoolSize(TASK) == PoolSize(KSTACK)
  {
    CountTasks(ring);
  }

  /** The four pools with the slots of one task more. */
  lemma IsExtended(b: Bitmaps, ring: seq<Proc>, p: Proc)
    requires Shaped(b)
    requires Accounts(b[TASK], AllSlots(ring, TASK) + [p.task])
             && Accounts(b[KSTACK], AllSlots(ring, KSTACK) + [p.stack])
    requires Accounts(b[MM], AllSlots(ring, MM) + (if p.mm.Some? then [p.mm.value] else []))
    requires Accounts(b[VMA], AllSlots(ring, VMA) + p.vmas)
    ensures Extended(b, ring, p)
  {
    hide AllSlots, Held, Accounts;
  }

  lemma ExtendedParts(b: Bitmaps, ring: seq<Proc>, p: Proc)
    requires Extended(b, ring, p)
    ensures Shaped(b) && |b| == FLAGS && TASK < FLAGS && KSTACK < FLAGS && MM < FLAGS && VMA < FLAGS
    ensures TASK != KSTACK && TASK != MM && TASK != VMA && KSTACK != MM && KSTACK != VMA && MM != VMA
    ensures Accounts(b[TASK], AllSlots(ring, TASK) + [p.task])
            && Accounts(b[KSTACK], AllSlots(ring, KSTACK) + [p.stack])
    ensures Accounts(b[MM], AllSlots(ring, MM) + (if p.mm.Some? then [p.mm.value] else []))
    ensures Accounts(b[VMA], AllSlots(ring, VMA) + p.vmas)
  {
    hide AllSlots, Held, Accounts;
  }

  lemma NoSlots(slots: seq<nat>)
    ensures slots + [] == slots
  {
  }

  lemma FullSize(bits: seq<bool>)
    requires forall k {:trigger bits[k]} :: 0 <= k < |bits| ==> bits[k]
    ensures |Held(bits)| == |bits|
  {
    UptoSize(|bits|);
    assert Held(bits) == Upto(|bits|);
  }

  function Upto(n: nat): set<nat> {
    if n == 0 then {} else Upto(n - 1) + {n - 1}
  }

  lemma {:induction false} UptoSize(n: nat)
    ensures |Upto(n)| == n && forall k: nat :: k in Upto(n) <==> k < n
    decreases n
  {
    if n > 0 {
      UptoSize(n - 1);
    }
  }

  lemma HeldSlot(bits: seq<bool>, i: nat, rest: seq<nat>)
    requires Accounts(bits, [i] + rest)
    ensures i < |bits|
  {
    assert ([i] + rest)[0] == i && i in multiset([i] + rest);
    assert i in multiset(Held(bits));
  }

  lemma HeldFirst(b: Bitmaps, ring: seq<Proc>, p: Proc)
    requires Extended(b, ring, p) && p.mm.Some?
    ensures Shaped(b) && Accounts(b[TASK], [p.task] + AllSlots(ring, TASK))
            && Accounts(b[KSTACK], [p.stack] + AllSlots(ring, KSTACK))
    ensures Accounts(b[MM], [p.mm.value] + AllSlots(ring, MM)) && Accounts(b[VMA], p.vmas + AllSlots(ring, VMA))
  {
    hide *;
    ExtendedParts(b, ring, p);
    Swapped(b[TASK], AllSlots(ring, TASK), [p.task]);
    Swapped(b[KSTACK], AllSlots(ring, KSTACK), [p.stack]);
    Swapped(b[MM], AllSlots(ring, MM), [p.mm.value]);
    Swapped(b[VMA], AllSlots(ring, VMA), p.vmas);
  }

  lemma Swapped(bits: seq<bool>, a: seq<nat>, b: seq<nat>)
    requires Accounts(bits, a + b)
    ensures Accounts(bits, b + a)
  {
    hide Held;
    assert multiset(a + b) == multiset(b + a);
  }

  lemma AllAccount(b: Bitmaps, ring: seq<Proc>)
    requires Shaped(b) && Accounts(b[TASK], AllSlots(ring, TASK)) && Accounts(b[KSTACK], AllSlots(ring, KSTACK))
    requires Accounts(b[MM], AllSlots(ring, MM)) && Accounts(b[VMA], AllSlots(ring, VMA))
    ensures Conserved(b, ring)
  {
    hide AllSlots, Held, Accounts;
  }

  lemma AliveFront(ring: seq<Proc>, c: nat)
    requires c < |ring|
    ensures Alive(ring[c..]) == (if ring[c].dead then [] else [ring[c]]) + Alive(ring[c + 1..])
  {
    assert ring[c..][0] == ring[c] && ring[c..][1..] == ring[c + 1..];
  }
}
