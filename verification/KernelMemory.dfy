/** kmalloc and kfree in place, and the routines that take and give back the slots of a task: each has
    the effect of its function in module Pools. */
module KernelMemory {
  import opened Addresses
  import opened Options
  import opened Pools

  function ByteAt(mem: map<nat, nat>, a: nat): nat {
    if a in mem then mem[a] else 0
  }

  /** The page reads zero and nothing else has changed. */
  ghost predicate Cleared(was: map<nat, nat>, now: map<nat, nat>, page: nat) {
    forall a: nat {:trigger ByteAt(now, a)} ::
      ByteAt(now, a) == if page <= a < page + PAGE_SIZE then 0 else ByteAt(was, a)
  }

  /** Another live page keeps its bytes. */
  lemma OtherPagesKept(was: map<nat, nat>, now: map<nat, nat>, kernptBase: nat, f: nat, i: nat, g: nat, j: nat, o: nat)
    requires Cleared(was, now, PageAt(kernptBase, f, i)) && o < PAGE_SIZE
    requires i < PoolSize(f) && j < PoolSize(g) && (f, i) != (g, j)
    ensures ByteAt(now, PageAt(kernptBase, g, j) + o) == ByteAt(was, PageAt(kernptBase, g, j) + o)
  {
    PagesAreDisjoint(kernptBase, f, i, g, j);
    hide PageAt, PoolSize;
  }

  class Kmem {
    const kernptBase: nat
    /** The bytes of the kmalloc area by address. */
    var mem: map<nat, nat>
    var bitmaps: Bitmaps
    /** The tasks from current on, in the order of next. */
    var ring: seq<Proc>

    /** memset of a page to zero. */
    method ClearPage(page: nat)
      modifies this`mem
      ensures Cleared(old(mem), mem, page)
    {
      for o := 0 to PAGE_SIZE
        invariant forall a: nat {:trigger ByteAt(mem, a)} ::
          ByteAt(mem, a) == if page <= a < page + o then 0 else ByteAt(old(mem), a)
      {
        ghost var was := mem;
        mem := mem[page + o := 0];
        assert forall a: nat {:trigger ByteAt(mem, a)} :: ByteAt(mem, a) == if a == page + o then 0 else ByteAt(was, a);
      }
    }

    /** kmalloc: the first free slot of the pool, its page cleared. */
    method Kmalloc(flag: nat) returns (p: Option<nat>, i: nat)
      requires Shaped(bitmaps)
      modifies this`bitmaps, this`mem
      ensures p.Some? <==> flag < FLAGS && FreeSlot(old(bitmaps), flag) < PoolSize(flag)
      ensures p.Some? ==> i == FreeSlot(old(bitmaps), flag) && p.value == Pointer(kernptBase, flag, i)
      ensures p.Some? ==> bitmaps == Occupy(old(bitmaps), flag) && Cleared(old(mem), mem, PageAt(kernptBase, flag, i))
      ensures p.None? ==> bitmaps == old(bitmaps) && mem == old(mem)
    {
      p, i := None, 0;
      if flag < FLAGS {
        while i < PoolSize(flag) && bitmaps[flag][i]
          invariant i <= PoolSize(flag) && bitmaps == old(bitmaps) && mem == old(mem)
          invariant FirstClear(bitmaps[flag], 0) == FirstClear(bitmaps[flag], i)
        {
          i := i + 1;
        }
        if i < PoolSize(flag) {
          bitmaps := bitmaps[flag := bitmaps[flag][i := true]];
          ClearPage(PageAt(kernptBase, flag, i));
          p := Some(Pointer(kernptBase, flag, i));
        }
      }
    }

    /** kfree: clear the page, compute the slot from the pointer, free it. */
    method Kfree(addr: nat, flag: nat, ghost i: nat)
      requires Shaped(bitmaps) && flag < FLAGS && i < PoolSize(flag) && addr == Pointer(kernptBase, flag, i)
      modifies this`bitmaps, this`mem
      ensures bitmaps == Vacate(old(bitmaps), flag, i) && Cleared(old(mem), mem, PageAt(kernptBase, flag, i))
    {
      PointerGivesSlot(kernptBase, flag, i);
      hide Pointer, PageAt, PoolBase;
      var page := addr - (if flag == KSTACK then PAGE_SIZE else 0);
      ClearPage(page);
      var pos := (page - PoolBase(kernptBase, flag)) / PAGE_SIZE;
      bitmaps := bitmaps[flag := bitmaps[flag][pos := false]];
    }

    /** create_thread. */
    method CreateThread(pid: int, at: nat) returns (ok: bool)
      requires Conserved(bitmaps, ring) && at <= |ring|
      modifies this
      ensures Mem(bitmaps, ring) == Pools.CreateThread(Mem(old(bitmaps), old(ring)), pid, at)
      ensures Conserved(bitmaps, ring) && (ok <==> |old(ring)| < PoolSize(TASK))
    {
      ghost var m := Mem(bitmaps, ring);
      CreateKeeps(m, pid, at);
      TaskRoom(bitmaps, ring);
      hide Conserved, Accounts, Occupy, FreeSlot, PoolSize, Shaped;
      var p, t := Kmalloc(TASK);
      if p.None? {
        return false;
      }
      var q, s := Kmalloc(KSTACK);
      ring := ring[..at] + [Proc(pid, false, t, s, None, [])] + ring[at..];
      ok := true;
    }

    /** The region chain of copy_mm and set_task_struct. */
    method TakeRegions(n: nat, ghost slots: seq<nat>) returns (v: seq<nat>)
      requires Shaped(bitmaps) && Accounts(bitmaps[VMA], slots) && |slots| + n <= PoolSize(VMA)
      modifies this`bitmaps, this`mem
      ensures v == ChainSlots(old(bitmaps), n) && bitmaps == OccupyChain(old(bitmaps), n)
    {
      v := [];
      ghost var b := bitmaps;
      NoSlots(slots);
      var j := 0;
      while j < n
        invariant j <= n == j + (n - j) && |v| == j && Shaped(bitmaps) && Accounts(bitmaps[VMA], slots + v)
        invariant v + ChainSlots(bitmaps, n - j) == ChainSlots(b, n)
        invariant OccupyChain(bitmaps, n - j) == OccupyChain(b, n)
      {
        OccupyKeeps(bitmaps, VMA, slots + v);
        ChainStarts(bitmaps, n - j, v);
        hide Accounts, Occupy, FreeSlot, Shaped, ChainSlots, OccupyChain, PoolSize;
        var p, i := Kmalloc(VMA);
        Regroup(slots, v, [i]);
        v := v + [i];
        j := j + 1;
      }
    }

    /** set_task_struct always finds its slots. */
    method SetTaskStruct()
      requires Conserved(bitmaps, ring) && Modest(ring) && ring != [] && ring[0].mm.None? && ring[0].vmas == []
      modifies this
      ensures Mem(bitmaps, ring) == Pools.SetTaskStruct(Mem(old(bitmaps), old(ring)))
      ensures Conserved(bitmaps, ring)
    {
      hide *;
      ghost var m := Mem(bitmaps, ring);
      SetTaskStructKeeps(m);
      SetTaskStructIs(m);
      WithSpaceIs(ring[0], bitmaps, 4);
      ghost var slots := SpaceReady(bitmaps, ring);
      var p, i := Kmalloc(MM);
      var v := TakeRegions(4, slots);
      ChainSlotsAgree(m.bits, Occupy(m.bits, MM), 4);
      ring := [ring[0].(mm := Some(i), vmas := v)] + ring[1..];
    }

    /** The page tables of set_child_pt: the root, map_kernel's and those on the paths of the copied pages. */
    method TakeTables(n: nat) returns (ok: bool)
      requires Shaped(bitmaps)
      modifies this`bitmaps, this`mem
      ensures Shaped(old(bitmaps)) && bitmaps == Pools.TakeTables(old(bitmaps), n) && Shaped(bitmaps)
      ensures ok <==> TablesFit(old(bitmaps), n)
    {
      ghost var b := bitmaps;
      TablesTaken(b, n);
      hide Occupy, FreeSlot, Held, Pools.TakeTables;
      TakeNoTables(b);
      var j := 0;
      while j < n
        invariant j <= n && Shaped(bitmaps) && Pools.TakeTables(bitmaps, n - j) == Pools.TakeTables(b, n)
        invariant TablesFit(bitmaps, n - j) <==> TablesFit(b, n)
      {
        OccupyTable(bitmaps);
        TablesUnfold(bitmaps, n - j);
        if FreeSlot(bitmaps, USERPT) >= PoolSize(USERPT) {
          NoTablesLeft(bitmaps, n - j);
        }
        var p, i := Kmalloc(USERPT);
        if p.None? {
          return false;
        }
        j := j + 1;
      }
      TakeNoTables(bitmaps);
      return true;
    }

    /** do_fork as far as slots go; with a full ring nothing is taken. It succeeds exactly if the ring has
        room and the page tables suffice, and it loses slots exactly if only the tables are missing. */
    method DoFork(pid: int, at: nat, tables: nat) returns (ok: bool)
      requires Conserved(bitmaps, ring) && Modest(ring) && ring != [] && at <= |ring| && tables >= FORK_TABLES
      modifies this
      ensures |old(bitmaps)| == FLAGS && |bitmaps| == FLAGS
      ensures Mem(bitmaps, ring) == Pools.DoFork(Mem(old(bitmaps), old(ring)), pid, at, tables)
      ensures ok <==> |old(ring)| < PoolSize(TASK) && TablesFit(old(bitmaps), tables)
      ensures Conserved(bitmaps, ring) <==> ok || |old(ring)| == PoolSize(TASK)
      ensures ok ==> |Held(bitmaps[USERPT])| == |Held(old(bitmaps)[USERPT])| + tables
    {
      hide *;
      ghost var m := Mem(bitmaps, ring);
      var n := |ring[0].vmas|;
      ForkShape(m);
      ForkKeepsIff(m, pid, at, tables);
      ForkIs(m, pid, at, tables);
      TaskRoom(bitmaps, ring);
      ConservedCounts(bitmaps, ring);
      if TablesFit(bitmaps, tables) {
        ForkKeeps(m, pid, at, tables);
      }
      var p, t := Kmalloc(TASK);
      if p.None? {
        return false;
      }
      ghost var slots := ForkReady(m.bits, ring, n);
      var q, s := Kmalloc(KSTACK);
      var r, i := Kmalloc(MM);
      var v := TakeRegions(n, slots);
      ForkTables(m, pid, bitmaps);
      ok := TakeTables(tables);
      ShapedSize(bitmaps);
      if ok {
        ring := ring[..at] + [Proc(pid, false, t, s, Some(i), v)] + ring[at..];
      }
    }

    /** free_vma. */
    method FreeVma(v: seq<nat>, ghost rest: seq<nat>)
      requires Shaped(bitmaps) && Accounts(bitmaps[VMA], v + rest)
      modifies this`bitmaps, this`mem
      ensures bitmaps == VacateChain(old(bitmaps), v)
    {
      ghost var b := bitmaps;
      assert v[0..] == v;
      for j := 0 to |v|
        invariant Shaped(bitmaps) && Accounts(bitmaps[VMA], v[j..] + rest)
        invariant VacateChain(bitmaps, v[j..]) == VacateChain(b, v)
      {
        assert v[j..] + rest == [v[j]] + (v[j + 1..] + rest) && v[j..][1..] == v[j + 1..];
        VacateKeeps(bitmaps, VMA, v[j], v[j + 1..] + rest);
        assert VacateChain(bitmaps, v[j..]) == VacateChain(Vacate(bitmaps, VMA, v[j]), v[j + 1..]);
        hide Accounts, Vacate, VacateChain, Shaped, Pointer, PoolSize;
        Kfree(Pointer(kernptBase, VMA, v[j]), VMA, v[j]);
      }
    }

    /** What clean_dead frees, in its order. */
    method Bury(p: Proc, ghost rest: seq<Proc>)
      requires Extended(bitmaps, rest, p) && p.mm.Some?
      modifies this`bitmaps, this`mem
      ensures bitmaps == Buried(old(bitmaps), p)
    {
      hide *;
      ghost var b := bitmaps;
      BurySteps(b, rest, p);
      BuriedIs(b, p);
      Kfree(Pointer(kernptBase, KSTACK, p.stack), KSTACK, p.stack);
      FreeVma(p.vmas, AllSlots(rest, VMA));
      Kfree(Pointer(kernptBase, MM, p.mm.value), MM, p.mm.value);
      Kfree(Pointer(kernptBase, TASK, p.task), TASK, p.task);
    }

    /** clean_dead: the ring keeps its order, and every slot a dead task held is free again. */
    method CleanDead()
      requires Conserved(bitmaps, ring) && ring != [] && DeadHaveSpaces(ring)
      modifies this
      ensures Mem(bitmaps, ring) == CleanFrom(Mem(old(bitmaps), old(ring)), 0)
      ensures Conserved(bitmaps, ring) && ring == [old(ring)[0]] + Alive(old(ring)[1..])
    {
      ghost var m := Mem(bitmaps, ring);
      CleanKeeps(m, 0);
      assert ring[..1] == [ring[0]];
      hide Conserved, Alive, Buried;
      var c := 0;
      while c + 1 < |ring|
        invariant c < |ring| && Conserved(bitmaps, ring) && DeadHaveSpaces(ring)
        invariant CleanFrom(Mem(bitmaps, ring), c) == CleanFrom(m, 0)
        decreases |ring| - c
      {
        if ring[c + 1].dead {
          ghost var now := Mem(bitmaps, ring);
          assert ring[c + 1] in ring;
          var p, rest := ring[c + 1], ring[..c + 1] + ring[c + 2..];
          assert forall u :: u in rest ==> u in ring;
          Taken(bitmaps, ring, c);
          BuryNext(now, c);
          Bury(p, rest);
          ring := rest;
        } else {
          c := c + 1;
        }
      }
    }

    /** do_ps: the table of 128 entries is never overrun. */
    method DoPs(ids: array<int>) returns (n: nat)
      requires Conserved(bitmaps, ring) && ring != [] && DeadHaveSpaces(ring) && ids.Length == PS_NO
      modifies this, ids
      ensures n == |old(ring)| <= PS_NO && forall k :: 0 <= k < n ==> ids[k] == old(ring)[k].pid
      ensures Mem(bitmaps, ring) == CleanFrom(Mem(old(bitmaps), old(ring)), 0) && Conserved(bitmaps, ring)
    {
      hide *;
      ConservedCounts(bitmaps, ring);
      n := ListPids(ids);
      CleanDead();
    }

    /** The traversal of do_ps. */
    method ListPids(ids: array<int>) returns (n: nat)
      requires |ring| <= ids.Length
      modifies ids
      ensures n == |ring| && forall k :: 0 <= k < n ==> ids[k] == ring[k].pid
    {
      n := 0;
      while n < |ring|
        invariant n <= |ring|
        invariant forall k :: 0 <= k < n ==> ids[k] == ring[k].pid
      {
        ids[n] := ring[n].pid;
        n := n + 1;
      }
    }
  }

  // ----- that the slots are there -----

  /** A full pool has no free slot. */
  lemma FullPool(b: Bitmaps, flag: nat, slots: seq<nat>)
    requires Shaped(b) && flag < FLAGS && Accounts(b[flag], slots)
    ensures FreeSlot(b, flag) < PoolSize(flag) <==> |slots| < PoolSize(flag)
  {
    AccountedSize(b[flag], slots);
    if |slots| < PoolSize(flag) {
      OccupyKeeps(b, flag, slots);
    } else if FreeSlot(b, flag) < PoolSize(flag) {
      TakenAccounts(b[flag], FreeSlot(b, flag), slots);
      AccountedSize(b[flag][FreeSlot(b, flag) := true], slots + [FreeSlot(b, flag)]);
    }
  }

  /** Tasks and stacks run out together, with the ring at 128. */
  lemma TaskRoom(b: Bitmaps, ring: seq<Proc>)
    requires Conserved(b, ring)
    ensures Shaped(b) && Shaped(Occupy(b, TASK)) && TASK < FLAGS && KSTACK < FLAGS
    ensures FreeSlot(b, TASK) < PoolSize(TASK) <==> |ring| < PoolSize(TASK)
    ensures FreeSlot(Occupy(b, TASK), KSTACK) == FreeSlot(b, KSTACK)
    ensures |ring| < PoolSize(TASK) ==> FreeSlot(b, KSTACK) < PoolSize(KSTACK)
  {
    PoolsOf(b, ring);
    ThreadRoom(ring);
    FullPool(b, TASK, AllSlots(ring, TASK));
    FullPool(b, KSTACK, AllSlots(ring, KSTACK));
    OccupyElsewhere(b, TASK, KSTACK);
    hide AllSlots, Accounts, Held;
  }

  lemma ChainStarts(b: Bitmaps, n: nat, v: seq<nat>)
    requires n > 0
    ensures OccupyChain(b, n) == OccupyChain(Occupy(b, VMA), n - 1)
    ensures v + ChainSlots(b, n) == (v + [FreeSlot(b, VMA)]) + ChainSlots(Occupy(b, VMA), n - 1)
    ensures VMA < FLAGS
  {
    hide Occupy, FreeSlot;
    Regroup(v, [FreeSlot(b, VMA)], ChainSlots(Occupy(b, VMA), n - 1));
  }

  /** The slots of the running thread's address space are there. */
  lemma SpaceReady(b: Bitmaps, ring: seq<Proc>) returns (slots: seq<nat>)
    requires Conserved(b, ring) && Modest(ring) && ring != [] && ring[0].mm.None? && ring[0].vmas == []
    ensures var c := Occupy(b, MM);
            && Shaped(b) && Shaped(c) && MM < FLAGS && VMA < FLAGS && |c| == FLAGS && c[VMA] == b[VMA] && |b| == FLAGS
            && FreeSlot(b, MM) < PoolSize(MM) && Accounts(c[VMA], slots) && |slots| + 4 <= PoolSize(VMA)
  {
    var p, rest := ring[0], ring[1..];
    assert ring == rest[..0] + [p] + rest[0..];
    slots := AllSlots(rest, VMA);
    hide *;
    ExtendedIsConserved(b, rest, 0, p);
    ExtendedParts(b, rest, p);
    NoSlots(AllSlots(rest, MM));
    NoSlots(AllSlots(rest, VMA));
    SpaceRoom(b, ring);
    FullPool(b, MM, AllSlots(rest, MM));
    OccupyElsewhere(b, MM, VMA);
    ShapedSize(Occupy(b, MM));
    AllSlotsTail(ring);
  }

  lemma ShapedSize(b: Bitmaps)
    requires Shaped(b)
    ensures |b| == FLAGS
  {
  }

  lemma AllSlotsTail(ring: seq<Proc>)
    requires ring != []
    ensures AllSlots(ring, VMA) == ring[0].vmas + AllSlots(ring[1..], VMA)
  {
  }

  lemma ForkIs(m: Mem, pid: int, at: nat, tables: nat)
    requires Shaped(m.bits) && |m.bits| == FLAGS && m.ring != [] && at <= |m.ring|
    ensures |m.ring| >= PoolSize(TASK) ==> Pools.DoFork(m, pid, at, tables) == m
    ensures |m.ring| < PoolSize(TASK) ==>
              var n := |m.ring[0].vmas|;
              Pools.DoFork(m, pid, at, tables) ==
              Mem(Pools.TakeTables(OccupyChain(Occupy(Occupy(Occupy(m.bits, TASK), KSTACK), MM), n), tables),
                  if TablesFit(m.bits, tables) then
                    m.ring[..at] + [Proc(pid, false, FreeSlot(m.bits, TASK), FreeSlot(m.bits, KSTACK),
                                         Some(FreeSlot(m.bits, MM)),
                                         ChainSlots(m.bits, n))] + m.ring[at..]
                  else m.ring)
  {
    hide OccupyChain, Occupy, FreeSlot, ChainSlots, Pools.TakeTables, Held;
  }

  lemma ForkShape(m: Mem)
    requires Conserved(m.bits, m.ring)
    ensures Shaped(m.bits) && |m.bits| == FLAGS && PoolSize(TASK) == PS_NO && USERPT < FLAGS
  {
    hide AllSlots, Accounts;
  }

  /** The slots taken before the page tables leave those alone. */
  lemma ForkTables(m: Mem, pid: int, b: Bitmaps)
    requires Conserved(m.bits, m.ring) && Modest(m.ring) && m.ring != [] && |m.ring| < PoolSize(TASK)
    requires b == OccupyChain(Occupy(Occupy(Occupy(m.bits, TASK), KSTACK), MM), |m.ring[0].vmas|)
    ensures Shaped(b) && |b| == FLAGS && |m.bits| == FLAGS
    ensures forall n: nat {:trigger TablesFit(b, n)} :: TablesFit(b, n) <==> TablesFit(m.bits, n)
  {
    ChainFollows(m, pid);
    hide Occupy, OccupyChain, AllSlots, Accounts, Held;
  }

  lemma ChainFollows(m: Mem, pid: int)
    requires Conserved(m.bits, m.ring) && Modest(m.ring) && m.ring != [] && |m.ring| < PoolSize(TASK)
    ensures var b := OccupyChain(Occupy(Occupy(Occupy(m.bits, TASK), KSTACK), MM), |m.ring[0].vmas|);
            Shaped(b) && Shaped(m.bits) && |b| == FLAGS && |m.bits| == FLAGS && b[USERPT] == m.bits[USERPT]
  {
    ChildIsExtended(m, pid);
    ExtendedParts(ChildSlots(m.bits, |m.ring[0].vmas|), m.ring, Child(m, pid));
    hide Occupy, OccupyChain, AllSlots, Accounts, Held, Child, Extended;
  }

  lemma TakeNoTables(b: Bitmaps)
    ensures Pools.TakeTables(b, 0) == b
  {
  }

  /** Once a pool is full, asking for more changes nothing. */
  lemma {:induction false} NoTablesLeft(b: Bitmaps, n: nat)
    requires Shaped(b) && FreeSlot(b, USERPT) >= PoolSize(USERPT)
    ensures Pools.TakeTables(b, n) == b
    decreases n
  {
    if n > 0 {
      assert Occupy(b, USERPT) == b;
      NoTablesLeft(b, n - 1);
    }
  }

  /** With room for a task, the child's other slots are there too. */
  lemma ForkReady(b: Bitmaps, ring: seq<Proc>, n: nat) returns (slots: seq<nat>)
    requires Conserved(b, ring) && Modest(ring) && ring != [] && n == |ring[0].vmas| && |ring| < PoolSize(TASK)
    ensures var c := Occupy(Occupy(b, TASK), KSTACK); var d := Occupy(c, MM);
            && Shaped(c) && Shaped(d) && MM < FLAGS && VMA < FLAGS && |d| == FLAGS
            && FreeSlot(c, MM) == FreeSlot(b, MM) < PoolSize(MM)
            && Accounts(d[VMA], slots) && |slots| + n <= PoolSize(VMA) && ChainSlots(d, n) == ChainSlots(b, n)
  {
    assert ring[0] in ring;
    RoomIsRing(b, ring, n);
    slots := AllSlots(ring, VMA);
    hide *;
    ThreadKeeps(b, ring);
    var c := Occupy(Occupy(b, TASK), KSTACK);
    FullPool(c, MM, AllSlots(ring, MM));
    PoolNames();
    OccupyElsewhere(c, MM, VMA);
    ShapedSize(Occupy(c, MM));
    ChainSlotsAgree(b, Occupy(c, MM), n);
  }

  lemma Taken(b: Bitmaps, ring: seq<Proc>, c: nat)
    requires Conserved(b, ring) && c + 1 < |ring|
    ensures Extended(b, ring[..c + 1] + ring[c + 2..], ring[c + 1])
  {
    var p, rest := ring[c + 1], ring[..c + 1] + ring[c + 2..];
    assert ring == rest[..c + 1] + [p] + rest[c + 1..];
    hide *;
    ExtendedIsConserved(b, rest, c + 1, p);
  }

  /** Each kfree of a dead task finds its slot occupied. */
  lemma BurySteps(b: Bitmaps, rest: seq<Proc>, p: Proc)
    requires Extended(b, rest, p) && p.mm.Some?
    ensures var b1 := Vacate(b, KSTACK, p.stack);
            var b2 := VacateChain(b1, p.vmas);
            var b3 := Vacate(b2, MM, p.mm.value);
            && Shaped(b) && Shaped(b1) && Shaped(b2) && Shaped(b3) && |b1| == FLAGS
            && TASK < FLAGS && KSTACK < FLAGS && MM < FLAGS && VMA < FLAGS
            && p.stack < PoolSize(KSTACK) && p.mm.value < PoolSize(MM) && p.task < PoolSize(TASK)
            && Accounts(b1[VMA], p.vmas + AllSlots(rest, VMA))
  {
    hide *;
    PoolNames();
    HeldFirst(b, rest, p);
    var b1 := Vacate(b, KSTACK, p.stack);
    VacateKeeps(b, KSTACK, p.stack, AllSlots(rest, KSTACK));
    VacateElsewhere(b, KSTACK, p.stack, MM);
    VacateElsewhere(b, KSTACK, p.stack, TASK);
    VacateElsewhere(b, KSTACK, p.stack, VMA);
    ShapedSize(b1);
    var b2 := VacateChain(b1, p.vmas);
    VacateChainKeeps(b1, p.vmas, AllSlots(rest, VMA));
    VacateChainElsewhere(b1, p.vmas, MM);
    VacateChainElsewhere(b1, p.vmas, TASK);
    VacateKeeps(b2, MM, p.mm.value, AllSlots(rest, MM));
    VacateElsewhere(b2, MM, p.mm.value, TASK);
    VacateKeeps(Vacate(b2, MM, p.mm.value), TASK, p.task, AllSlots(rest, TASK));
  }
}
