/** The state the machine starts in, and the theorems about whole runs from there. */
module Boot {
  import opened Options
  import opened CowModel
  import opened CowSafety
  import opened CowTransparency
  import opened CowCounts

  /** The descriptors at boot: the frames of the direct map are taken, every other frame is free. */
  function InitPhyPage(frames: nat): (r: seq<Desc>)
    ensures |r| == FIRST_USER_FRAME + frames
    ensures forall i {:trigger r[i]} :: 0 <= i < |r| ==> r[i] == Desc(i < FIRST_USER_FRAME, -1)
  {
    seq(FIRST_USER_FRAME + frames, i => Desc(i < FIRST_USER_FRAME, -1))
  }

  /** init_phy_page. */
  method InitDescriptors(desc: array<Desc>, num: nat)
    requires num == FIRST_USER_FRAME <= desc.Length
    modifies desc
    ensures desc[..] == InitPhyPage(desc.Length - FIRST_USER_FRAME)
  {
    var i := 0;
    while i < desc.Length
      invariant 0 <= i <= desc.Length
      invariant forall k {:trigger desc[k]} :: 0 <= k < i ==> desc[k] == Desc(k < FIRST_USER_FRAME, -1)
    {
      desc[i] := Desc(i < num, -1);
      i := i + 1;
    }
  }

  /** One process, whose root global_PML4 names, nothing mapped yet, memory zero. */
  function BootState(frames: nat, pid: nat, mm: Mm): State {
    State(pid, map[pid := mm], map[], {}, InitPhyPage(frames), seq(FIRST_USER_FRAME + frames, _ => ZERO_PAGE), map[],
          {}, {}, pid)
  }

  /** The invariants hold at boot, and every frame, taken or free, counts one less than its entries: none. */
  lemma BootIsSafe(frames: nat, pid: nat, mm: Mm)
    requires Separated(mm.vmas)
    ensures var s := BootState(frames, pid, mm); Inv(s) && Exact(s) && Resolvable(s) && Runnable(s)
    ensures var s := BootState(frames, pid, mm);
            forall f {:trigger s.desc[f]} :: 0 <= f < |s.desc| ==> s.desc[f].refCount + 1 == |Maps(s.pte, f)|
  {
    var s := BootState(frames, pid, mm);
    forall f: nat
      ensures Maps(s.pte, f) == {}
    {
    }
  }

  lemma {:induction false} FreeAtBoot(frames: nat, pid: nat, mm: Mm)
    ensures |FreeFrames(BootState(frames, pid, mm).desc)| == frames
    decreases frames
  {
    var free := FreeFrames(InitPhyPage(frames));
    if frames == 0 {
      assert free == {};
    } else {
      FreeAtBoot(frames - 1, pid, mm);
      assert free == FreeFrames(InitPhyPage(frames - 1)) + {FIRST_USER_FRAME + frames - 1};
    }
  }

  /** Every reachable state is safe: counts bound the sharing, and two entries for one frame are both
      read-only. */
  lemma ReachableIsSafe(frames: nat, pid: nat, mm: Mm, steps: seq<Step>, k: Slot, m: Slot)
    requires Separated(mm.vmas) && AllAllowed(BootState(frames, pid, mm), steps)
    ensures var t := Run(BootState(frames, pid, mm), steps);
            && Inv(t)
            && (k in t.pte && m in t.pte && k != m && t.pte[k].frame == t.pte[m].frame ==>
                  !t.pte[k].writable && !t.pte[m].writable)
  {
    BootIsSafe(frames, pid, mm);
    RunKeepsInv(BootState(frames, pid, mm), steps);
    WritersAreAlone(BootState(frames, pid, mm), steps, k, m);
  }

  /** From boot the counts add up to the user mappings and the references that the run's steps forgot. */
  lemma ReachableConserves(frames: nat, pid: nat, mm: Mm, steps: seq<Step>)
    requires Separated(mm.vmas) && AllAllowed(BootState(frames, pid, mm), steps)
    requires AllRoomy(BootState(frames, pid, mm), steps)
    ensures var s := BootState(frames, pid, mm);
            var t := Run(s, steps);
            && SumRefs(t, |t.desc|) == |t.pte| + Forgotten(s, steps)
            && (Exact(t) <==> Forgotten(s, steps) == 0)
  {
    BootIsSafe(frames, pid, mm);
    ReferencesConserved(BootState(frames, pid, mm), steps);
  }

  /** From boot, programs observe what the machine with private zero-filled memory shows them. */
  lemma RunsFromBootAreTransparent(frames: nat, pid: nat, mm: Mm, steps: seq<Step>)
    requires Separated(mm.vmas) && AllEnabled(BootState(frames, pid, mm), steps)
    ensures Trace(BootState(frames, pid, mm), steps) == EagerTrace(Eager(pid, map[pid := mm], map[]), steps)
  {
    var s := BootState(frames, pid, mm);
    BootIsSafe(frames, pid, mm);
    CowIsTransparent(s, steps);
    assert Privatised(s) == Eager(pid, map[pid := mm], map[]);
  }
}
