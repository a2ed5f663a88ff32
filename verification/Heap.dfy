/** do_sbrk over sequences of calls. */
module Heap {
  import opened Addresses
  import opened CowModel
  import opened CowTransparency

  /** The heap region ends at brk, a page boundary below 4 GB. */
  ghost predicate HeapOk(mm: Mm) {
    && HEAP < |mm.vmas| && mm.vmas[HEAP].end == mm.brk && mm.vmas[HEAP].start <= mm.brk
    && mm.brk % PAGE_SIZE == 0 && mm.brk < 0x1_0000_0000
  }

  function RoundUp(n: nat): nat {
    (n + PAGE_SIZE - 1) / PAGE_SIZE * PAGE_SIZE
  }

  /** One call on a well-formed heap whose mask does not lose bits: a nonzero size below BRK_LIMIT
      yields [brk, brk + size) and moves brk past it; zero and larger sizes change nothing. */
  lemma SbrkWithinMask(mm: Mm, size: nat)
    requires HeapOk(mm) && mm.brk + size + 0xfff < 0x1_0000_0000
    ensures Sbrk(mm, size) ==
            if size == 0 then Unchanged(mm.brk)
            else if size < BRK_LIMIT then
              Grown(mm.brk, Mm(mm.vmas[HEAP := mm.vmas[HEAP].(end := mm.brk + RoundUp(size))], mm.brk + RoundUp(size)))
            else Refused
  {
    MaskAligned(mm.brk, 0);
    MaskAligned(mm.brk, size);
  }

  lemma MaskAligned(brk: nat, size: nat)
    requires brk % PAGE_SIZE == 0 && brk + size + 0xfff < 0x1_0000_0000
    ensures Mask32((brk + size + 0xfff) % 0x1_0000_0000_0000_0000) == brk + RoundUp(size)
  {
  }

  lemma MaskBelow(x: nat)
    ensures Mask32(x % 0x1_0000_0000_0000_0000) < 0x1_0000_0000
  {
  }

  /** The call hands out size usable bytes exactly when size is nonzero and below BRK_LIMIT and the
      new break fits under 4 GB: a break that wraps moves the region's end below the bytes handed out. */
  lemma SbrkIsHonestIff(mm: Mm, size: nat)
    requires HeapOk(mm)
    ensures var r := Sbrk(mm, size);
            (r.Grown? && r.at == mm.brk && r.at + size <= r.mm.vmas[HEAP].end && HeapOk(r.mm) && size > 0) <==>
            0 < size < BRK_LIMIT && mm.brk + size + 0xfff < 0x1_0000_0000
  {
    MaskAligned0(mm.brk);
    if 0 < size < BRK_LIMIT && mm.brk + size + 0xfff >= 0x1_0000_0000 {
      MaskWraps(mm.brk, size);
    }
    if mm.brk + size + 0xfff < 0x1_0000_0000 {
      SbrkWithinMask(mm, size);
    }
    hide Mask32;
  }

  /** Success is reported and nothing handed out exactly when the rounded size is a multiple of 4 GB. */
  lemma SilentSuccessIff(mm: Mm, size: nat)
    requires HeapOk(mm) && mm.brk + size + 0xfff < 0x1_0000_0000_0000_0000
    ensures Sbrk(mm, size) == Unchanged(mm.brk) <==> RoundUp(size) % 0x1_0000_0000 == 0
  {
    MaskAligned0(mm.brk);
    MaskIsSum(mm.brk, size);
    RoundUpAligned(size);
    hide Mask32, RoundUp;
    SumUnchangedIff(mm.brk, RoundUp(size));
  }

  lemma SumUnchangedIff(a: nat, b: nat)
    requires a < 0x1_0000_0000
    ensures (a + b) % 0x1_0000_0000 == a <==> b % 0x1_0000_0000 == 0
  {
  }

  lemma MaskIsSum(brk: nat, size: nat)
    requires brk % PAGE_SIZE == 0 && brk + size + 0xfff < 0x1_0000_0000_0000_0000
    ensures Mask32((brk + size + 0xfff) % 0x1_0000_0000_0000_0000) == (brk + RoundUp(size)) % 0x1_0000_0000
  {
    var x := brk + size + 0xfff;
    assert x / PAGE_SIZE * PAGE_SIZE == brk + RoundUp(size);
    hide RoundUp;
    MaskSplits(x, x / PAGE_SIZE / 0x10_0000, x / PAGE_SIZE % 0x10_0000, x % PAGE_SIZE);
  }

  lemma MaskSplits(x: nat, high: nat, low: nat, rest: nat)
    requires low < 0x10_0000 && rest < PAGE_SIZE && x == 0x1_0000_0000 * high + PAGE_SIZE * low + rest
    ensures Mask32(x) == x / PAGE_SIZE * PAGE_SIZE % 0x1_0000_0000
  {
    assert x % 0x1_0000_0000 == PAGE_SIZE * low + rest;
    assert x / PAGE_SIZE == 0x10_0000 * high + low;
    assert x / PAGE_SIZE * PAGE_SIZE == 0x1_0000_0000 * high + PAGE_SIZE * low;
  }

  lemma MaskAligned0(brk: nat)
    requires brk % PAGE_SIZE == 0 && brk < 0x1_0000_0000
    ensures Mask32((brk + 0xfff) % 0x1_0000_0000_0000_0000) == brk
  {
  }

  lemma MaskWraps(brk: nat, size: nat)
    requires brk < 0x1_0000_0000 && size < BRK_LIMIT && brk + size + 0xfff >= 0x1_0000_0000
    ensures Mask32((brk + size + 0xfff) % 0x1_0000_0000_0000_0000) < brk + size
  {
  }

  // ----- runs -----

  /** The heap after a sequence of calls. */
  function HeapAfter(mm: Mm, sizes: seq<nat>): Mm
    decreases |sizes|
  {
    if sizes == [] then mm
    else
      var front := HeapAfter(mm, sizes[..|sizes| - 1]);
      var size := sizes[|sizes| - 1];
      if HEAP < |front.vmas| && Sbrk(front, size).Grown? then Sbrk(front, size).mm else front
  }

  /** What the call number i returns. */
  function Returned(mm: Mm, sizes: seq<nat>, i: nat): SbrkResult
    requires i < |sizes|
  {
    var before := HeapAfter(mm, sizes[..i]);
    if HEAP < |before.vmas| then Sbrk(before, sizes[i]) else Refused
  }

  function Rounded(sizes: seq<nat>): nat {
    if sizes == [] then 0 else Rounded(sizes[..|sizes| - 1]) + RoundUp(sizes[|sizes| - 1])
  }

  ghost predicate GoodSizes(mm: Mm, sizes: seq<nat>) {
    && (forall i {:trigger sizes[i]} :: 0 <= i < |sizes| ==> 0 < sizes[i] < BRK_LIMIT)
    && mm.brk + Rounded(sizes) <= STACK_START
  }

  lemma {:induction false} RoundedGrows(sizes: seq<nat>, i: nat)
    requires i <= |sizes|
    ensures Rounded(sizes[..i]) <= Rounded(sizes)
    decreases |sizes|
  {
    if i < |sizes| {
      var front := sizes[..|sizes| - 1];
      assert front[..i] == sizes[..i];
      RoundedGrows(front, i);
    } else {
      assert sizes[..i] == sizes;
    }
  }

  /** brk is where the sum of the rounded sizes puts it, and stays the region's end. */
  lemma {:induction false} HeapGrows(mm: Mm, sizes: seq<nat>)
    requires HeapOk(mm) && GoodSizes(mm, sizes)
    ensures var t := HeapAfter(mm, sizes);
            && HeapOk(t) && t.brk == mm.brk + Rounded(sizes)
            && t.vmas == mm.vmas[HEAP := mm.vmas[HEAP].(end := t.brk)]
    decreases |sizes|
  {
    if sizes == [] {
      assert mm.vmas[HEAP := mm.vmas[HEAP].(end := mm.brk)] == mm.vmas;
    } else {
      var front, size := sizes[..|sizes| - 1], sizes[|sizes| - 1];
      HeapGrows(mm, front);
      hide RoundUp, Mask32;
      GrownOnce(HeapAfter(mm, front), size);
    }
  }

  lemma GrownOnce(mm: Mm, size: nat)
    requires HeapOk(mm) && 0 < size < BRK_LIMIT && mm.brk + RoundUp(size) <= STACK_START
    ensures var r := Sbrk(mm, size);
            && r.Grown? && r.at == mm.brk && HeapOk(r.mm) && r.mm.brk == mm.brk + RoundUp(size)
            && r.mm.vmas == mm.vmas[HEAP := mm.vmas[HEAP].(end := r.mm.brk)]
  {
    RoundUpAligned(size);
    hide RoundUp, Sbrk, Mask32;
    SbrkWithinMask(mm, size);
  }

  lemma RoundUpAligned(size: nat)
    ensures RoundUp(size) % PAGE_SIZE == 0 && size <= RoundUp(size)
  {
  }

  /** What each call of a run returns. */
  lemma ReturnedAt(mm: Mm, sizes: seq<nat>, i: nat)
    requires HeapOk(mm) && GoodSizes(mm, sizes) && i < |sizes|
    ensures var r := Returned(mm, sizes, i);
            r.Grown? && r.at == mm.brk + Rounded(sizes[..i]) && r.mm.brk == r.at + RoundUp(sizes[i])
              && r.at % PAGE_SIZE == 0
    ensures mm.brk + Rounded(sizes[..i]) + RoundUp(sizes[i]) == mm.brk + Rounded(sizes[..i + 1])
  {
    RoundedGrows(sizes, i);
    RoundedGrows(sizes, i + 1);
    assert sizes[..i + 1][..i] == sizes[..i];
    HeapGrows(mm, sizes[..i]);
    RoundUpAligned(sizes[i]);
    RoundedNext(sizes, i);
    hide RoundUp, Rounded;
    GrownOnce(HeapAfter(mm, sizes[..i]), sizes[i]);
  }

  lemma RoundedNext(sizes: seq<nat>, i: nat)
    requires i < |sizes|
    ensures Rounded(sizes[..i + 1]) == Rounded(sizes[..i]) + RoundUp(sizes[i])
  {
    assert sizes[..i + 1][..i] == sizes[..i];
  }

  /** Heap growth: the ranges handed out by a run are page-aligned, lie one after the other, and are
      all inside the heap region that the run leaves, so every byte of them has a region. */
  lemma HeapRangesAreGood(mm: Mm, sizes: seq<nat>, i: nat)
    requires HeapOk(mm) && GoodSizes(mm, sizes) && i < |sizes|
    ensures var r, t := Returned(mm, sizes, i), HeapAfter(mm, sizes);
            && r.Grown? && r.at % PAGE_SIZE == 0
            && HEAP < |t.vmas| && t.vmas[HEAP].start <= r.at
              && r.at + sizes[i] <= t.vmas[HEAP].end == t.brk <= STACK_START
            && forall a {:trigger InVma(t.vmas, a)} :: r.at <= a < r.at + sizes[i] ==> InVma(t.vmas, a).Some?
    ensures forall j {:trigger Returned(mm, sizes, j)} :: i < j < |sizes| ==>
              Returned(mm, sizes, j).Grown? && Returned(mm, sizes, i).at + sizes[i] <= Returned(mm, sizes, j).at
  {
    ReturnedAt(mm, sizes, i);
    HeapGrows(mm, sizes);
    RoundedGrows(sizes, i + 1);
    RoundUpAligned(sizes[i]);
    forall j | i < j < |sizes|
      ensures Returned(mm, sizes, j).Grown? && Returned(mm, sizes, i).at + sizes[i] <= Returned(mm, sizes, j).at
    {
      ReturnedAt(mm, sizes, j);
      assert sizes[..j][..i + 1] == sizes[..i + 1];
      RoundedGrows(sizes[..j], i + 1);
    }
    hide RoundUp, Rounded, Returned, HeapAfter, Sbrk;
    assert HeapAfter(mm, sizes).vmas[HEAP] in HeapAfter(mm, sizes).vmas;
  }

  /** Growing below the stack never mixes writable and read-only addresses on a page, as long as no
      read-only region lies between the old break and the stack: sbrk is then an enabled step of every
      run of the transparency theorem. */
  lemma GrowthIsClean(mm: Mm, size: nat)
    requires HeapOk(mm) && Separated(mm.vmas) && mm.vmas[HEAP].writable
    requires 0 < size < BRK_LIMIT && mm.brk + RoundUp(size) <= STACK_START
    requires forall w :: w in mm.vmas && !w.writable ==>
               (w.end <= mm.vmas[HEAP].start / PAGE_SIZE * PAGE_SIZE || w.start >= STACK_START)
    ensures GrowsCleanly(mm, size)
  {
    RoundUpAligned(size);
    hide RoundUp;
    SbrkWithinMask(mm, size);
    hide Sbrk;
    var grown := mm.vmas[HEAP].(end := mm.brk + RoundUp(size));
    forall w, page | w in mm.vmas && !w.writable
      ensures !(Meets(grown, page) && Meets(w, page))
    {
      NoCommonPage(grown, w, page);
    }
    hide Meets;
  }

  lemma NoCommonPage(v: Vma, w: Vma, page: nat)
    requires w.end <= v.start / PAGE_SIZE * PAGE_SIZE || (w.start >= STACK_START && v.end <= STACK_START)
    ensures !(Meets(v, page) && Meets(w, page))
  {
  }
}
