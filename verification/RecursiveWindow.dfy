/** The recursive window: PML4 slot 510 points back at the PML4, so that table entries can be read
    and written through ordinary virtual addresses. */
module RecursiveWindow {
  import opened PageTable

  const SELF_REF_BITS_MASK: Word := 0xFFFF_007F_FFFF_FFFF
  const SELF_REF_BITS: Word := 0x0000_FF00_0000_0000
  const SELF_REF_HIGH16BITS: Word := 0xFFFF_0000_0000_0000
  const SELF_REF_LOW3BITS: Word := 0xFFFF_FFFF_FFFF_FFF8

  /** One round of the loop: move every index one level down and enter slot 510 at the top. */
  function Shifted(va: Word): Word {
    ((va >> 9) & SELF_REF_BITS_MASK) | SELF_REF_BITS
  }

  function Rounds(n: nat, va: Word): Word {
    if n == 0 then va else Rounds(n - 1, Shifted(va))
  }

  /** The virtual address at which the window shows va's entry at a level. */
  function WindowAddr(level: nat, va: Word): Word {
    (Rounds(level, va) | SELF_REF_HIGH16BITS) & SELF_REF_LOW3BITS
  }

  /** self_ref_read_entry_vir. */
  method SelfRefEntryVir(level: nat, va: Word) returns (r: Word)
    ensures r == WindowAddr(level, va)
  {
    hide Shifted;
    r := va;
    var i := level;
    while i > 0
      invariant 0 <= i <= level && Rounds(i, r) == Rounds(level, va)
    {
      r := Shift(r);
      i := i - 1;
    }
    r := Finish(r);
  }

  method Shift(va: Word) returns (r: Word)
    ensures r == Shifted(va)
  {
    r := va >> 9;
    r := r & SELF_REF_BITS_MASK;
    r := r | SELF_REF_BITS;
  }

  method Finish(va: Word) returns (r: Word)
    ensures r == (va | SELF_REF_HIGH16BITS) & SELF_REF_LOW3BITS
  {
    r := va | SELF_REF_HIGH16BITS;
    r := r & SELF_REF_LOW3BITS;
  }

  // ----- where the four indices and the offset go -----

  lemma ShiftedIndices(v: Word)
    ensures Pml4Index(Shifted(v)) == SELF_INDEX && PdptIndex(Shifted(v)) == Pml4Index(v)
    ensures PdtIndex(Shifted(v)) == PdptIndex(v) && PtIndex(Shifted(v)) == PdtIndex(v)
    ensures Shifted(v) & 0xFF8 == SlotOffset(PtIndex(v))
  {
  }

  function Finished(v: Word): Word { (v | SELF_REF_HIGH16BITS) & SELF_REF_LOW3BITS }

  lemma FinishedIndices(v: Word)
    ensures Pml4Index(Finished(v)) == Pml4Index(v) && PdptIndex(Finished(v)) == PdptIndex(v)
    ensures PdtIndex(Finished(v)) == PdtIndex(v) && PtIndex(Finished(v)) == PtIndex(v)
    ensures PageOffset(Finished(v)) == v & 0xFF8
  {
  }

  /** Level 1 to 4: the walk of the window address enters slot 510 that many times, then follows
      va's own indices, and its offset is va's slot at that level. */
  lemma WindowIndices(va: Word)
    ensures var w := WindowAddr(1, va);
            && Index(4, w) == SELF_INDEX && Index(3, w) == Index(4, va)
            && Index(2, w) == Index(3, va) && Index(1, w) == Index(2, va) && PageOffset(w) == SlotOffset(Index(1, va))
    ensures var w := WindowAddr(2, va);
            && Index(4, w) == SELF_INDEX && Index(3, w) == SELF_INDEX
            && Index(2, w) == Index(4, va) && Index(1, w) == Index(3, va) && PageOffset(w) == SlotOffset(Index(2, va))
    ensures var w := WindowAddr(3, va);
            && Index(4, w) == SELF_INDEX && Index(3, w) == SELF_INDEX
            && Index(2, w) == SELF_INDEX && Index(1, w) == Index(4, va) && PageOffset(w) == SlotOffset(Index(3, va))
    ensures var w := WindowAddr(4, va);
            && Index(4, w) == SELF_INDEX && Index(3, w) == SELF_INDEX
            && Index(2, w) == SELF_INDEX && Index(1, w) == SELF_INDEX && PageOffset(w) == SlotOffset(Index(4, va))
  {
    var v1 := Shifted(va);
    var v2 := Shifted(v1);
    var v3 := Shifted(v2);
    var v4 := Shifted(v3);
    RoundsUnrolled(va);
    OneRound(va);
    OneRound(v1);
    OneRound(v2);
    OneRound(v3);
    FinishedWindow(va);
    hide Shifted, Finished, WindowAddr, Rounds, Pml4Index, PdptIndex, PdtIndex, PtIndex;
  }

  lemma RoundsUnrolled(va: Word)
    ensures Rounds(1, va) == Shifted(va)
    ensures Rounds(2, va) == Shifted(Shifted(va))
    ensures Rounds(3, va) == Shifted(Shifted(Shifted(va)))
    ensures Rounds(4, va) == Shifted(Shifted(Shifted(Shifted(va))))
  {
    hide Shifted;
    var v := Shifted(va);
    assert Rounds(1, va) == Rounds(0, v);
    assert Rounds(2, va) == Rounds(1, v) == Rounds(0, Shifted(v));
    assert Rounds(3, va) == Rounds(2, v) == Rounds(1, Shifted(v)) == Rounds(0, Shifted(Shifted(v)));
    assert Rounds(4, va) == Rounds(3, v) == Rounds(2, Shifted(v)) == Rounds(1, Shifted(Shifted(v)));
  }

  lemma FinishedWindow(va: Word)
    ensures forall n: nat {:trigger WindowAddr(n, va)} :: WindowAddr(n, va) == Finished(Rounds(n, va))
  {
  }

  /** What one round, followed by the final masks, does to the indices. */
  lemma OneRound(v: Word)
    ensures var w := Shifted(v);
            && Index(4, w) == SELF_INDEX && Index(3, w) == Index(4, v) && Index(2, w) == Index(3, v)
              && Index(1, w) == Index(2, v)
    ensures var w := Finished(Shifted(v));
            && Index(4, w) == SELF_INDEX && Index(3, w) == Index(4, v) && Index(2, w) == Index(3, v)
              && Index(1, w) == Index(2, v)
            && PageOffset(w) == SlotOffset(Index(1, v))
  {
    ShiftedIndices(v);
    FinishedIndices(Shifted(v));
    hide Shifted, Finished, Pml4Index, PdptIndex, PdtIndex, PtIndex;
  }

  // ----- the window meets the walk -----

  /** The root's slot 510 points at the root. */
  ghost predicate SelfReferenced(m: Memory, root: Word) {
    Aligned(root) && Below(m, root, SELF_INDEX) == Some(root)
  }

  lemma WalkUnrolled(m: Memory, root: Word, w: Word)
    ensures TableAt(m, root, w, 4) == Some(root)
    ensures TableAt(m, root, w, 3) == Below(m, root, Index(4, w))
    ensures TableAt(m, root, w, 2) ==
            if TableAt(m, root, w, 3).Some? then Below(m, TableAt(m, root, w, 3).value, Index(3, w)) else None
    ensures TableAt(m, root, w, 1) ==
            if TableAt(m, root, w, 2).Some? then Below(m, TableAt(m, root, w, 2).value, Index(2, w)) else None
  {
    hide Below, Index;
    TableStep(m, root, w, 3);
    TableStep(m, root, w, 2);
    TableStep(m, root, w, 1);
  }

  lemma AbsentZero()
    ensures !Present(0)
  {
  }

  lemma WalkIsBelow(m: Memory, cr3: Word, w: Word)
    ensures Walk(m, cr3, w) ==
              var t := TableAt(m, Base(cr3), w, 1);
              if t.Some? && Below(m, t.value, Index(1, w)).Some?
              then Some(WithOffset(Below(m, t.value, Index(1, w)).value, PageOffset(w))) else None
  {
    AbsentZero();
    hide Present, Base, Index, SlotAddr, Rd, TableAt, WithOffset, PageOffset;
  }

  lemma WindowWalk1(m: Memory, cr3: Word, va: Word)
    requires SelfReferenced(m, Base(cr3))
    ensures Walk(m, cr3, WindowAddr(1, va)) == SlotOf(m, Base(cr3), va, 1)
  {
    hide Base, Index, WindowAddr, WithOffset, PageOffset, SlotOffset, Rd, Below, TableAt, Walk, Aligned;
    WindowIndices(va);
    WalkUnrolled(m, Base(cr3), va);
    WalkUnrolled(m, Base(cr3), WindowAddr(1, va));
    WalkIsBelow(m, cr3, WindowAddr(1, va));
  }

  lemma WindowWalk2(m: Memory, cr3: Word, va: Word)
    requires SelfReferenced(m, Base(cr3))
    ensures Walk(m, cr3, WindowAddr(2, va)) == SlotOf(m, Base(cr3), va, 2)
  {
    hide Base, Index, WindowAddr, WithOffset, PageOffset, SlotOffset, Rd, Below, TableAt, Walk, Aligned;
    WindowIndices(va);
    WalkUnrolled(m, Base(cr3), va);
    WalkUnrolled(m, Base(cr3), WindowAddr(2, va));
    WalkIsBelow(m, cr3, WindowAddr(2, va));
  }

  lemma WindowWalk3(m: Memory, cr3: Word, va: Word)
    requires SelfReferenced(m, Base(cr3))
    ensures Walk(m, cr3, WindowAddr(3, va)) == SlotOf(m, Base(cr3), va, 3)
  {
    hide Base, Index, WindowAddr, WithOffset, PageOffset, SlotOffset, Rd, Below, TableAt, Walk, Aligned;
    WindowIndices(va);
    WalkUnrolled(m, Base(cr3), va);
    WalkUnrolled(m, Base(cr3), WindowAddr(3, va));
    WalkIsBelow(m, cr3, WindowAddr(3, va));
  }

  lemma WindowWalk4(m: Memory, cr3: Word, va: Word)
    requires SelfReferenced(m, Base(cr3))
    ensures Walk(m, cr3, WindowAddr(4, va)) == SlotOf(m, Base(cr3), va, 4)
  {
    hide Base, Index, WindowAddr, WithOffset, PageOffset, SlotOffset, Rd, Below, TableAt, Walk, Aligned;
    WindowIndices(va);
    WalkUnrolled(m, Base(cr3), va);
    WalkUnrolled(m, Base(cr3), WindowAddr(4, va));
    WalkIsBelow(m, cr3, WindowAddr(4, va));
  }

  /** For every level and every address the hardware walk of the window address lands on exactly the
      slot the walk of the address itself uses at that level, and faults if there is none. */
  lemma WindowWalk(m: Memory, cr3: Word, va: Word, level: nat)
    requires SelfReferenced(m, Base(cr3)) && 1 <= level <= 4
    ensures Walk(m, cr3, WindowAddr(level, va)) == SlotOf(m, Base(cr3), va, level)
  {
    hide *;
    WindowWalk1(m, cr3, va);
    WindowWalk2(m, cr3, va);
    WindowWalk3(m, cr3, va);
    WindowWalk4(m, cr3, va);
  }

  /** self_ref_read at level PT returns the entry the direct walk would use. */
  lemma WindowReadsLeaf(m: Memory, cr3: Word, va: Word)
    requires SelfReferenced(m, Base(cr3)) && SlotOf(m, Base(cr3), va, 1).Some?
    ensures Walk(m, cr3, WindowAddr(1, va)).Some?
            && Rd(m, Walk(m, cr3, WindowAddr(1, va)).value) == Leaf(m, Base(cr3), va)
  {
    WindowWalk(m, cr3, va, 1);
    hide Base, Rd, Walk, WindowAddr, SlotOf;
  }

  /** self_ref_write at level PT sets the translation of that page and of no other. */
  lemma WindowWriteRefines(m: Memory, cr3: Word, tabs: Levels, va: Word, x: Word, vb: Word)
    requires SelfReferenced(m, Base(cr3)) && Shape(m, Base(cr3), tabs)
    requires Outside510(va) && Outside510(vb) && Walk(m, cr3, WindowAddr(1, va)).Some?
    ensures var m' := Wr(m, Walk(m, cr3, WindowAddr(1, va)).value, x);
            Leaf(m', Base(cr3), vb) == if SamePrefix(va, vb, 0) then x else Leaf(m, Base(cr3), vb)
  {
    WindowWalk(m, cr3, va, 1);
    hide Base, Rd, Wr, Walk, WindowAddr, SlotOf, Leaf, SamePrefix, Shape;
    LeafStoreRefines(m, Base(cr3), tabs, va, x, vb);
  }

  /** self_ref_write at an upper level, as the fault handler uses it to hang a new zero frame where
      a table was missing: every translation stays as it was, and the shape is kept. */
  lemma WindowHangsTable(m: Memory, cr3: Word, tabs: Levels, va: Word, e: Word, level: nat, vb: Word)
    requires SelfReferenced(m, Base(cr3)) && Shape(m, Base(cr3), tabs) && Outside510(va) && Outside510(vb)
    requires 2 <= level <= 4 && Walk(m, cr3, WindowAddr(level, va)).Some?
    requires TableAt(m, Base(cr3), va, level).Some? && TableAt(m, Base(cr3), va, level - 1).None?
    requires Present(e) && LevelOf(tabs, Base(e)) == 0 && ZeroTable(m, Base(e))
    ensures var m' := Wr(m, Walk(m, cr3, WindowAddr(level, va)).value, e);
            var t := TableAt(m, Base(cr3), va, level).value;
            && LevelOf(tabs, t) > 0
            && Leaf(m', Base(cr3), vb) == Leaf(m, Base(cr3), vb)
            && Shape(m', Base(cr3), Hang(tabs, t, Base(e)))
  {
    var root := Base(cr3);
    var t, i := TableAt(m, root, va, level).value, Index(level, va);
    WindowWalk(m, cr3, va, level);
    InnerOnWalk(m, root, tabs, va, level);
    WalkStaysInside(m, root, tabs, va, level);
    TableStep(m, root, va, level - 1);
    HangKeepsLeaves(m, root, tabs, t, i, e, vb);
    HangKeepsShape(m, root, tabs, t, i, e);
    hide Base, Rd, Wr, Walk, WindowAddr, Leaf, Shape, TableAt, Index;
  }

  // ----- the write permission of the window -----

  /** Every entry the walk of w reads allows writes. */
  ghost predicate PathWritable(m: Memory, root: Word, w: Word) {
    forall level {:trigger SlotOf(m, root, w, level)} :: 1 <= level <= 4 && SlotOf(m, root, w, level).Some? ==>
      Writable(Rd(m, SlotOf(m, root, w, level).value))
  }

  /** A supervisor-mode store: with CR0.WP set, a clear W bit anywhere on the path faults. */
  ghost predicate SupervisorStoreAllowed(m: Memory, cr3: Word, w: Word, wp: bool) {
    Walk(m, cr3, w).Some? && (wp ==> PathWritable(m, Base(cr3), w))
  }

  /** What map_virmem_to_phymem stores in slot 510: the root and the present bit, no write bit. */
  function SelfWord(root: Word): Word { root | PTE_P }

  lemma RootSelfWord(root: Word)
    requires Aligned(root)
    ensures Base(SelfWord(root)) == root && Present(SelfWord(root)) && !Writable(SelfWord(root))
  {
  }

  /** map_virmem_to_phymem fills slot 510 with the root and PTE_P alone. A store through the window
      is then allowed exactly if CR0.WP is clear, whatever the entry it is meant for. */
  lemma WindowStoreAllowedIff(m: Memory, cr3: Word, va: Word, level: nat, wp: bool)
    requires Aligned(Base(cr3)) && Rd(m, SlotAddr(Base(cr3), SELF_INDEX)) == SelfWord(Base(cr3))
    requires 1 <= level <= 4 && SlotOf(m, Base(cr3), va, level).Some?
    ensures SupervisorStoreAllowed(m, cr3, WindowAddr(level, va), wp) <==> !wp
  {
    var root, w := Base(cr3), WindowAddr(level, va);
    RootSelfWord(root);
    SelfWordRefers(m, root);
    WindowWalk(m, cr3, va, level);
    WindowEntersSelf(m, root, va, level);
    hide Base, Rd, Walk, WindowAddr, TableAt, Index, Writable, SlotAddr, Below, SlotOf, SelfReferenced;
  }

  lemma WindowEntersSelf(m: Memory, root: Word, va: Word, level: nat)
    requires 1 <= level <= 4
    ensures SlotOf(m, root, WindowAddr(level, va), 4) == Some(SlotAddr(root, SELF_INDEX))
  {
    hide Base, Rd, WindowAddr, Index, SlotAddr, Below, PageOffset, SlotOffset;
    WindowIndices(va);
    WalkUnrolled(m, root, WindowAddr(level, va));
    if level == 1 {
    } else if level == 2 {
    } else if level == 3 {
    } else {
    }
  }

  lemma SelfWordRefers(m: Memory, root: Word)
    requires Aligned(root) && Rd(m, SlotAddr(root, SELF_INDEX)) == SelfWord(root)
    ensures SelfReferenced(m, root)
  {
    RootSelfWord(root);
    hide Base, Present, SlotAddr, Rd;
  }
}
